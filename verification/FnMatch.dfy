/**
 The matcher of src/fnmatch_loop.c for plain characters and no flags, as src/cfgfile.c
 calls it, proved equal to the language of the pattern.
 */
module FnMatch {
  import opened Glob

  const NOMATCH: int := 1

  /** The character there, or the NUL that ends the string. */
  function At(s: seq<Ascii>, i: nat): char
    requires i <= |s|
  {
    if i < |s| then s[i] else '\0'
  }

  ghost predicate Takes(pattern: seq<Ascii>, s: seq<Ascii>, posixlyCorrect: bool) {
    var parsed := Parse(pattern, posixlyCorrect);
    parsed.Pattern? && Matches(parsed.elems, s)
  }

  /** Some end of the string is taken. */
  ghost predicate TakesEnd(pattern: seq<Ascii>, s: seq<Ascii>, posixlyCorrect: bool) {
    exists k :: 0 <= k <= |s| && Takes(pattern, s[k..], posixlyCorrect)
  }

  predicate InModel(pattern: seq<Ascii>, posixlyCorrect: bool) {
    !Parse(pattern, posixlyCorrect).WithClass?
  }

  // -------------------------------------------------------------------- one element of the pattern

  lemma TakesOne(e: Elem, pattern: seq<Ascii>, n: nat, s: seq<Ascii>, posixlyCorrect: bool)
    requires n <= |pattern| && !e.Star?
    requires Parse(pattern, posixlyCorrect) == Then(e, Parse(pattern[n..], posixlyCorrect))
    ensures Takes(pattern, s, posixlyCorrect) <==>
        s != [] && PieceOk(e, [s[0]]) && Takes(pattern[n..], s[1..], posixlyCorrect)
    ensures InModel(pattern, posixlyCorrect) <==> InModel(pattern[n..], posixlyCorrect)
  {
    var rest := Parse(pattern[n..], posixlyCorrect);
    if rest.Pattern? {
      var elems := [e] + rest.elems;
      assert elems[1..] == rest.elems;
      assert s != [] ==> s[..1] == [s[0]];
    }
  }

  lemma TakesStar(pattern: seq<Ascii>, s: seq<Ascii>, posixlyCorrect: bool)
    requires pattern != [] && pattern[0] == '*'
    ensures Takes(pattern, s, posixlyCorrect) <==> TakesEnd(pattern[1..], s, posixlyCorrect)
    ensures InModel(pattern, posixlyCorrect) <==> InModel(pattern[1..], posixlyCorrect)
  {
    var rest := Parse(pattern[1..], posixlyCorrect);
    if rest.Pattern? {
      var elems := [Star] + rest.elems;
      assert elems[1..] == rest.elems;
    }
  }

  /** After a star, another star changes nothing. */
  lemma EndStar(pattern: seq<Ascii>, s: seq<Ascii>, posixlyCorrect: bool)
    requires pattern != [] && pattern[0] == '*'
    ensures TakesEnd(pattern, s, posixlyCorrect) <==> TakesEnd(pattern[1..], s, posixlyCorrect)
    ensures InModel(pattern, posixlyCorrect) <==> InModel(pattern[1..], posixlyCorrect)
  {
    TakesStar(pattern, s, posixlyCorrect);
    assert s[0..] == s;
    if TakesEnd(pattern[1..], s, posixlyCorrect) {
      assert Takes(pattern, s[0..], posixlyCorrect);
    }
    if TakesEnd(pattern, s, posixlyCorrect) {
      var k :| 0 <= k <= |s| && Takes(pattern, s[k..], posixlyCorrect);
      TakesStar(pattern, s[k..], posixlyCorrect);
      var j :| 0 <= j <= |s[k..]| && Takes(pattern[1..], s[k..][j..], posixlyCorrect);
      assert s[k..][j..] == s[k + j..];
    }
  }

  /** After a star, a question mark takes the next character. */
  lemma EndQuestion(pattern: seq<Ascii>, s: seq<Ascii>, posixlyCorrect: bool)
    requires pattern != [] && pattern[0] == '?'
    ensures TakesEnd(pattern, s, posixlyCorrect) <==> s != [] && TakesEnd(pattern[1..], s[1..], posixlyCorrect)
    ensures InModel(pattern, posixlyCorrect) <==> InModel(pattern[1..], posixlyCorrect)
  {
    forall k | 0 <= k <= |s|
      ensures Takes(pattern, s[k..], posixlyCorrect) <==>
        k < |s| && Takes(pattern[1..], s[1..][k..], posixlyCorrect)
    {
      TakesOne(AnyChar, pattern, 1, s[k..], posixlyCorrect);
      if k < |s| {
        assert s[k..][1..] == s[1..][k..];
      }
    }
    TakesOne(AnyChar, pattern, 1, s, posixlyCorrect);
    if s != [] && TakesEnd(pattern[1..], s[1..], posixlyCorrect) {
      var k :| 0 <= k <= |s[1..]| && Takes(pattern[1..], s[1..][k..], posixlyCorrect);
      assert Takes(pattern, s[k..], posixlyCorrect);
    }
  }

  /** What the first character must be for a pattern that begins with a plain or quoted one. */
  lemma FirstCharacter(pattern: seq<Ascii>, s: seq<Ascii>, posixlyCorrect: bool)
    requires pattern != [] && pattern[0] !in ['?', '*', '[']
    requires Takes(pattern, s, posixlyCorrect)
    ensures s != [] && UnitLength(pattern) <= |pattern| && s[0] == UnitChar(pattern)
  {
    var n := UnitLength(pattern);
    if n <= |pattern| {
      TakesOne(Lit(UnitChar(pattern)), pattern, n, s, posixlyCorrect);
    }
  }

  lemma NothingLeft(pattern: seq<Ascii>, posixlyCorrect: bool)
    requires pattern != [] && pattern[0] !in ['?', '*']
    ensures !Takes(pattern, [], posixlyCorrect)
  {
    if pattern[0] != '[' {
      if Takes(pattern, [], posixlyCorrect) {
        FirstCharacter(pattern, [], posixlyCorrect);
      }
    }
  }

  // -------------------------------------------------------------------- the inside of a bracket

  function CloseAt(s: seq<Ascii>, first: bool): int {
    if first then Close(s) else FindClose(s)
  }

  function Shift(n: int, gap: nat): int {
    if n == -1 then -1 else n + gap
  }

  /** What is left to see of the bracket, or all that is left if it does not end. */
  function Left(s: seq<Ascii>, first: bool): seq<Ascii> {
    if CloseAt(s, first) == -1 then s else s[..CloseAt(s, first)]
  }

  /** No item before position `i` has the character, and `i` is where one begins or the bracket ends. */
  ghost predicate Missed(body: seq<Ascii>, i: nat, fn: char) {
    && i <= |body| && !HasClass(Left(body[i..], i == 0))
    && Close(body) == Shift(CloseAt(body[i..], i == 0), i)
    && (Close(body) != -1 ==> (Within(Items(Left(body, true)), fn) <==> Within(Items(Left(body[i..], i == 0)), fn)))
  }

  /** Some item has the character, and `i` is where another begins or the bracket ends. */
  ghost predicate Found(body: seq<Ascii>, i: nat, fn: char) {
    && 0 < i <= |body| && !HasClass(Left(body[i..], false))
    && Close(body) == Shift(FindClose(body[i..]), i)
    && (Close(body) != -1 ==> Within(Items(Left(body, true)), fn))
  }

  predicate IsRange(rest: seq<Ascii>) {
    |rest| >= 2 && rest[0] == '-' && rest[1] != ']'
  }

  lemma NextUnit(s: seq<Ascii>, first: bool)
    requires s != [] && (first || s[0] != ']')
    ensures UnitLength(s) > |s| ==> CloseAt(s, first) == -1
    ensures UnitLength(s) <= |s| ==> CloseAt(s, first) == Shift(FindClose(s[UnitLength(s)..]), UnitLength(s))
    ensures
      UnitLength(s) <= |s| ==>
        && Left(s, first) != [] && UnitLength(Left(s, first)) == UnitLength(s) <= |Left(s, first)|
        && UnitChar(Left(s, first)) == UnitChar(s)
        && Left(s, first)[UnitLength(s)..] == Left(s[UnitLength(s)..], false)
  {
    var u := UnitLength(s);
    if u <= |s| && CloseAt(s, first) != -1 {
      assert s[..CloseAt(s, first)][u..] == s[u..][..FindClose(s[u..])];
    }
  }

  lemma NextHasNoClass(s: seq<Ascii>, first: bool)
    requires s != [] && (first || s[0] != ']') && UnitLength(s) <= |s| && !HasClass(Left(s, first))
    ensures !HasClass(Left(s[UnitLength(s)..], false)) && !(s[0] == '[' && |s| > 1 && s[1] in [':', '=', '.'])
  {
    NextUnit(s, first);
  }

  lemma FirstChar(body: seq<Ascii>)
    requires body != [] && UnitLength(body) <= |body|
    requires |body| > UnitLength(body) + 1 ==> body[UnitLength(body)] != '-'
    ensures Items(body) == [Range(UnitChar(body), UnitChar(body))] + Items(body[UnitLength(body)..])
  {
  }

  lemma WithinCons(r: Range, items: seq<Range>, fn: char)
    ensures Within([r] + items, fn) <==> r.lo <= fn <= r.hi || Within(items, fn)
  {
    var all := [r] + items;
    assert forall i :: 0 <= i < |items| ==> all[i + 1] == items[i];
    assert all[0] == r;
    if Within(all, fn) {
      var i :| 0 <= i < |all| && all[i].lo <= fn <= all[i].hi;
      assert i > 0 ==> items[i - 1] == all[i];
    }
  }

  /** A character that does not begin a range is an item by itself. */
  lemma ItemIsChar(s: seq<Ascii>, first: bool, fn: char)
    requires s != [] && (first || s[0] != ']') && UnitLength(s) <= |s| && !IsRange(s[UnitLength(s)..])
    requires CloseAt(s, first) != -1
    ensures
      var rest := s[UnitLength(s)..];
      Within(Items(Left(s, first)), fn) <==> UnitChar(s) == fn || Within(Items(Left(rest, false)), fn)
  {
    hide Items, Within, UnitChar;
    NextUnit(s, first);
    FirstChar(Left(s, first));
    WithinCons(Range(UnitChar(s), UnitChar(s)), Items(Left(s[UnitLength(s)..], false)), fn);
  }

  lemma MinusIsUnit(s: seq<Ascii>)
    requires s != [] && s[0] == '-'
    ensures UnitLength(s) == 1 && UnitChar(s) == '-'
  {
  }

  lemma FirstRange(body: seq<Ascii>, rest: seq<Ascii>, hi: seq<Ascii>)
    requires body != [] && UnitLength(body) <= |body| && rest == body[UnitLength(body)..]
    requires rest != [] && UnitLength(rest) == 1 && UnitChar(rest) == '-' && hi == rest[1..]
    requires hi != [] && UnitLength(hi) <= |hi|
    ensures Items(body) == [Range(UnitChar(body), UnitChar(hi))] + Items(hi[UnitLength(hi)..])
  {
    assert rest[1 + UnitLength(hi)..] == hi[UnitLength(hi)..];
  }

  lemma RangeItems(s: seq<Ascii>, first: bool)
    requires s != [] && (first || s[0] != ']') && UnitLength(s) <= |s| && IsRange(s[UnitLength(s)..])
    requires UnitLength(s[UnitLength(s)..][1..]) <= |s| - UnitLength(s) - 1
    requires CloseAt(s, first) != -1
    ensures
      var hi := s[UnitLength(s)..][1..];
      Items(Left(s, first)) == [Range(UnitChar(s), UnitChar(hi))] + Items(Left(hi[UnitLength(hi)..], false))
  {
    hide Items, FindClose, Close, UnitChar, UnitLength, Left;
    var rest := s[UnitLength(s)..];
    var hi := rest[1..];
    NextUnit(s, first);
    MinusIsUnit(rest);
    NextUnit(rest, false);
    NextUnit(hi, false);
    FirstRange(Left(s, first), Left(rest, false), Left(hi, false));
  }

  /** A range, of which the upper end may be quoted. */
  lemma ItemIsRange(s: seq<Ascii>, first: bool, fn: char)
    requires s != [] && (first || s[0] != ']') && UnitLength(s) <= |s| && IsRange(s[UnitLength(s)..])
    ensures
      var hi := s[UnitLength(s)..][1..];
      if UnitLength(hi) > |hi| then CloseAt(s, first) == -1
      else
        var tail := hi[UnitLength(hi)..];
        && CloseAt(s, first) == Shift(FindClose(tail), UnitLength(s) + 1 + UnitLength(hi))
        && (CloseAt(s, first) != -1 ==>
              (Within(Items(Left(s, first)), fn) <==>
               UnitChar(s) <= fn <= UnitChar(hi) || Within(Items(Left(tail, false)), fn)))
        && (!HasClass(Left(s, first)) ==> !HasClass(Left(tail, false)))
  {
    hide Items, HasClass, Within, UnitChar, FindClose, Close;
    var rest := s[UnitLength(s)..];
    var hi := rest[1..];
    NextUnit(s, first);
    NextUnit(rest, false);
    NextUnit(hi, false);
    if UnitLength(hi) <= |hi| {
      if !HasClass(Left(s, first)) {
        NextHasNoClass(s, first);
        NextHasNoClass(rest, false);
        NextHasNoClass(hi, false);
      }
      if CloseAt(s, first) != -1 {
        RangeItems(s, first);
        WithinCons(Range(UnitChar(s), UnitChar(hi)), Items(Left(hi[UnitLength(hi)..], false)), fn);
      }
    }
  }

  lemma AtStart(body: seq<Ascii>, fn: char)
    requires !HasClass(Left(body, true))
    ensures Missed(body, 0, fn)
  {
    assert body[0..] == body;
  }

  lemma AtEnd(body: seq<Ascii>, i: nat, fn: char)
    requires Missed(body, i, fn)
    ensures i == |body| ==> Close(body) == -1
    ensures i < |body| && UnitLength(body[i..]) > |body| - i ==> Close(body) == -1
    ensures i + 1 == |body| && (i == 0 || body[i] != ']') ==> Close(body) == -1
    ensures 0 < i < |body| && body[i] == ']' ==> Close(body) == i && !Within(Items(Left(body, true)), fn)
  {
  }

  lemma NoClassHere(body: seq<Ascii>, i: nat, fn: char)
    requires Missed(body, i, fn) && i < |body| && (i == 0 || body[i] != ']') && body[i] != '\\'
    ensures !(body[i] == '[' && i + 1 < |body| && body[i + 1] in [':', '=', '.'])
  {
    NextHasNoClass(body[i..], i == 0);
  }

  /** The scan goes past one character. */
  lemma StepChar(body: seq<Ascii>, i: nat, fn: char)
    requires Missed(body, i, fn) && i < |body| && (i > 0 ==> body[i] != ']')
    requires UnitLength(body[i..]) <= |body| - i && !IsRange(body[i..][UnitLength(body[i..])..])
    ensures
      var j := i + UnitLength(body[i..]);
      if UnitChar(body[i..]) == fn then Found(body, j, fn) else Missed(body, j, fn)
  {
    hide Items, HasClass, Within, FindClose, Close, Left, UnitChar;
    var s := body[i..];
    NextUnit(s, i == 0);
    NextHasNoClass(s, i == 0);
    if CloseAt(s, i == 0) != -1 {
      ItemIsChar(s, i == 0, fn);
    }
    assert s[UnitLength(s)..] == body[i + UnitLength(s)..];
  }

  /** The scan goes past a range, of which `hi` begins with the upper end. */
  lemma StepRange(body: seq<Ascii>, i: nat, fn: char, s: seq<Ascii>, hi: seq<Ascii>)
    requires Missed(body, i, fn) && i < |body| && (i > 0 ==> body[i] != ']') && s == body[i..]
    requires UnitLength(s) <= |s| && IsRange(s[UnitLength(s)..]) && hi == s[UnitLength(s)..][1..]
    ensures
      if UnitLength(hi) > |hi| then Close(body) == -1
      else
        var j := i + UnitLength(s) + 1 + UnitLength(hi);
        && j <= |body|
        && if UnitChar(s) <= fn <= UnitChar(hi) then Found(body, j, fn) else Missed(body, j, fn)
  {
    hide Items, HasClass, Within, FindClose, Close, Left, UnitChar;
    ItemIsRange(s, i == 0, fn);
    if UnitLength(hi) <= |hi| {
      assert hi[UnitLength(hi)..] == body[i + UnitLength(s) + 1 + UnitLength(hi)..];
    }
  }

  // -------------------------------------------------------------------- the matcher

  datatype Scan = Hit(p: nat) | Miss(p: nat) | Bad

  /** Where the character that may be quoted at position `i` ends. */
  function After(pattern: seq<Ascii>, i: nat): nat
    requires i < |pattern|
  {
    if pattern[i] == '\\' then i + 2 else i + 1
  }

  predicate RangeAt(pattern: seq<Ascii>, j: nat)
    requires j <= |pattern|
  {
    At(pattern, j) == '-' && At(pattern, j + 1) != '\0' && At(pattern, j + 1) != ']'
  }

  /** The unit at position `i`, by its characters. */
  lemma UnitAt(pattern: seq<Ascii>, i: nat, s: seq<Ascii>)
    requires i < |pattern| && s == pattern[i..]
    ensures
      var j := After(pattern, i);
      && s != [] && |s| == |pattern| - i && UnitLength(s) == j - i
      && (j <= |pattern| ==> UnitChar(s) == pattern[j - 1] && (IsRange(s[UnitLength(s)..]) <==> RangeAt(pattern, j)))
  {
  }

  /** The upper end of the range at position `i`. */
  lemma UpperEnd(pattern: seq<Ascii>, i: nat, s: seq<Ascii>) returns (hi: seq<Ascii>)
    requires i < |pattern| && s == pattern[i..]
    requires After(pattern, i) <= |pattern| && RangeAt(pattern, After(pattern, i))
    ensures UnitLength(s) < |s| && hi == s[UnitLength(s)..][1..] == pattern[After(pattern, i) + 1..]
  {
    hi := s[UnitLength(s)..][1..];
  }

  lemma RangeHasEnd(pattern: seq<Ascii>, j: nat)
    ensures j <= |pattern| && RangeAt(pattern, j) ==> j + 1 < |pattern|
    ensures forall i :: 0 <= i < |pattern| ==> i < After(pattern, i) <= i + 2
  {
  }

  /** The scan has gone past the range of which the minus sign is at position `j`. */
  ghost predicate RangeTaken(pattern: seq<Ascii>, start: nat, j: nat, fn: char)
    requires start < j <= |pattern| && RangeAt(pattern, j)
  {
    var body, k := pattern[start..], After(pattern, j + 1);
    if k > |pattern| then Close(body) == -1
    else if pattern[j - 1] <= fn <= pattern[k - 1] then Found(body, k - start, fn)
    else Missed(body, k - start, fn)
  }

  lemma RangeItemAt(pattern: seq<Ascii>, start: nat, i: nat, fn: char, body: seq<Ascii>, s: seq<Ascii>)
    requires start <= i < |pattern| && body == pattern[start..] && s == body[i - start..] == pattern[i..]
    requires Missed(body, i - start, fn) && (i == start || pattern[i] != ']')
    requires After(pattern, i) <= |pattern| && RangeAt(pattern, After(pattern, i))
    ensures RangeTaken(pattern, start, After(pattern, i), fn)
  {
    hide Missed, Found, Close, IsRange, UnitLength, UnitChar, After, RangeAt;
    var j := After(pattern, i);
    RangeHasEnd(pattern, j);
    UnitAt(pattern, i, s);
    var hi := UpperEnd(pattern, i, s);
    UnitAt(pattern, j + 1, hi);
    StepRange(body, i - start, fn, s, hi);
    var k := After(pattern, j + 1);
    assert i - start + UnitLength(s) + 1 + UnitLength(hi) == k - start;
    assert UnitLength(hi) > |hi| <==> k > |pattern|;
  }

  /** One step of the scan, by the characters of the pattern. */
  lemma ItemAt(pattern: seq<Ascii>, start: nat, i: nat, fn: char)
    requires start <= i < |pattern| && Missed(pattern[start..], i - start, fn) && (i == start || pattern[i] != ']')
    ensures
      var body, j := pattern[start..], After(pattern, i);
      if j > |pattern| then Close(body) == -1
      else if !RangeAt(pattern, j) then
        && (if pattern[j - 1] == fn then Found(body, j - start, fn) else Missed(body, j - start, fn))
        && (pattern[j - 1] != fn && j + 1 == |pattern| && pattern[j] == '-' ==> Close(body) == -1)
      else RangeTaken(pattern, start, j, fn)
  {
    hide Missed, Found, Close, IsRange, UnitLength, UnitChar, RangeAt, After, RangeTaken;
    RangeHasEnd(pattern, After(pattern, i));
    var body, j := pattern[start..], After(pattern, i);
    AtEnd(body, i - start, fn);
    var s := body[i - start..];
    assert s == pattern[i..];
    UnitAt(pattern, i, s);
    if j <= |pattern| {
      if RangeAt(pattern, j) {
        RangeItemAt(pattern, start, i, fn, body, s);
      } else {
        StepChar(body, i - start, fn);
        if pattern[j - 1] != fn {
          AtEnd(body, j - start, fn);
        }
      }
    }
  }

  /** One item of the bracket: whether it has the character `fn`, which begins at `c`, before `p`. */
  method ScanItem(pattern: seq<Ascii>, ghost start: nat, c0: char, p0: nat, fn: Ascii) returns (r: Scan)
    requires start < p0 <= |pattern| + 1 && c0 == At(pattern, p0 - 1)
    requires Missed(pattern[start..], p0 - 1 - start, fn) && (p0 - 1 == start || c0 != ']')
    ensures
      var body := pattern[start..];
      match r
      case Hit(p) => start < p <= |pattern| && Found(body, p - start, fn)
      case Miss(p) => p0 < p <= |pattern| + 1 && Missed(body, p - 1 - start, fn)
      case Bad => Close(body) == -1
  {
    hide Missed, Found, Close;
    var c, p := c0, p0;
    if c == '\0' {
      AtEnd(pattern[start..], p0 - 1 - start, fn);
      return Bad;
    }
    ItemAt(pattern, start, p0 - 1, fn);
    if c != '\\' {
      NoClassHere(pattern[start..], p0 - 1 - start, fn);
      assert !(c == '[' && At(pattern, p) == ':');  // a class would be matched in another way
    }
    if c == '\\' {
      if At(pattern, p) == '\0' {
        return Bad;
      }
      c := At(pattern, p);
      p := p + 1;
    }
    var isRange := At(pattern, p) == '-' && At(pattern, p + 1) != '\0' && At(pattern, p + 1) != ']';
    if !isRange && c == fn {
      return Hit(p);
    }
    var cold := c;
    c := At(pattern, p);
    p := p + 1;
    if c == '-' && At(pattern, p) != ']' {
      var cend := At(pattern, p);
      p := p + 1;
      if cend == '\\' {
        cend := At(pattern, p);
        p := p + 1;
      }
      if cend == '\0' {
        return Bad;
      }
      if cold <= fn <= cend {
        return Hit(p);
      }
      c := At(pattern, p);
      p := p + 1;
    }
    r := Miss(p);
  }

  /** The scan of a bracket for the character `fn`, from just after `[` or `[!`. */
  method ScanItems(pattern: seq<Ascii>, start: nat, fn: Ascii) returns (r: Scan)
    requires start <= |pattern| && !HasClass(Left(pattern[start..], true))
    ensures
      var body := pattern[start..];
      match r
      case Hit(p) => start < p <= |pattern| && Found(body, p - start, fn)
      case Miss(p) => Close(body) != -1 && p == start + Close(body) + 1 && !Within(Items(Left(body, true)), fn)
      case Bad => Close(body) == -1
  {
    hide Missed, Found, Close, HasClass, Items, Within;
    ghost var body := pattern[start..];
    AtStart(body, fn);
    var p := start + 1;
    while true
      invariant start < p <= |pattern| + 1
      invariant Missed(body, p - 1 - start, fn)
      invariant p - 1 == start || At(pattern, p - 1) != ']'
      decreases |pattern| + 1 - p
    {
      r := ScanItem(pattern, start, At(pattern, p - 1), p, fn);
      if !r.Miss? {
        return;
      }
      p := r.p;
      AtEnd(body, p - 1 - start, fn);
      if At(pattern, p - 1) == ']' {
        return Miss(p);
      }
    }
  }

  /** The skip to the end of a bracket in which an item has matched; -1 if it does not end. */
  method SkipRest(pattern: seq<Ascii>, p0: nat) returns (r: int)
    requires p0 <= |pattern| && !HasClass(Left(pattern[p0..], false))
    ensures r == Shift(FindClose(pattern[p0..]), p0 + 1)
  {
    hide HasClass, Left;
    var p := p0;
    while true
      invariant p0 <= p <= |pattern|
      invariant !HasClass(Left(pattern[p..], false))
      invariant FindClose(pattern[p0..]) == Shift(FindClose(pattern[p..]), p - p0)
      decreases |pattern| - p
    {
      ghost var s := pattern[p..];
      var c := At(pattern, p);
      p := p + 1;
      if c == '\0' {
        return -1;
      }
      if c == ']' {
        return p;
      }
      NextUnit(s, false);
      if c == '\\' {
        if At(pattern, p) == '\0' {
          return -1;
        }
        p := p + 1;
      }
      NextHasNoClass(s, false);
      assert !(c == '[' && At(pattern, p) in [':', '=', '.']);  // a class would be skipped in another way
      assert s[UnitLength(s)..] == pattern[p..];
    }
  }

  // -------------------------------------------------------------------- a bracket as a whole

  function BodyStart(pattern: seq<Ascii>, p: nat, posixlyCorrect: bool): nat
    requires p <= |pattern|
  {
    if Negates(pattern[p..], posixlyCorrect) then p + 1 else p
  }

  lemma ParseBracket(s: seq<Ascii>, posixlyCorrect: bool)
    requires s != [] && s[0] == '['
    ensures
      var negated := Negates(s[1..], posixlyCorrect);
      var body := if negated then s[2..] else s[1..];
      Parse(s, posixlyCorrect) ==
        if HasClass(Left(body, true)) then WithClass
        else if Close(body) == -1 then Malformed
        else Then(Bracket(negated, Items(Left(body, true))), Parse(body[Close(body) + 1..], posixlyCorrect))
  {
    hide HasClass, Items, Close;
  }

  lemma CloseInside(body: seq<Ascii>)
    ensures Close(body) == -1 || 0 < Close(body) < |body|
  {
  }

  /** What a pattern means that begins with a bracket, just before position `p`. */
  lemma BracketParse(pattern: seq<Ascii>, p: nat, posixlyCorrect: bool)
    requires 0 < p <= |pattern| && pattern[p - 1] == '['
    ensures
      var pat, negated := pattern[p - 1..], Negates(pattern[p..], posixlyCorrect);
      var start := BodyStart(pattern, p, posixlyCorrect);
      && start <= |pattern|
      && Parse(pat, posixlyCorrect) ==
         var body := pattern[start..];
         if HasClass(Left(body, true)) then WithClass
         else if Close(body) == -1 then Malformed
         else Then(Bracket(negated, Items(Left(body, true))), Parse(pattern[start + Close(body) + 1..], posixlyCorrect))
  {
    hide HasClass, Items, Close, Parse;
    var pat := pattern[p - 1..];
    ParseBracket(pat, posixlyCorrect);
    assert pat[1..] == pattern[p..];
    var start := BodyStart(pattern, p, posixlyCorrect);
    var body := pattern[start..];
    assert Negates(pattern[p..], posixlyCorrect) ==> pat[2..] == body;
    if Close(body) != -1 {
      CloseInside(body);
      assert body[Close(body) + 1..] == pattern[start + Close(body) + 1..];
    }
  }

  lemma NeverTakes(pattern: seq<Ascii>, s: seq<Ascii>, posixlyCorrect: bool)
    requires Parse(pattern, posixlyCorrect).Malformed?
    ensures !Takes(pattern, s, posixlyCorrect)
  {
  }

  lemma BracketTakes(pattern: seq<Ascii>, i: nat, r: nat, negated: bool, body: seq<Ascii>, s: seq<Ascii>,
                     posixlyCorrect: bool)
    requires i < r <= |pattern| && s != []
    requires Parse(pattern[i..], posixlyCorrect)
             == Then(Bracket(negated, Items(Left(body, true))), Parse(pattern[r..], posixlyCorrect))
    ensures
      Takes(pattern[i..], s, posixlyCorrect) <==>
        Within(Items(Left(body, true)), s[0]) != negated && Takes(pattern[r..], s[1..], posixlyCorrect)
    ensures InModel(pattern[i..], posixlyCorrect) <==> InModel(pattern[r..], posixlyCorrect)
  {
    hide Parse, Takes, Items;
    assert pattern[i..][r - i..] == pattern[r..];
    TakesOne(Bracket(negated, Items(Left(body, true))), pattern[i..], r - i, s, posixlyCorrect);
  }

  /** A whole bracket against the first character of `s`: where the pattern goes on, or -1. */
  method MatchBracket(pattern: seq<Ascii>, p0: nat, fn: Ascii, posixlyCorrect: bool, ghost s: seq<Ascii>)
    returns (r: int)
    requires 0 < p0 <= |pattern| && pattern[p0 - 1] == '[' && InModel(pattern[p0 - 1..], posixlyCorrect)
    requires s != [] && s[0] == fn
    ensures r == -1 ==> !Takes(pattern[p0 - 1..], s, posixlyCorrect)
    ensures
      r != -1 ==>
        && p0 < r <= |pattern| && InModel(pattern[r..], posixlyCorrect)
        && (Takes(pattern[p0 - 1..], s, posixlyCorrect) <==> Takes(pattern[r..], s[1..], posixlyCorrect))
  {
    hide HasClass, Items, Close, Takes, FindClose, Within, Left, Parse;
    BracketParse(pattern, p0, posixlyCorrect);
    var negated := At(pattern, p0) == '!' || (!posixlyCorrect && At(pattern, p0) == '^');
    var p := if negated then p0 + 1 else p0;
    ghost var body := pattern[p..];
    CloseInside(body);
    var scan := ScanItems(pattern, p, fn);
    match scan
    case Bad =>
      NeverTakes(pattern[p0 - 1..], s, posixlyCorrect);
      r := -1;
    case Miss(q) =>
      BracketTakes(pattern, p0 - 1, q, negated, body, s, posixlyCorrect);
      r := if negated then q else -1;
    case Hit(q) =>
      assert body[q - p..] == pattern[q..];
      r := SkipRest(pattern, q);
      if r == -1 {
        NeverTakes(pattern[p0 - 1..], s, posixlyCorrect);
      } else {
        BracketTakes(pattern, p0 - 1, r, negated, body, s, posixlyCorrect);
        if negated {
          r := -1;
        }
      }
  }

  // -------------------------------------------------------------------- the pattern as a whole

  /** Whether the first character of the string, if any, is what a plain or quoted one asks for. */
  lemma StepLiteral(pattern: seq<Ascii>, s: seq<Ascii>, posixlyCorrect: bool)
    requires pattern != [] && pattern[0] !in ['?', '*', '[']
    ensures UnitLength(pattern) > |pattern| ==> !Takes(pattern, s, posixlyCorrect)
    ensures
      UnitLength(pattern) <= |pattern| ==>
        var rest := pattern[UnitLength(pattern)..];
        && (Takes(pattern, s, posixlyCorrect)
            <==> s != [] && s[0] == UnitChar(pattern) && Takes(rest, s[1..], posixlyCorrect))
        && (InModel(pattern, posixlyCorrect) <==> InModel(rest, posixlyCorrect))
  {
    if UnitLength(pattern) <= |pattern| {
      TakesOne(Lit(UnitChar(pattern)), pattern, UnitLength(pattern), s, posixlyCorrect);
    }
  }

  lemma EndNext(pattern: seq<Ascii>, s: seq<Ascii>, posixlyCorrect: bool)
    ensures TakesEnd(pattern, s, posixlyCorrect) <==>
        Takes(pattern, s, posixlyCorrect) || (s != [] && TakesEnd(pattern, s[1..], posixlyCorrect))
  {
    assert s[0..] == s;
    if s != [] && TakesEnd(pattern, s[1..], posixlyCorrect) {
      var k :| 0 <= k <= |s[1..]| && Takes(pattern, s[1..][k..], posixlyCorrect);
      assert s[1..][k..] == s[k + 1..];
    }
    if TakesEnd(pattern, s, posixlyCorrect) && !Takes(pattern, s, posixlyCorrect) {
      var k :| 0 <= k <= |s| && Takes(pattern, s[k..], posixlyCorrect);
      assert s[1..][k - 1..] == s[k..];
    }
  }

  lemma Drop1(s: seq<Ascii>, i: nat)
    requires i < |s|
    ensures s[i..] != [] && s[i..][0] == s[i] && s[i..][1..] == s[i + 1..]
    ensures i + 2 <= |s| ==> s[i..][2..] == s[i + 2..]
  {
  }

  lemma NoPattern(pattern: seq<Ascii>, s: seq<Ascii>, posixlyCorrect: bool)
    requires pattern == []
    ensures Takes(pattern, s, posixlyCorrect) <==> s == []
    ensures TakesEnd(pattern, s, posixlyCorrect)
  {
    assert s[|s|..] == [];
  }

  /** The matcher, from positions `p0` and `n0` on. */
  method Fct(pattern: seq<Ascii>, p0: nat, str: seq<Ascii>, n0: nat, posixlyCorrect: bool) returns (r: int)
    requires p0 <= |pattern| && n0 <= |str| && InModel(pattern[p0..], posixlyCorrect)
    ensures r == 0 || r == NOMATCH
    ensures r == 0 <==> Takes(pattern[p0..], str[n0..], posixlyCorrect)
    decreases |pattern| - p0, 0
  {
    hide Takes, TakesEnd, InModel;
    var p: nat, n: nat := p0, n0;
    while At(pattern, p) != '\0'
      invariant p0 <= p <= |pattern| && n <= |str| && InModel(pattern[p..], posixlyCorrect)
      invariant Takes(pattern[p..], str[n..], posixlyCorrect) <==> Takes(pattern[p0..], str[n0..], posixlyCorrect)
      decreases |pattern| - p
    {
      ghost var pat, s := pattern[p..], str[n..];
      Drop1(pattern, p);
      var c := At(pattern, p);
      p := p + 1;
      match c {
        case '?' =>
          TakesOne(AnyChar, pat, 1, s, posixlyCorrect);
          if n == |str| {
            return NOMATCH;
          }
        case '*' =>
          TakesStar(pat, s, posixlyCorrect);
          r := FctStar(pattern, p, str, n, posixlyCorrect);
          return;
        case '[' =>
          if n == |str| {
            NothingLeft(pat, posixlyCorrect);
            return NOMATCH;
          }
          var q := MatchBracket(pattern, p, str[n], posixlyCorrect, s);
          if q == -1 {
            return NOMATCH;
          }
          p := q;
        case _ =>
          StepLiteral(pat, s, posixlyCorrect);
          if c == '\\' {
            c := At(pattern, p);
            p := p + 1;
            if c == '\0' {
              return NOMATCH;
            }
          }
          if n == |str| || str[n] != c {
            return NOMATCH;
          }
      }
      assert s[1..] == str[n + 1..];
      n := n + 1;
    }
    r := if n == |str| then 0 else NOMATCH;
    NoPattern(pattern[p..], str[n..], posixlyCorrect);
  }

  /** The matcher from just after a star. */
  method FctStar(pattern: seq<Ascii>, p0: nat, str: seq<Ascii>, n0: nat, posixlyCorrect: bool) returns (r: int)
    requires p0 <= |pattern| && n0 <= |str| && InModel(pattern[p0..], posixlyCorrect)
    ensures r == 0 || r == NOMATCH
    ensures r == 0 <==> TakesEnd(pattern[p0..], str[n0..], posixlyCorrect)
    decreases |pattern| - p0, 1
  {
    hide Takes, TakesEnd, InModel;
    var c, p: nat, n: nat := At(pattern, p0), p0 + 1, n0;
    while c == '?' || c == '*'
      invariant p0 < p <= |pattern| + 1 && n <= |str| && c == At(pattern, p - 1)
          && InModel(pattern[p - 1..], posixlyCorrect)
      invariant TakesEnd(pattern[p - 1..], str[n..], posixlyCorrect)
          <==> TakesEnd(pattern[p0..], str[n0..], posixlyCorrect)
      decreases |pattern| + 1 - p
    {
      Drop1(pattern, p - 1);
      if c == '?' {
        EndQuestion(pattern[p - 1..], str[n..], posixlyCorrect);
        if n == |str| {
          return NOMATCH;
        }
        Drop1(str, n);
        n := n + 1;
      } else {
        EndStar(pattern[p - 1..], str[n..], posixlyCorrect);
      }
      c := At(pattern, p);
      p := p + 1;
    }
    if c == '\0' {
      NoPattern(pattern[p - 1..], str[n..], posixlyCorrect);
      return 0;
    }
    var filtered := c != '[';
    if c == '\\' {
      c := At(pattern, p);
    }
    p := p - 1;
    ghost var pat := pattern[p..];
    while n < |str|
      invariant n <= |str|
      invariant TakesEnd(pat, str[n..], posixlyCorrect) <==> TakesEnd(pattern[p0..], str[n0..], posixlyCorrect)
    {
      EndNext(pat, str[n..], posixlyCorrect);
      Drop1(str, n);
      if !filtered || str[n] == c {
        r := Fct(pattern, p, str, n, posixlyCorrect);
        if r == 0 {
          return;
        }
      } else {
        StepLiteral(pat, str[n..], posixlyCorrect);
      }
      n := n + 1;
    }
    EndNext(pat, str[n..], posixlyCorrect);
    NothingLeft(pat, posixlyCorrect);
    r := NOMATCH;
  }

  /**
   fnmatch with no flags: zero exactly for the strings of the pattern's language, so a
   malformed pattern, one with an unterminated bracket or a backslash at the end, matches
   nothing. `posixlyCorrect` says whether the environment has POSIXLY_CORRECT.
   */
  method Fnmatch(pattern: seq<Ascii>, str: seq<Ascii>, posixlyCorrect: bool) returns (r: int)
    requires InModel(pattern, posixlyCorrect)
    ensures r == 0 || r == NOMATCH
    ensures r == 0 <==> Accepts(pattern, str, posixlyCorrect)
  {
    assert pattern[0..] == pattern && str[0..] == str;
    r := Fct(pattern, 0, str, 0, posixlyCorrect);
    var parsed := Parse(pattern, posixlyCorrect);
    if parsed.Pattern? {
      LanguageIsMatches(parsed.elems, str);
    }
  }
}
