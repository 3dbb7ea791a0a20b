/**
 The pattern language of section 2.13 of POSIX.1-2017 XCU, without bracket classes: what a
 pattern denotes, independently of how src/fnmatch_loop.c goes about matching it.
 */
module Glob {
  import opened Bytes

  /** A character of a C string of ASCII text. */
  type Ascii = c: char | '\0' < c < '\U{0080}' witness 'a'

  /** An item of a bracket: a character is the range from itself to itself. */
  datatype Range = Range(lo: Ascii, hi: Ascii)

  datatype Elem = Lit(c: Ascii) | AnyChar | Star | Bracket(negated: bool, items: seq<Range>)

  /** A malformed pattern denotes no string; one with a class in a bracket is outside the model. */
  datatype Parsed = Pattern(elems: seq<Elem>) | Malformed | WithClass

  // -------------------------------------------------------------------- what a pattern denotes

  predicate Within(items: seq<Range>, c: char) {
    exists i :: 0 <= i < |items| && items[i].lo <= c <= items[i].hi
  }

  /** The piece of the string that one element of the pattern stands for. */
  predicate PieceOk(e: Elem, piece: seq<Ascii>) {
    match e
    case Lit(c) => piece == [c]
    case AnyChar => |piece| == 1
    case Star => true
    case Bracket(negated, items) => |piece| == 1 && Within(items, piece[0]) != negated
  }

  ghost predicate Divides(elems: seq<Elem>, pieces: seq<seq<Ascii>>) {
    |pieces| == |elems| && forall i :: 0 <= i < |elems| ==> PieceOk(elems[i], pieces[i])
  }

  /** The string is a succession of pieces, one for each element. */
  ghost predicate InLanguage(elems: seq<Elem>, s: seq<Ascii>) {
    exists pieces :: Divides(elems, pieces) && Flatten(pieces) == s
  }

  /** The same, element by element. */
  ghost predicate Matches(elems: seq<Elem>, s: seq<Ascii>)
    decreases |elems|
  {
    if elems == [] then s == []
    else if elems[0].Star? then exists k :: 0 <= k <= |s| && Matches(elems[1..], s[k..])
    else s != [] && PieceOk(elems[0], s[..1]) && Matches(elems[1..], s[1..])
  }

  lemma {:induction false} LanguageMatches(elems: seq<Elem>, pieces: seq<seq<Ascii>>)
    requires Divides(elems, pieces)
    ensures Matches(elems, Flatten(pieces))
    decreases |elems|
  {
    if elems != [] {
      LanguageMatches(elems[1..], pieces[1..]);
      var s, k := Flatten(pieces), |pieces[0]|;
      assert s[k..] == Flatten(pieces[1..]) && s[..k] == pieces[0];
    }
  }

  lemma {:induction false} MatchesLanguage(elems: seq<Elem>, s: seq<Ascii>) returns (pieces: seq<seq<Ascii>>)
    requires Matches(elems, s)
    ensures Divides(elems, pieces) && Flatten(pieces) == s
    decreases |elems|
  {
    if elems == [] {
      pieces := [];
    } else {
      var k := 1;
      if elems[0].Star? {
        k :| 0 <= k <= |s| && Matches(elems[1..], s[k..]);
      }
      var rest := MatchesLanguage(elems[1..], s[k..]);
      pieces := [s[..k]] + rest;
      assert pieces[1..] == rest && s == s[..k] + s[k..];
    }
  }

  lemma LanguageIsMatches(elems: seq<Elem>, s: seq<Ascii>)
    ensures InLanguage(elems, s) <==> Matches(elems, s)
  {
    if InLanguage(elems, s) {
      var pieces :| Divides(elems, pieces) && Flatten(pieces) == s;
      LanguageMatches(elems, pieces);
    }
    if Matches(elems, s) {
      var pieces := MatchesLanguage(elems, s);
    }
  }

  // -------------------------------------------------------------------- how a pattern is written

  /** A character, or a backslash and the character it quotes. */
  function UnitLength(s: seq<Ascii>): nat
    requires s != []
  {
    if s[0] == '\\' then 2 else 1
  }

  function UnitChar(s: seq<Ascii>): Ascii
    requires s != [] && UnitLength(s) <= |s|
  {
    s[UnitLength(s) - 1]
  }

  /** Where the first unquoted closing bracket is. */
  function FindClose(s: seq<Ascii>): (r: int)
    ensures r == -1 || (0 <= r < |s| && s[r] == ']')
  {
    if s == [] then -1
    else if s[0] == ']' then 0
    else if UnitLength(s) > |s| then -1
    else
      var n := FindClose(s[UnitLength(s)..]);
      if n == -1 then -1 else n + UnitLength(s)
  }

  /** The closing bracket of a bracket that has just begun, which its first character never is. */
  function Close(s: seq<Ascii>): (r: int)
    ensures r == -1 || (0 < r < |s| && s[r] == ']')
  {
    if s == [] || UnitLength(s) > |s| then -1
    else
      var n := FindClose(s[UnitLength(s)..]);
      if n == -1 then -1 else n + UnitLength(s)
  }

  /** The items between the brackets; a minus sign at the end stands for itself. */
  function Items(s: seq<Ascii>): seq<Range> {
    if s == [] || UnitLength(s) > |s| then []
    else
      var lo, rest := UnitChar(s), s[UnitLength(s)..];
      if |rest| >= 2 && rest[0] == '-' then
        if UnitLength(rest[1..]) > |rest| - 1 then []
        else [Range(lo, UnitChar(rest[1..]))] + Items(rest[1 + UnitLength(rest[1..])..])
      else [Range(lo, lo)] + Items(rest)
  }

  /** An unquoted opening bracket before one of `:`, `=` and `.`. */
  predicate HasClass(s: seq<Ascii>) {
    if s == [] || UnitLength(s) > |s| then false
    else (|s| > 1 && s[0] == '[' && s[1] in [':', '=', '.']) || HasClass(s[UnitLength(s)..])
  }

  predicate Negates(s: seq<Ascii>, posixlyCorrect: bool) {
    s != [] && (s[0] == '!' || (!posixlyCorrect && s[0] == '^'))
  }

  function Then(e: Elem, rest: Parsed): Parsed {
    match rest
    case Pattern(elems) => Pattern([e] + elems)
    case _ => rest
  }

  function Parse(s: seq<Ascii>, posixlyCorrect: bool): Parsed
    decreases |s|
  {
    if s == [] then Pattern([])
    else match s[0]
      case '?' => Then(AnyChar, Parse(s[1..], posixlyCorrect))
      case '*' => Then(Star, Parse(s[1..], posixlyCorrect))
      case '\\' => if |s| == 1 then Malformed else Then(Lit(s[1]), Parse(s[2..], posixlyCorrect))
      case '[' =>
        var negated := Negates(s[1..], posixlyCorrect);
        var body := if negated then s[2..] else s[1..];
        var n := Close(body);
        if HasClass(if n == -1 then body else body[..n]) then WithClass
        else if n == -1 then Malformed
        else Then(Bracket(negated, Items(body[..n])), Parse(body[n + 1..], posixlyCorrect))
      case c => Then(Lit(c), Parse(s[1..], posixlyCorrect))
  }

  /** The pattern denotes a language that has the string. */
  ghost predicate Accepts(pattern: seq<Ascii>, s: seq<Ascii>, posixlyCorrect: bool) {
    var parsed := Parse(pattern, posixlyCorrect);
    parsed.Pattern? && InLanguage(parsed.elems, s)
  }
}
