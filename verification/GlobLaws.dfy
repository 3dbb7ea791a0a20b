/**
 What patterns denote, law by law, in the characters of which they are written (section 2.13
 of POSIX.1-2017 XCU), and what that makes of mount names.
 */
module GlobLaws {
  import opened Glob
  import opened FnMatch

  lemma AcceptsTakes(pattern: seq<Ascii>, s: seq<Ascii>, posixlyCorrect: bool)
    ensures Accepts(pattern, s, posixlyCorrect) <==> Takes(pattern, s, posixlyCorrect)
  {
    var parsed := Parse(pattern, posixlyCorrect);
    if parsed.Pattern? {
      LanguageIsMatches(parsed.elems, s);
    }
  }

  /** One element, written with `n` characters: it takes one character of the string, and the rest takes the rest. */
  lemma AcceptsOne(e: Elem, pattern: seq<Ascii>, n: nat, s: seq<Ascii>, posixlyCorrect: bool)
    requires n <= |pattern| && !e.Star?
    requires Parse(pattern, posixlyCorrect) == Then(e, Parse(pattern[n..], posixlyCorrect))
    ensures
      Accepts(pattern, s, posixlyCorrect)
      <==> s != [] && PieceOk(e, [s[0]]) && Accepts(pattern[n..], s[1..], posixlyCorrect)
  {
    hide Accepts, Takes, Parse;
    TakesOne(e, pattern, n, s, posixlyCorrect);
    AcceptsTakes(pattern, s, posixlyCorrect);
    if s != [] {
      AcceptsTakes(pattern[n..], s[1..], posixlyCorrect);
    }
  }

  lemma EmptyPattern(s: seq<Ascii>, posixlyCorrect: bool)
    ensures Accepts([], s, posixlyCorrect) <==> s == []
  {
    AcceptsTakes([], s, posixlyCorrect);
  }

  lemma QuestionMark(p: seq<Ascii>, s: seq<Ascii>, posixlyCorrect: bool)
    ensures Accepts(['?'] + p, s, posixlyCorrect) <==> s != [] && Accepts(p, s[1..], posixlyCorrect)
  {
    assert (['?'] + p)[1..] == p;
    AcceptsOne(AnyChar, ['?'] + p, 1, s, posixlyCorrect);
  }

  lemma Asterisk(p: seq<Ascii>, s: seq<Ascii>, posixlyCorrect: bool)
    ensures
      Accepts(['*'] + p, s, posixlyCorrect) <==> exists k :: 0 <= k <= |s| && Accepts(p, s[k..], posixlyCorrect)
  {
    hide Accepts, Takes;
    assert (['*'] + p)[1..] == p;
    TakesStar(['*'] + p, s, posixlyCorrect);
    AcceptsTakes(['*'] + p, s, posixlyCorrect);
    forall k | 0 <= k <= |s|
      ensures Accepts(p, s[k..], posixlyCorrect) <==> Takes(p, s[k..], posixlyCorrect)
    {
      AcceptsTakes(p, s[k..], posixlyCorrect);
    }
    if Takes(['*'] + p, s, posixlyCorrect) {
      var k :| 0 <= k <= |s| && Takes(p, s[k..], posixlyCorrect);
      assert Accepts(p, s[k..], posixlyCorrect);
    }
  }

  /** A character after a backslash, and any other that is not special, stands for itself. */
  lemma Character(c: Ascii, p: seq<Ascii>, s: seq<Ascii>, posixlyCorrect: bool)
    ensures
      Accepts(['\\', c] + p, s, posixlyCorrect) <==> s != [] && s[0] == c && Accepts(p, s[1..], posixlyCorrect)
    ensures
      c !in ['?', '*', '[', '\\'] ==>
        (Accepts([c] + p, s, posixlyCorrect) <==> s != [] && s[0] == c && Accepts(p, s[1..], posixlyCorrect))
  {
    assert (['\\', c] + p)[2..] == p && ([c] + p)[1..] == p;
    AcceptsOne(Lit(c), ['\\', c] + p, 2, s, posixlyCorrect);
    if c !in ['?', '*', '[', '\\'] {
      AcceptsOne(Lit(c), [c] + p, 1, s, posixlyCorrect);
    }
  }

  /** A character that means nothing in a bracket. */
  predicate Ordinary(c: Ascii) {
    c !in ['\\', '[', ']', '-', '!', '^', ':', '=', '.']
  }

  lemma ParseBracket(s: seq<Ascii>, negated: bool, body: seq<Ascii>, posixlyCorrect: bool)
    requires s != [] && s[0] == '[' && Negates(s[1..], posixlyCorrect) == negated
    requires |s| >= 2 && body == (if negated then s[2..] else s[1..])
    requires Close(body) >= 0 && !HasClass(body[..Close(body)])
    ensures
      Parse(s, posixlyCorrect)
      == Then(Bracket(negated, Items(body[..Close(body)])), Parse(body[Close(body) + 1..], posixlyCorrect))
  {
    hide Close, HasClass, Items, Negates, Then;
  }

  /** How a bracket begins, negated by ! or (unless POSIXLY_CORRECT) by ^, or not negated. */
  predicate Opens(open: seq<Ascii>, posixlyCorrect: bool) {
    open == ['['] || open == ['[', '!'] || (open == ['[', '^'] && !posixlyCorrect)
  }

  lemma BracketParts(open: seq<Ascii>, body: seq<Ascii>, p: seq<Ascii>, posixlyCorrect: bool)
    requires Opens(open, posixlyCorrect) && body != [] && !Negates(body, posixlyCorrect)
    ensures
      var whole, rest := open + body + [']'] + p, body + [']'] + p;
      && |whole| >= 3 && whole[0] == '[' && Negates(whole[1..], posixlyCorrect) == (open != ['['])
      && rest == (if open != ['['] then whole[2..] else whole[1..])
      && rest[..|body|] == body && rest[|body| + 1..] == p && whole[|open| + |body| + 1..] == p
  {
    var whole, rest := open + body + [']'] + p, body + [']'] + p;
    assert whole == open + rest;
    assert whole[1..] == open[1..] + rest;
  }

  /** A bracket whose inside is `body`. */
  lemma BracketIs(open: seq<Ascii>, body: seq<Ascii>, p: seq<Ascii>, s: seq<Ascii>, posixlyCorrect: bool)
    requires Opens(open, posixlyCorrect) && body != [] && !Negates(body, posixlyCorrect)
    requires Close(body + [']'] + p) == |body| && !HasClass(body)
    ensures
      Accepts(open + body + [']'] + p, s, posixlyCorrect)
      <==> s != [] && (Within(Items(body), s[0]) <==> open == ['[']) && Accepts(p, s[1..], posixlyCorrect)
  {
    BracketParts(open, body, p, posixlyCorrect);
    hide Accepts, Close, HasClass, Within, Items, Negates, Parse, Opens;
    var whole: seq<Ascii>, rest: seq<Ascii> := open + body + [']'] + p, body + [']'] + p;
    var n, e := |open| + |body| + 1, Bracket(open != ['['], Items(body));
    ParseBracket(whole, e.negated, rest, posixlyCorrect);
    assert Parse(whole, posixlyCorrect) == Then(e, Parse(whole[n..], posixlyCorrect));
    AcceptsOne(e, whole, n, s, posixlyCorrect);
  }

  lemma InsideRange(lo: Ascii, hi: Ascii, p: seq<Ascii>)
    requires Ordinary(lo) && Ordinary(hi)
    ensures Close([lo, '-', hi] + [']'] + p) == 3
    ensures !HasClass([lo, '-', hi]) && Items([lo, '-', hi]) == [Range(lo, hi)]
  {
    var s, end := [lo, '-', hi] + [']'] + p, [']'] + p;
    assert FindClose(end) == 0;
    assert [hi] + end == s[2..] && ([hi] + end)[1..] == end && FindClose([hi] + end) == 1;
    assert s[1..][1..] == [hi] + end && FindClose(s[1..]) == 2;
    var b := [lo, '-', hi];
    assert b[1..] == ['-', hi] && b[1..][1..] == [hi] && b[1..][2..] == [] && [hi][1..] == [];
    assert HasClass([hi]) == HasClass([]) && HasClass(['-', hi]) == HasClass([hi]);
    assert Items([]) == [];
  }

  lemma WithinRange(lo: Ascii, hi: Ascii, c: Ascii)
    ensures Within([Range(lo, hi)], c) <==> lo <= c <= hi
  {
    assert [Range(lo, hi)][0] == Range(lo, hi);
  }

  /** A range takes its ends and what is between; negated, all the others. */
  lemma RangeOfCharacters(open: seq<Ascii>, lo: Ascii, hi: Ascii, p: seq<Ascii>, s: seq<Ascii>, posixlyCorrect: bool)
    requires Opens(open, posixlyCorrect) && Ordinary(lo) && Ordinary(hi)
    ensures
      Accepts(open + [lo, '-', hi, ']'] + p, s, posixlyCorrect)
      <==> s != [] && (lo <= s[0] <= hi <==> open == ['[']) && Accepts(p, s[1..], posixlyCorrect)
  {
    var body := [lo, '-', hi];
    assert !Negates(body, posixlyCorrect);
    hide Accepts, Close, HasClass, Items, Negates, Ordinary, Within, Opens;
    InsideRange(lo, hi, p);
    assert open + body + [']'] + p == open + [lo, '-', hi, ']'] + p;
    BracketIs(open, body, p, s, posixlyCorrect);
    if s != [] {
      WithinRange(lo, hi, s[0]);
    }
  }

  lemma InsidePair(c: Ascii, d: Ascii, p: seq<Ascii>)
    requires (Ordinary(c) || c == ']') && (Ordinary(d) || d == '-')
    ensures
      && Close([c, d] + [']'] + p) == 2 && !HasClass([c, d]) && Items([c, d]) == [Range(c, c), Range(d, d)]
  {
    var s := [c, d] + [']'] + p;
    assert s[1..][1..] == [']'] + p && s[1..] == [d, ']'] + p;
    assert FindClose([']'] + p) == 0 && FindClose(s[1..]) == 1;
    var b := [c, d];
    assert b[1..] == [d] && b[1..][1..] == [];
    assert !HasClass([d]) && Items([]) == [] && Items([d]) == [Range(d, d)];
  }

  lemma WithinPair(c: Ascii, d: Ascii, e: Ascii)
    ensures Within([Range(c, c), Range(d, d)], e) <==> e in [c, d]
  {
    var items := [Range(c, c), Range(d, d)];
    assert items[0] == Range(c, c) && items[1] == Range(d, d);
  }

  /** A list takes each of its characters; a closing bracket may be the first, and a minus sign the last. */
  lemma ListOfCharacters(open: seq<Ascii>, c: Ascii, d: Ascii, p: seq<Ascii>, s: seq<Ascii>, posixlyCorrect: bool)
    requires Opens(open, posixlyCorrect) && (Ordinary(c) || c == ']') && (Ordinary(d) || d == '-')
    ensures
      Accepts(open + [c, d, ']'] + p, s, posixlyCorrect)
      <==> s != [] && (s[0] in [c, d] <==> open == ['[']) && Accepts(p, s[1..], posixlyCorrect)
  {
    var body := [c, d];
    assert !Negates(body, posixlyCorrect);
    hide Accepts, Close, HasClass, Items, Negates, Ordinary, Within, Opens;
    InsidePair(c, d, p);
    assert open + body + [']'] + p == open + [c, d, ']'] + p;
    BracketIs(open, body, p, s, posixlyCorrect);
    if s != [] {
      WithinPair(c, d, s[0]);
    }
  }

  lemma {:induction false} NoClose(s: seq<Ascii>)
    requires ']' !in s
    ensures FindClose(s) == -1 && Close(s) == -1
    decreases |s|
  {
    if s != [] && UnitLength(s) <= |s| {
      NoClose(s[UnitLength(s)..]);
    }
  }

  /** A bracket that is not closed, and a backslash at the end, are in no pattern: nothing is accepted. */
  lemma NotAPattern(pattern: seq<Ascii>, s: seq<Ascii>, posixlyCorrect: bool)
    requires pattern == ['\\'] || (pattern != [] && pattern[0] == '[' && ']' !in pattern)
    ensures !Accepts(pattern, s, posixlyCorrect)
  {
    if pattern[0] == '[' {
      var body := if Negates(pattern[1..], posixlyCorrect) then pattern[2..] else pattern[1..];
      NoClose(body);
    }
  }

  /** A name without special characters denotes itself, and nothing else. */
  lemma {:induction false} PlainDenotesItself(name: seq<Ascii>, s: seq<Ascii>, posixlyCorrect: bool)
    requires forall c :: c in name ==> c !in ['?', '*', '[', '\\']
    ensures Accepts(name, s, posixlyCorrect) <==> s == name
    decreases |name|
  {
    hide Accepts;
    if name == [] {
      EmptyPattern(s, posixlyCorrect);
    } else {
      assert [name[0]] + name[1..] == name;
      Character(name[0], name[1..], s, posixlyCorrect);
      if s != [] {
        PlainDenotesItself(name[1..], s[1..], posixlyCorrect);
        assert [s[0]] + s[1..] == s;
      }
    }
  }

  /** With a backslash in it, it denotes at most something shorter. */
  lemma {:induction false} QuotedDenotesLess(name: seq<Ascii>, s: seq<Ascii>, posixlyCorrect: bool)
    requires forall c :: c in name ==> c !in ['?', '*', '[']
    requires Accepts(name, s, posixlyCorrect)
    ensures |s| <= |name| - if '\\' in name then 1 else 0
    decreases |name|
  {
    hide Accepts;
    if name == [] {
      EmptyPattern(s, posixlyCorrect);
    } else if name[0] != '\\' {
      assert [name[0]] + name[1..] == name;
      Character(name[0], name[1..], s, posixlyCorrect);
      QuotedDenotesLess(name[1..], s[1..], posixlyCorrect);
    } else if |name| == 1 {
      NotAPattern(name, s, posixlyCorrect);
    } else {
      assert ['\\', name[1]] + name[2..] == name;
      Character(name[1], name[2..], s, posixlyCorrect);
      QuotedDenotesLess(name[2..], s[1..], posixlyCorrect);
    }
  }
}
