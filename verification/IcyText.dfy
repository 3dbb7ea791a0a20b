/**
 The text of an inline metadata block: how metadata_setup prints it and how
 parse_icy_metadata takes it apart (src/format_mp3.c).
 */
module IcyText {
  import opened Bytes
  import opened IcyStream
  import opened Wrappers

  /** A C string. */
  type CString = s: seq<Byte> | 0 !in s

  function Title(): (r: CString)
    ensures |r| == 13
  {
    Text("StreamTitle='")
  }

  function Url(): (r: CString)
    ensures |r| == 11
  {
    Text("StreamUrl='")
  }

  function End(): (r: CString)
    ensures |r| == 2
  {
    Text("';")
  }

  function Dash(): (r: CString)
    ensures |r| == 3
  {
    Text(" - ")
  }

  const MAX_META_LEN: nat := 255 * 16

  /** The strings of mp3_state. */
  datatype Tags = Tags(
    artist: Option<CString>,     // url_artist
    title: Option<CString>,      // url_title
    url: Option<CString>,
    inlineUrl: Option<CString>,
    extra: Option<CString>)      // extra_icy_meta

  // -------------------------------------------------------------------- the text of a block

  function OrEmpty(s: Option<CString>): CString {
    match s case None => [] case Some(t) => t
  }

  function Length(s: Option<CString>): nat {
    |OrEmpty(s)|
  }

  /** What is shown as the title. */
  function Shown(t: Tags): CString {
    if t.artist != None && t.title != None then t.artist.value + Dash() + t.title.value else OrEmpty(t.title)
  }

  function LinkedUrl(t: Tags): Option<CString> {
    if t.inlineUrl != None then t.inlineUrl else t.url
  }

  function PrintedUrl(t: Tags): CString {
    match LinkedUrl(t) case None => [] case Some(u) => Url() + u + End()
  }

  function AfterTitle(t: Tags): CString {
    PrintedUrl(t) + OrEmpty(t.extra)
  }

  function Rendered(t: Tags): CString {
    Title() + Shown(t) + End() + AfterTitle(t)
  }

  /** The length that metadata_setup works out; an artist counts even when it is not shown. */
  function Needed(t: Tags): nat {
    |Title()| + 1 + 2 + Length(t.artist) + Length(t.title)
      + (if t.artist != None && t.title != None then 3 else 0)
      + (if LinkedUrl(t) != None then Length(LinkedUrl(t)) + |Url()| + 2 else 0)
      + Length(t.extra)
  }

  function LengthByte(t: Tags): nat {
    (Needed(t) - 1) / 16 + 1
  }

  function Zeros(n: nat): seq<Byte> {
    seq(n, _ => 0)
  }

  /** The text always leaves room for a NUL, so nothing of it is ever cut off. */
  lemma RenderedFits(t: Tags)
    ensures |Rendered(t)| < Needed(t) <= 16 * LengthByte(t)
    ensures Needed(t) <= MAX_META_LEN ==> 1 <= LengthByte(t) <= 255
  {
  }

  /** The block: its length in units of 16, the text, and NULs up to that length. */
  function Block(t: Tags): seq<Byte>
    requires Needed(t) <= MAX_META_LEN
  {
    RenderedFits(t);
    [LengthByte(t)] + Rendered(t) + Zeros(16 * LengthByte(t) - |Rendered(t)|)
  }

  lemma BlockIsWellFormed(t: Tags)
    requires Needed(t) <= MAX_META_LEN
    ensures BlockOk(Block(t)) && |Block(t)| == 16 * LengthByte(t) + 1 && 1 <= LengthByte(t) <= 255
    ensures Closed(Block(t)) == Block(t)
  {
    RenderedFits(t);
  }

  /** The text of a block: the artist before the title, then the link, then the rest. */
  lemma RenderedIs(t: Tags)
    ensures
      var title, url, dash, end := Text("StreamTitle='"), Text("StreamUrl='"), Text(" - "), Text("';");
      var shown :=
        if t.title == None then [] else if t.artist == None then t.title.value
        else t.artist.value + dash + t.title.value;
      var link :=
        if t.inlineUrl != None then url + t.inlineUrl.value + end else if t.url != None then url + t.url.value + end
        else [];
      Rendered(t) == title + shown + end + (link + if t.extra != None then t.extra.value else [])
  {
  }

  /** What a listener reads in the block is that text, and then NULs. */
  lemma BlockShows(t: Tags)
    requires Needed(t) <= MAX_META_LEN
    ensures Rendered(t) <= Block(t)[1..] && forall i :: |Rendered(t)| < i < |Block(t)| ==> Block(t)[i] == 0
  {
    RenderedFits(t);
    hide Needed, Rendered, LengthByte;
    assert Block(t)[1..1 + |Rendered(t)|] == Rendered(t);
  }

  /** The block is as short as the text, a NUL and an artist that is not shown allow. */
  lemma BlockIsShort(t: Tags)
    requires Needed(t) <= MAX_META_LEN
    ensures
      var n := |Rendered(t)| + 1 + if t.title == None && t.artist != None then |t.artist.value| else 0;
      n == Needed(t) && 1 + n <= |Block(t)| < 1 + n + 16
  {
    RenderedFits(t);
  }

  // -------------------------------------------------------------------- printing

  /** "%s" and the like into `size` bytes at `at`: what fits, and a NUL. */
  method Snprintf(a: array<Byte>, at: nat, size: nat, text: CString) returns (r: nat)
    requires at + size <= a.Length && size > 0
    modifies a
    ensures r == |text|
    ensures
      var n := if |text| < size then |text| else size - 1;
      a[..] == old(a[..at]) + text[..n] + [0] + old(a[at + n + 1..])
    ensures |text| < size ==> a[..] == old(a[..at]) + text + [0] + old(a[at + |text| + 1..])
  {
    var n := if |text| < size then |text| else size - 1;
    forall i | 0 <= i < n {
      a[at + i] := text[i];
    }
    a[at + n] := 0;
    r := |text|;
  }

  /** strcat onto the C string at `from`. */
  method Strcat(a: array<Byte>, from: nat, ghost end: nat, text: CString)
    requires from <= end && end + |text| < a.Length
    requires a[end] == 0 && 0 !in a[from..end]
    modifies a
    ensures a[..] == old(a[..end]) + text + [0] + old(a[end + |text| + 1..])
  {
    var i := from;
    while a[i] != 0
      invariant from <= i <= end
      decreases end - i
    {
      assert a[from..end][i - from] == a[i];
      i := i + 1;
    }
    var _ := Snprintf(a, i, a.Length - i, text);
  }

  /** What the buffer holds while it is being printed: length byte, text so far, NULs. */
  ghost predicate Printed(a: seq<Byte>, t: Tags, text: seq<Byte>)
    requires Needed(t) <= MAX_META_LEN
  {
    && |text| < 16 * LengthByte(t) && 0 < LengthByte(t) < 256
    && a == [LengthByte(t)] + text + Zeros(16 * LengthByte(t) - |text|)
  }

  lemma PrintMore(before: seq<Byte>, after: seq<Byte>, t: Tags, text: seq<Byte>, s: seq<Byte>)
    requires Needed(t) <= MAX_META_LEN && Printed(before, t, text) && |text| + |s| < 16 * LengthByte(t)
    requires after == before[..1 + |text|] + s + [0] + before[1 + |text| + |s| + 1..]
    ensures Printed(after, t, text + s)
  {
  }

  method AppendUrl(a: array<Byte>, ghost t: Tags, at: nat, url: CString, ghost text: seq<Byte>) returns (r: nat)
    requires Needed(t) <= MAX_META_LEN && Printed(a[..], t, text) && at == 1 + |text|
    requires |text| + |Url()| + |url| + |End()| < 16 * LengthByte(t)
    modifies a
    ensures Printed(a[..], t, text + (Url() + url + End())) && r == 1 + |text + (Url() + url + End())|
  {
    ghost var before := a[..];
    r := Snprintf(a, at, a.Length - at, Url() + url + End());
    PrintMore(before, a[..], t, text, Url() + url + End());
    r := at + r;
  }

  method PrintUrl(a: array<Byte>, t: Tags, at: nat, size: nat, ghost text: seq<Byte>) returns (r: nat)
    requires Needed(t) <= MAX_META_LEN && Printed(a[..], t, text) && at == 1 + |text|
    requires |text| + |PrintedUrl(t)| + Length(t.extra) < 16 * LengthByte(t) && size == 1 + 16 * LengthByte(t)
    modifies a
    ensures Printed(a[..], t, text + PrintedUrl(t)) && r == 1 + |text + PrintedUrl(t)|
  {
    hide Printed, LengthByte, Title, Url, End;
    r := at;
    // the test on the size always succeeds: the URL was counted
    if t.inlineUrl != None && size - at > |t.inlineUrl.value| + 13 {
      r := AppendUrl(a, t, at, t.inlineUrl.value, text);
    } else if t.url != None {
      r := AppendUrl(a, t, at, t.url.value, text);
    } else {
      assert text + PrintedUrl(t) == text;
    }
  }

  lemma RenderedParts(t: Tags)
    ensures Title() + Shown(t) + End() + PrintedUrl(t) + OrEmpty(t.extra) == Rendered(t)
  {
    hide Title, Shown, End, PrintedUrl, OrEmpty;
  }

  lemma PartsFit(t: Tags)
    requires Needed(t) <= MAX_META_LEN
    ensures |Title() + Shown(t) + End()| + |PrintedUrl(t)| + Length(t.extra) < 16 * LengthByte(t)
    ensures |Title() + Shown(t) + End() + PrintedUrl(t)| == |Title() + Shown(t) + End()| + |PrintedUrl(t)|
    ensures |Title() + Shown(t) + End() + PrintedUrl(t) + OrEmpty(t.extra)|
         == |Title() + Shown(t) + End()| + |PrintedUrl(t)| + Length(t.extra)
  {
    RenderedFits(t);
  }

  lemma PrintedAll(a: seq<Byte>, t: Tags)
    requires Needed(t) <= MAX_META_LEN && Printed(a, t, Rendered(t))
    ensures a == Block(t)
  {
  }

  lemma PrintFirst(after: seq<Byte>, t: Tags, text: seq<Byte>, zeros: seq<Byte>)
    requires Needed(t) <= MAX_META_LEN && |text| < 16 * LengthByte(t)
    requires 0 < LengthByte(t) < 256 && zeros == Zeros(16 * LengthByte(t) + 1)
    requires after == zeros[..0] + ([LengthByte(t)] + text) + [0] + zeros[0 + |[LengthByte(t)] + text| + 1..]
    ensures Printed(after, t, text)
  {
  }

  method PrintShown(a: array<Byte>, t: Tags, size: nat) returns (r: nat)
    requires Needed(t) <= MAX_META_LEN && size == a.Length == LengthByte(t) * 16 + 1 && a[..] == Zeros(size)
    modifies a
    ensures Printed(a[..], t, Title() + Shown(t)) && r == 1 + |Title() + Shown(t)|
  {
    RenderedFits(t);
    PartsFit(t);
    hide Printed, LengthByte, Zeros, Needed, Rendered, PrintedUrl, Title, End, Url, Dash;
    var shown: CString :=
      if t.artist != None && t.title != None then t.artist.value + Dash() + t.title.value else OrEmpty(t.title);
    var text: CString := Title() + shown;
    ghost var zeros := a[..];
    r := Snprintf(a, 0, size, [LengthByte(t)] + text);
    PrintFirst(a[..], t, text, zeros);
  }

  lemma PrintedString(a: seq<Byte>, t: Tags, text: CString)
    requires Needed(t) <= MAX_META_LEN && Printed(a, t, text) && |text| >= 13
    ensures |a| == 16 * LengthByte(t) + 1 > 1 + |text| && a[1 + |text|] == 0 && 0 !in a[14..1 + |text|]
  {
    assert a[14..1 + |text|] == text[13..];
  }

  method PrintTitle(a: array<Byte>, t: Tags, size: nat) returns (r: nat)
    requires Needed(t) <= MAX_META_LEN && size == a.Length == LengthByte(t) * 16 + 1 && a[..] == Zeros(size)
    modifies a
    ensures Printed(a[..], t, Title() + Shown(t) + End()) && r == 1 + |Title() + Shown(t) + End()|
  {
    PartsFit(t);
    hide Printed, LengthByte, Zeros, Needed, Rendered, PrintedUrl, Shown;
    r := PrintShown(a, t, size);
    ghost var before, text := a[..], Title() + Shown(t);
    PrintedString(before, t, text);
    assert a[14..r] == before[14..r];
    Strcat(a, 14, r, End());
    PrintMore(before, a[..], t, text, End());
    r := r + 2;
  }

  lemma NoBytes(s: seq<Byte>)
    requires forall i :: 0 <= i < |s| ==> s[i] == 0
    ensures s == Zeros(|s|)
  {
  }

  /** The inline metadata part of metadata_setup. */
  method MetadataSetup(t: Tags) returns (icy: array?<Byte>)
    ensures icy == null <==> Needed(t) > MAX_META_LEN
    ensures icy != null ==> fresh(icy) && icy[..] == Block(t)
  {
    hide Printed, LengthByte, Shown, Title, Url, End, PrintedUrl, Needed, Rendered, Zeros, Block;
    if Needed(t) > MAX_META_LEN {
      return null;
    }
    RenderedFits(t);
    PartsFit(t);
    var size := LengthByte(t) * 16 + 1;
    var a := new Byte[size](_ => 0);
    assert a[..] == Zeros(size) by { NoBytes(a[..]); }
    ghost var text := Title() + Shown(t) + End();
    var r := PrintTitle(a, t, size);
    r := PrintUrl(a, t, r, size, text);
    text := text + PrintedUrl(t);
    if t.extra != None {
      ghost var before := a[..];
      var _ := Snprintf(a, r, size - r, t.extra.value);
      PrintMore(before, a[..], t, text, t.extra.value);
    } else {
      assert text + OrEmpty(t.extra) == text;
    }
    RenderedParts(t);
    PrintedAll(a[..], t);
    icy := a;
  }

  // -------------------------------------------------------------------- taking a block apart

  /** strstr: where `p` first occurs in `s`. */
  function Find(s: seq<Byte>, p: seq<Byte>): (r: Option<nat>)
    ensures r != None ==> r.value + |p| <= |s| && s[r.value..r.value + |p|] == p
  {
    if p <= s then Some(0)
    else if s == [] then None
    else
      match Find(s[1..], p)
      case None => None
      case Some(i) => Some(i + 1)
  }

  /** The string up to its first NUL. */
  function ToNul(s: seq<Byte>): CString {
    if s == [] || s[0] == 0 then [] else [s[0]] + ToNul(s[1..])
  }

  /** The field a text begins with: what is before its terminator, without the field's name. */
  datatype Field = TitleField(n: nat) | UrlField(n: nat) | OtherField(n: nat) | Unfinished

  function NextField(s: CString): (r: Field)
    ensures r.TitleField? ==> 13 + r.n + 2 <= |s|
    ensures r.UrlField? ==> 11 + r.n + 2 <= |s|
    ensures r.OtherField? ==> r.n + 2 <= |s|
  {
    if Title() <= s then match Find(s[13..], End()) case None => Unfinished case Some(n) => TitleField(n)
    else if Url() <= s then match Find(s[11..], End()) case None => Unfinished case Some(n) => UrlField(n)
    else match Find(s, End()) case None => Unfinished case Some(n) => OtherField(n)
  }

  /**
   The loop of parse_icy_metadata over what is left of the block: a title replaces title and
   artist, a URL replaces the URL, and any other field is collected.
   */
  function ParseFields(s: CString, t: Tags, extra: CString): (Tags, CString)
    decreases |s|
  {
    match NextField(s)
    case TitleField(n) => ParseFields(s[13 + n + 2..], t.(title := Some(s[13..13 + n]), artist := None), extra)
    case UrlField(n) => ParseFields(s[11 + n + 2..], t.(inlineUrl := Some(s[11..11 + n])), extra)
    case OtherField(n) => ParseFields(s[n + 2..], t, extra + s[..n + 2])
    case Unfinished => (t, extra)
  }

  function Parsed(block: seq<Byte>, t: Tags): Tags
    requires block != []
  {
    var (u, extra) := ParseFields(ToNul(block[1..]), t, []);
    u.(extra := if extra == [] then None else Some(extra))
  }

  /** Text that the loop collects as other fields, to its end. */
  ghost predicate OtherFields(s: CString)
    decreases |s|
  {
    s == [] || (NextField(s).OtherField? && OtherFields(s[NextField(s).n + 2..]))
  }

  lemma NothingLeft()
    ensures NextField([]) == Unfinished
  {
  }

  lemma {:induction false} ParseOther(s: CString, t: Tags, extra: CString)
    requires OtherFields(s)
    ensures ParseFields(s, t, extra) == (t, extra + s)
    decreases |s|
  {
    hide NextField;
    if s == [] {
      assert extra + s == extra;
      NothingLeft();
    } else {
      var n := NextField(s).n;
      ParseOther(s[n + 2..], t, extra + s[..n + 2]);
      assert extra + s[..n + 2] + s[n + 2..] == extra + s;
    }
  }

  lemma BeginsWithEnd(s: CString)
    ensures End() <= s <==> |s| >= 2 && s[0] == End()[0] && s[1] == End()[1]
    ensures End()[0] != End()[1]
  {
  }

  lemma NoEndHere(s: CString, tail: CString)
    requires s != [] && Find(s, End()) == None
    ensures !(End() <= s + End() + tail) && Find(s[1..], End()) == None
  {
    var whole := s + End() + tail;
    assert |s| > 1 ==> whole[0] == s[0] && whole[1] == s[1];
    assert |s| == 1 ==> whole[1] == End()[0];
    BeginsWithEnd(s);
    BeginsWithEnd(whole);
  }

  /** The terminator is found where it is put, if the text before it has none. */
  lemma {:induction false} FindEnd(s: CString, tail: CString)
    requires Find(s, End()) == None
    ensures Find(s + End() + tail, End()) == Some(|s|)
  {
    hide End;
    var whole := s + End() + tail;
    if s == [] {
      assert whole == End() + tail;
    } else {
      FindEnd(s[1..], tail);
      assert whole[1..] == s[1..] + End() + tail;
      NoEndHere(s, tail);
    }
  }

  lemma {:induction false} ToNulOf(s: CString, n: nat)
    requires n > 0
    ensures ToNul(s + Zeros(n)) == s
  {
    if s != [] {
      ToNulOf(s[1..], n);
      assert (s + Zeros(n))[1..] == s[1..] + Zeros(n);
    }
  }

  lemma UrlIsNoTitle(s: CString)
    requires Url() <= s
    ensures !(Title() <= s)
  {
    assert Url()[6] != Title()[6];
  }

  lemma ParseUrl(u: CString, tail: CString, t: Tags, extra: CString)
    requires Find(u, End()) == None
    ensures ParseFields(Url() + u + End() + tail, t, extra) == ParseFields(tail, t.(inlineUrl := Some(u)), extra)
  {
    hide Title, Url, End, Find;
    var s := Url() + u + End() + tail;
    FindEnd(u, tail);
    assert Url() <= s;
    UrlIsNoTitle(s);
    assert s[11..] == u + End() + tail;
    assert s[11..11 + |u|] == u && s[11 + |u| + 2..] == tail;
  }

  lemma ParseTitle(x: CString, tail: CString, t: Tags, extra: CString)
    requires Find(x, End()) == None
    ensures ParseFields(Title() + x + End() + tail, t, extra)
        == ParseFields(tail, t.(title := Some(x), artist := None), extra)
  {
    hide Title, End, Find;
    var s := Title() + x + End() + tail;
    FindEnd(x, tail);
    assert Title() <= s;
    assert s[13..] == x + End() + tail;
    assert s[13..13 + |x|] == x && s[13 + |x| + 2..] == tail;
  }

  lemma BlockText(t: Tags)
    requires Needed(t) <= MAX_META_LEN
    ensures ToNul(Closed(Block(t))[1..]) == Rendered(t)
  {
    BlockIsWellFormed(t);
    RenderedFits(t);
    var n := 16 * LengthByte(t) - |Rendered(t)|;
    assert Block(t)[1..] == Rendered(t) + Zeros(n);
    ToNulOf(Rendered(t), n);
  }

  lemma {:induction false} FindIs(s: seq<Byte>)
    ensures Find(s, End()) != None <==> exists i :: 0 <= i < |s| - 1 && s[i] == End()[0] && s[i + 1] == End()[1]
  {
    if s != [] {
      FindIs(s[1..]);
      if Find(s, End()) != None && !(End() <= s) {
        var i :| 0 <= i < |s[1..]| - 1 && s[1..][i] == End()[0] && s[1..][i + 1] == End()[1];
        assert s[i + 1] == End()[0] && s[i + 2] == End()[1];
      }
      forall i | 0 <= i < |s| - 1 && s[i] == End()[0] && s[i + 1] == End()[1]
        ensures Find(s, End()) != None
      {
        if i > 0 {
          assert s[1..][i - 1] == End()[0] && s[1..][i] == End()[1];
        } else {
          assert End() == s[..2];
        }
      }
    }
  }

  /** A text begins with a complete field exactly if there is a terminator after the name of the field. */
  lemma CompleteField(s: CString)
    ensures
      var from := if Text("StreamTitle='") <= s then 13 else if Text("StreamUrl='") <= s then 11 else 0;
      !NextField(s).Unfinished? <==> exists i :: from <= i < |s| - 1 && s[i] as char == '\'' && s[i + 1] as char == ';'
  {
    hide Find;
    var from := if Title() <= s then 13 else if Url() <= s then 11 else 0;
    FindIs(s[from..]);
    assert End()[0] as char == '\'' && End()[1] as char == ';';
    if !NextField(s).Unfinished? {
      var i :| 0 <= i < |s[from..]| - 1 && s[from..][i] == End()[0] && s[from..][i + 1] == End()[1];
      assert s[from + i] == End()[0] && s[from + i + 1] == End()[1];
    }
    forall i | from <= i < |s| - 1 && s[i] as char == '\'' && s[i + 1] as char == ';'
      ensures !NextField(s).Unfinished?
    {
      assert s[from..][i - from] == End()[0] && s[from..][i - from + 1] == End()[1];
    }
  }

  /** The dash does not make a terminator of what is before and after it. */
  lemma DashHasNoEnd(a: CString, b: CString)
    ensures Find(a + Dash() + b, End()) == None <==> Find(a, End()) == None && Find(b, End()) == None
  {
    var s, e := a + Dash() + b, End();
    hide Find;
    FindIs(s);
    FindIs(a);
    FindIs(b);
    assert forall k :: 0 <= k < 3 ==> Dash()[k] != e[0] && Dash()[k] != e[1];
    assert forall k :: |a| <= k < |a| + 3 ==> s[k] == Dash()[k - |a|];
    forall i | 0 <= i < |s| - 1 && s[i] == e[0] && s[i + 1] == e[1]
      ensures Find(a, e) != None || Find(b, e) != None
    {
      assert i + 1 != |a| && (i < |a| || i >= |a| + 3);
      if i < |a| {
        assert a[i] == s[i] && a[i + 1] == s[i + 1];
      } else {
        assert b[i - |a| - 3] == s[i] && b[i - |a| - 3 + 1] == s[i + 1];
      }
    }
    forall i | 0 <= i < |a| - 1 && a[i] == e[0] && a[i + 1] == e[1]
      ensures Find(s, e) != None
    {
      assert s[i] == a[i] && s[i + 1] == a[i + 1];
    }
    forall i | 0 <= i < |b| - 1 && b[i] == e[0] && b[i + 1] == e[1]
      ensures Find(s, e) != None
    {
      assert s[i + |a| + 3] == b[i] && s[i + |a| + 3 + 1] == b[i + 1];
    }
  }

  /** Neither the title, nor an artist that is shown with it, has the terminator. */
  predicate NamesHaveNoEnd(t: Tags) {
    Find(OrEmpty(t.title), End()) == None && (t.title != None ==> Find(OrEmpty(t.artist), End()) == None)
  }

  lemma ShownHasNoEnd(t: Tags)
    ensures Find(Shown(t), End()) == None <==> NamesHaveNoEnd(t)
  {
    assert Find([], End()) == None;
    if t.artist != None && t.title != None {
      DashHasNoEnd(t.artist.value, t.title.value);
    }
  }

  /**
   Printing and parsing: whatever the receiver knew before, it ends with the title shown, no
   artist, the URL if there was one, and the other fields.
   */
  lemma RoundTrip(t: Tags, before: Tags)
    requires Needed(t) <= MAX_META_LEN
    requires NamesHaveNoEnd(t) && Find(OrEmpty(LinkedUrl(t)), End()) == None && OtherFields(OrEmpty(t.extra))
    ensures
      Parsed(Closed(Block(t)), before) == before.(title := Some(Shown(t)), artist := None,
        inlineUrl := if LinkedUrl(t) == None then before.inlineUrl else LinkedUrl(t),
        extra := if OrEmpty(t.extra) == [] then None else t.extra)
  {
    hide Title, Url, End, Dash, Find, ParseFields, OtherFields, Shown, Needed, NamesHaveNoEnd;
    ShownHasNoEnd(t);
    BlockText(t);
    var extra := OrEmpty(t.extra);
    var tail := AfterTitle(t);
    ParseTitle(Shown(t), tail, before, []);
    var mid := before.(title := Some(Shown(t)), artist := None);
    var last := mid;
    if LinkedUrl(t) == None {
      assert tail == extra;
    } else {
      var u := LinkedUrl(t).value;
      assert tail == Url() + u + End() + extra;
      ParseUrl(u, extra, mid, []);
      last := mid.(inlineUrl := Some(u));
    }
    ParseOther(extra, last, []);
    assert [] + extra == extra;
  }

  lemma {:induction false} FindFirst(s: seq<Byte>)
    requires Find(s, End()) != None
    ensures Find(s[..Find(s, End()).value], End()) == None
  {
    var i := Find(s, End()).value;
    if i > 0 {
      FindFirst(s[1..]);
      assert s[..i][1..] == s[1..][..i - 1];
      if i >= 2 {
        assert s[..i][..2] == s[..2];
      }
    }
  }

  lemma FieldHasNoEnd(s: CString)
    ensures NextField(s).TitleField? ==> Find(s[13..13 + NextField(s).n], End()) == None
    ensures NextField(s).UrlField? ==> Find(s[11..11 + NextField(s).n], End()) == None
  {
    hide Title, Url, End, Find;
    match NextField(s)
    case TitleField(n) =>
      FindFirst(s[13..]);
      assert s[13..13 + n] == s[13..][..n];
    case UrlField(n) =>
      FindFirst(s[11..]);
      assert s[11..11 + n] == s[11..][..n];
    case _ =>
  }

  /** No title or URL taken from a block contains the terminator. */
  lemma {:induction false} ParsedHaveNoEnd(s: CString, t: Tags, extra: CString)
    ensures
      var u := ParseFields(s, t, extra).0;
      && (u.title == t.title || Find(OrEmpty(u.title), End()) == None)
      && (u.inlineUrl == t.inlineUrl || Find(OrEmpty(u.inlineUrl), End()) == None)
    decreases |s|
  {
    hide Title, Url, End, Find, NextField;
    match NextField(s)
    case TitleField(n) =>
      FieldHasNoEnd(s);
      ParsedHaveNoEnd(s[13 + n + 2..], t.(title := Some(s[13..13 + n]), artist := None), extra);
    case UrlField(n) =>
      FieldHasNoEnd(s);
      ParsedHaveNoEnd(s[11 + n + 2..], t.(inlineUrl := Some(s[11..11 + n])), extra);
    case OtherField(n) =>
      ParsedHaveNoEnd(s[n + 2..], t, extra + s[..n + 2]);
    case Unfinished =>
  }

  lemma {:induction false} EndIsFound(s: CString, tail: CString)
    ensures Find(s + End() + tail, End()) != None
  {
    var whole := s + End() + tail;
    if s == [] {
      assert whole == End() + tail;
    } else {
      EndIsFound(s[1..], tail);
      assert whole[1..] == s[1..] + End() + tail;
    }
  }

  lemma LeadingTitle(s: CString, t: Tags)
    requires NextField(s).TitleField?
    ensures Find(OrEmpty(ParseFields(s, t, []).0.title), End()) == None
  {
    hide Title, Url, End, Find;
    var n := NextField(s).n;
    FieldHasNoEnd(s);
    ParsedHaveNoEnd(s[13 + n + 2..], t.(title := Some(s[13..13 + n]), artist := None), []);
  }

  lemma FirstTitle(x: CString, tail: CString, t: Tags)
    ensures Find(OrEmpty(ParseFields(Title() + x + End() + tail, t, []).0.title), End()) == None
  {
    hide Title, End, Find, ParseFields;
    var s: CString := Title() + x + End() + tail;
    assert Title() <= s && s[13..] == x + End() + tail;
    EndIsFound(x, tail);
    LeadingTitle(s, t);
  }

  /**
   The title that was printed is recovered exactly if neither title nor artist contains the
   terminator, whatever the receiver knew before, provided that what follows is well formed.
   */
  lemma TitleRecovered(t: Tags, before: Tags)
    requires Needed(t) <= MAX_META_LEN
    requires Find(OrEmpty(LinkedUrl(t)), End()) == None && OtherFields(OrEmpty(t.extra))
    ensures Parsed(Closed(Block(t)), before).title == Some(Shown(t)) <==> NamesHaveNoEnd(t)
  {
    ShownHasNoEnd(t);
    if NamesHaveNoEnd(t) {
      RoundTrip(t, before);
    } else {
      hide Title, Url, End, Find, Shown, PrintedUrl, Needed, ParseFields;
      BlockText(t);
      FirstTitle(Shown(t), AfterTitle(t), before);
    }
  }

  lemma OneByteHasNoEnd(s: CString)
    requires |s| == 1
    ensures Find(s, End()) == None
  {
    assert Find(s[1..], End()) == None;
  }

  lemma ParseCutRest(b: CString, t: Tags)
    requires b == Text("b';")
    ensures ParseFields(b, t, []) == (t, b)
  {
    assert !(Title() <= b) && !(Url() <= b);
    FindEnd(b[..1], []);
    assert b == b[..1] + End() + [];
    ParseOther(b, t, []);
    assert [] + b == b;
  }

  /** The title a';b is learned as a, and the rest of it as another field. */
  lemma TitleIsCut(before: Tags)
    ensures
      var t := Tags(None, Some(Text("a';b")), None, None, None);
      && Needed(t) <= MAX_META_LEN
      && Parsed(Closed(Block(t)), before) == before.(title := Some(Text("a")), artist := None,
          extra := Some(Text("b';")))
  {
    var t := Tags(None, Some(Text("a';b")), None, None, None);
    var a, b: CString := Text("a"), Text("b';");
    assert Needed(t) == 20;
    BlockText(t);
    OneByteHasNoEnd(a);
    OneByteHasNoEnd(Text("b"));
    assert Text("a';b") == a + End() + Text("b") && b == Text("b") + End();
    assert Rendered(t) == Title() + a + End() + b;
    hide ParseFields, Find, Rendered, Needed, Title, Block;
    ParseTitle(a, b, before, []);
    ParseCutRest(b, before.(title := Some(a), artist := None));
  }
}
