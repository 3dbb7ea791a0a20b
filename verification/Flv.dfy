/**
 An FLV file body after Annex E.3 and E.4.1 of the Adobe FLV specification, version 10.1:
 each tag is preceded by the size of the one before it.
 */
module Flv {
  import opened Bytes
  import opened Wrappers

  const FLVHEADER: nat := 11
  const AUDIO: Byte := 8
  const SCRIPT: Byte := 18

  datatype Tag = Tag(kind: Byte, timestamp: nat, data: seq<Byte>)

  /** The size of a tag, as the tag after it gives it. */
  function Size(t: Tag): nat {
    FLVHEADER + |t.data|
  }

  predicate TagOk(t: Tag) {
    Size(t) < 0x100_0000 && t.timestamp < 0x1_0000_0000
  }

  // -------------------------------------------------------------------- reading a body

  function U24(s: seq<Byte>, at: nat): nat
    requires at + 3 <= |s|
  {
    0x1_0000 * (s[at] as int) + 0x100 * (s[at + 1] as int) + s[at + 2] as int
  }

  function U32(s: seq<Byte>, at: nat): nat
    requires at + 4 <= |s|
  {
    0x100_0000 * (s[at] as int) + U24(s, at + 1)
  }

  /** The tags of a body, if every PreviousTagSize is that of the tag before and every DataSize is right. */
  function ParseBody(s: seq<Byte>, previous: nat): Option<seq<Tag>>
    decreases |s|
  {
    if s == [] then Some([])
    else if |s| < 15 || U32(s, 0) != previous || U24(s, 12) != 0 || |s| < 15 + U24(s, 5) then None
    else
      var size := U24(s, 5);
      var t := Tag(s[4], 0x100_0000 * (s[11] as int) + U24(s, 8), s[15..15 + size]);
      match ParseBody(s[15 + size..], Size(t))
      case None => None
      case Some(more) => Some([t] + more)
  }

  // -------------------------------------------------------------------- writing one

  function UI24(v: nat): (r: seq<Byte>)
    ensures |r| == 3
  {
    [v / 256 / 256 % 256, v / 256 % 256, v % 256]
  }

  /** What goes before the data of a tag; the size of the tag before it has only 24 bits. */
  function TagHead(previous: nat, kind: Byte, size: nat, timestamp: nat): (r: seq<Byte>)
    ensures |r| == 15
  {
    [0] + UI24(previous) + [kind] + UI24(size) + UI24(timestamp) + [timestamp / 256 / 256 / 256 % 256] + [0, 0, 0]
  }

  function TagBytes(previous: nat, t: Tag): seq<Byte> {
    TagHead(previous, t.kind, |t.data|, t.timestamp) + t.data
  }

  function LastSize(previous: nat, tags: seq<Tag>): nat {
    if tags == [] then previous else Size(tags[|tags| - 1])
  }

  function Body(previous: nat, tags: seq<Tag>): seq<Byte>
    decreases |tags|
  {
    if tags == [] then [] else TagBytes(previous, tags[0]) + Body(Size(tags[0]), tags[1..])
  }

  lemma {:induction false} BodySnoc(previous: nat, tags: seq<Tag>, t: Tag)
    ensures Body(previous, tags + [t]) == Body(previous, tags) + TagBytes(LastSize(previous, tags), t)
    decreases |tags|
  {
    if tags == [] {
      assert [t][1..] == [];
    } else {
      BodySnoc(Size(tags[0]), tags[1..], t);
      var all := tags + [t];
      assert all[1..] == tags[1..] + [t] && all[0] == tags[0];
      assert LastSize(previous, tags) == LastSize(Size(tags[0]), tags[1..]);
    }
  }

  lemma Bits24(v: nat)
    ensures U24(UI24(v), 0) == v - 0x100_0000 * (v / 256 / 256 / 256)
    ensures 0 <= U24(UI24(v), 0) < 0x100_0000
  {
    var q := v / 256;
    var p := q / 256;
    assert v == 256 * q + v % 256 && q == 256 * p + q % 256 && p == 256 * (p / 256) + p % 256;
  }

  lemma U24At(s: seq<Byte>, at: nat, v: nat)
    requires at + 3 <= |s| && s[at] == UI24(v)[0] && s[at + 1] == UI24(v)[1] && s[at + 2] == UI24(v)[2]
    ensures U24(s, at) == v - 0x100_0000 * (v / 256 / 256 / 256) && 0 <= U24(s, at) < 0x100_0000
  {
    Bits24(v);
  }

  /** The fields of the head say what they should exactly if there are bits enough for it. */
  lemma HeadFields(previous: nat, t: Tag, rest: seq<Byte>)
    ensures
      var s := TagBytes(previous, t) + rest;
      && |s| >= 15 + |t.data|
      && (U32(s, 0) == previous <==> previous < 0x100_0000)
      && (U24(s, 5) == |t.data| <==> |t.data| < 0x100_0000)
      && U24(s, 12) == 0 && s[4] == t.kind
      && (0x100_0000 * (s[11] as int) + U24(s, 8) == t.timestamp <==> t.timestamp < 0x1_0000_0000)
      && s[15..15 + |t.data|] == t.data && s[15 + |t.data|..] == rest
  {
    var head, s := TagHead(previous, t.kind, |t.data|, t.timestamp), TagBytes(previous, t) + rest;
    assert s == head + (t.data + rest);
    assert forall i :: 0 <= i < 15 ==> s[i] == head[i];
    U24At(s, 1, previous);
    U24At(s, 5, |t.data|);
    U24At(s, 8, t.timestamp);
    hide U24, UI24;
    U24At(s, 12, 0);
    var top := t.timestamp / 256 / 256 / 256;
    assert top == 256 * (top / 256) + top % 256;
  }

  lemma ParseTag(previous: nat, t: Tag, rest: seq<Byte>)
    requires previous < 0x100_0000 && TagOk(t)
    ensures
      ParseBody(TagBytes(previous, t) + rest, previous) ==
        match ParseBody(rest, Size(t))
        case None => None
        case Some(more) => Some([t] + more)
  {
    hide TagBytes, U24, U32;
    HeadFields(previous, t, rest);
  }

  /** A body that was written is read back as the same tags. */
  lemma {:induction false} BodyParses(previous: nat, tags: seq<Tag>)
    requires previous < 0x100_0000 && forall i :: 0 <= i < |tags| ==> TagOk(tags[i])
    ensures ParseBody(Body(previous, tags), previous) == Some(tags)
    decreases |tags|
  {
    if tags == [] {
      assert Body(previous, tags) == [];
    } else {
      hide TagBytes, ParseBody;
      var t := tags[0];
      ParseTag(previous, t, Body(Size(t), tags[1..]));
      BodyParses(Size(t), tags[1..]);
      assert [t] + tags[1..] == tags;
    }
  }
}
