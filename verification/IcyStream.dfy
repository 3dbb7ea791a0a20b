/**
 The inline metadata protocol: after every `interval` bytes of audio comes one metadata
 block, a length byte b followed by 16·b bytes. This module says what such a stream
 carries, one byte at a time, and what a stream with given contents looks like.
 */
module IcyStream {
  import opened Bytes

  /**
   A reader of the stream: audio bytes since the last block, the block being collected,
   and what has been separated so far. Bytes that were handed back count as not read, so
   the position within the interval may be below zero.
   */
  datatype Demux = Demux(offset: int, building: seq<Byte>, audio: seq<Byte>, blocks: seq<seq<Byte>>)

  const START: Demux := Demux(0, [], [], [])

  function BlockLength(lengthByte: Byte): nat {
    1 + 16 * lengthByte
  }

  /** The reader keeps all of a block but its last byte, which becomes NUL. */
  function Closed(block: seq<Byte>): seq<Byte>
    requires block != []
  {
    block[..|block| - 1] + [0]
  }

  function WithBlock(blocks: seq<seq<Byte>>, block: seq<Byte>): seq<seq<Byte>>
    requires block != []
  {
    if block[0] == 0 then blocks else blocks + [Closed(block)]
  }

  function Feed(interval: nat, d: Demux, b: Byte): Demux {
    if d.offset < interval then d.(offset := d.offset + 1, audio := d.audio + [b])
    else
      var block := d.building + [b];
      if |block| < BlockLength(block[0]) then d.(building := block)
      else Demux(0, [], d.audio, WithBlock(d.blocks, block))
  }

  function FeedAll(interval: nat, d: Demux, s: seq<Byte>): Demux
    decreases |s|
  {
    if s == [] then d else FeedAll(interval, Feed(interval, d, s[0]), s[1..])
  }

  lemma {:induction false} FeedConcat(interval: nat, d: Demux, s: seq<Byte>, t: seq<Byte>)
    ensures FeedAll(interval, d, s + t) == FeedAll(interval, FeedAll(interval, d, s), t)
    decreases |s|
  {
    if s == [] {
      assert s + t == t;
    } else {
      FeedConcat(interval, Feed(interval, d, s[0]), s[1..], t);
      assert (s + t)[0] == s[0] && (s + t)[1..] == s[1..] + t;
    }
  }

  /** What was separated stays so. */
  lemma {:induction false} FeedGrows(interval: nat, d: Demux, s: seq<Byte>)
    ensures d.audio <= FeedAll(interval, d, s).audio && d.blocks <= FeedAll(interval, d, s).blocks
    decreases |s|
  {
    if s != [] {
      FeedGrows(interval, Feed(interval, d, s[0]), s[1..]);
    }
  }

  /** A stretch of audio that stays within the interval. */
  lemma {:induction false} FeedAudio(interval: nat, d: Demux, s: seq<Byte>)
    requires d.offset + |s| <= interval
    ensures FeedAll(interval, d, s) == d.(offset := d.offset + |s|, audio := d.audio + s)
    decreases |s|
  {
    if s == [] {
      assert d.audio + s == d.audio;
    } else {
      FeedAudio(interval, Feed(interval, d, s[0]), s[1..]);
      assert d.audio + [s[0]] + s[1..] == d.audio + s;
    }
  }

  /** A part of a metadata block that does not complete it. */
  lemma {:induction false} FeedPart(interval: nat, d: Demux, s: seq<Byte>)
    requires d.offset >= interval && s != []
    requires |d.building| + |s| < BlockLength((d.building + s)[0])
    ensures FeedAll(interval, d, s) == d.(building := d.building + s)
    decreases |s|
  {
    assert (d.building + [s[0]])[0] == (d.building + s)[0];
    var d' := d.(building := d.building + [s[0]]);
    assert Feed(interval, d, s[0]) == d';
    assert d.building + s == d'.building + s[1..];
    if |s| > 1 {
      FeedPart(interval, d', s[1..]);
    }
  }

  /** The part of a metadata block that completes it. */
  lemma FeedRest(interval: nat, d: Demux, s: seq<Byte>)
    requires d.offset >= interval && s != []
    requires |d.building| + |s| == BlockLength((d.building + s)[0])
    ensures FeedAll(interval, d, s) == Demux(0, [], d.audio, WithBlock(d.blocks, d.building + s))
  {
    var init, last := s[..|s| - 1], s[|s| - 1];
    assert s == init + [last];
    FeedConcat(interval, d, init, [last]);
    if init != [] {
      assert (d.building + init)[0] == (d.building + s)[0];
      FeedPart(interval, d, init);
    } else {
      assert d.building + init == d.building;
    }
    assert d.building + init + [last] == d.building + s;
  }

  // -------------------------------------------------------------------- what a stream carries

  /** One interval of audio and the metadata block that follows it. */
  datatype Frame = Frame(audio: seq<Byte>, block: seq<Byte>)

  predicate BlockOk(block: seq<Byte>) {
    block != [] && |block| == BlockLength(block[0]) && block[|block| - 1] == 0
  }

  predicate FramesOk(interval: nat, fs: seq<Frame>) {
    forall i :: 0 <= i < |fs| ==> |fs[i].audio| == interval && BlockOk(fs[i].block)
  }

  function Wire(fs: seq<Frame>): seq<Byte> {
    if fs == [] then [] else Wire(fs[..|fs| - 1]) + (fs[|fs| - 1].audio + fs[|fs| - 1].block)
  }

  function Audio(fs: seq<Frame>): seq<Byte> {
    if fs == [] then [] else Audio(fs[..|fs| - 1]) + fs[|fs| - 1].audio
  }

  /** The blocks that say something, in order. */
  function Blocks(fs: seq<Frame>): seq<seq<Byte>> {
    if fs == [] then []
    else
      var block := fs[|fs| - 1].block;
      var earlier := Blocks(fs[..|fs| - 1]);
      if block == [0] then earlier else earlier + [block]
  }

  lemma FeedFrame(interval: nat, d: Demux, f: Frame)
    requires d.offset == 0 && d.building == [] && |f.audio| == interval && BlockOk(f.block)
    ensures
      FeedAll(interval, d, f.audio + f.block)
        == Demux(0, [], d.audio + f.audio, if f.block == [0] then d.blocks else d.blocks + [f.block])
  {
    hide FeedAll;
    FeedConcat(interval, d, f.audio, f.block);
    FeedAudio(interval, d, f.audio);
    var d' := d.(offset := interval, audio := d.audio + f.audio);
    assert d'.building + f.block == f.block;
    FeedRest(interval, d', f.block);
    assert Closed(f.block) == f.block;
    assert f.block[0] == 0 <==> f.block == [0];
  }

  /** Reading whole frames gives back their audio and their blocks. */
  lemma {:induction false} FeedFrames(interval: nat, fs: seq<Frame>)
    requires FramesOk(interval, fs)
    ensures FeedAll(interval, START, Wire(fs)) == Demux(0, [], Audio(fs), Blocks(fs))
  {
    if fs != [] {
      var f, init := fs[|fs| - 1], fs[..|fs| - 1];
      FeedFrames(interval, init);
      FeedConcat(interval, START, Wire(init), f.audio + f.block);
      FeedFrame(interval, Demux(0, [], Audio(init), Blocks(init)), f);
    }
  }

  /**
   Reading whole frames, then audio short of the next block, then a part of that block
   gives the audio, the complete blocks, and the part.
   */
  lemma FeedStream(interval: nat, fs: seq<Frame>, audio: seq<Byte>, part: seq<Byte>)
    requires FramesOk(interval, fs) && |audio| <= interval
    requires part != [] ==> |audio| == interval && |part| < BlockLength(part[0])
    ensures
      FeedAll(interval, START, Wire(fs) + audio + part)
        == Demux(|audio|, part, Audio(fs) + audio, Blocks(fs))
  {
    hide FeedAll, Wire, Audio, Blocks;
    var d := Demux(0, [], Audio(fs), Blocks(fs));
    FeedFrames(interval, fs);
    assert Wire(fs) + audio + part == Wire(fs) + (audio + part);
    FeedConcat(interval, START, Wire(fs), audio + part);
    FeedConcat(interval, d, audio, part);
    FeedAudio(interval, d, audio);
    var d' := d.(offset := |audio|, audio := d.audio + audio);
    if part != [] {
      assert d'.building + part == part;
      FeedPart(interval, d', part);
    } else {
      FeedAudio(interval, d', part);
      assert d'.audio + part == d'.audio;
    }
  }

  // -------------------------------------------------------------------- handing audio back

  /** The last `u` bytes of audio count as not read. */
  function HandBack(d: Demux, u: nat): Demux
    requires u <= |d.audio|
  {
    d.(offset := d.offset - u, audio := d.audio[..|d.audio| - u])
  }

  /**
   Handing back a suffix and reading it again before anything else changes nothing, whether
   or not a metadata block lies inside the suffix: what is read again is all audio.
   */
  lemma HandBackReread(interval: nat, d: Demux, u: nat, s: seq<Byte>)
    requires u <= |d.audio| && d.offset < interval
    ensures FeedAll(interval, HandBack(d, u), d.audio[|d.audio| - u..] + s) == FeedAll(interval, d, s)
  {
    var back := d.audio[|d.audio| - u..];
    FeedConcat(interval, HandBack(d, u), back, s);
    FeedAudio(interval, HandBack(d, u), back);
    assert d.audio[..|d.audio| - u] + back == d.audio;
  }
}
