/** MP3 frames sent as FLV: the tag header, the wrapper buffer and the vector of src/flv.c. */
module FlvOutput {
  import opened Bytes
  import opened Flv
  import opened Vectors
  import opened Wrappers

  /** What the FLV header is sent as, once. */
  const FILE_HEADER: seq<Byte> := [0x46, 0x4C, 0x56, 1, 4, 0, 0, 0, 9]

  const WRAPPER: nat := 1024

  /** A frame found by the parser: its bytes, and what it says of the stream. */
  datatype Frame = Frame(data: seq<Byte>, sampleRate: int, stereo: bool, endsAt: nat)

  /** The audio parameters of an MP3 stream, set from the first frame. */
  function Codec(was: Byte, f: Frame): Byte {
    if was != 0x22 then was
    else
      0x22 + (if f.sampleRate == 11025 then 4 else if f.sampleRate == 22050 then 8 else 12)
      + (if f.stereo then 1 else 0)
  }

  function MsAfter(ms: nat, frames: seq<Frame>): nat {
    if frames == [] then ms else frames[|frames| - 1].endsAt
  }

  function CodecAfter(codec: Byte, frames: seq<Frame>): Byte {
    if frames == [] then codec else Codec(CodecAfter(codec, frames[..|frames| - 1]), frames[|frames| - 1])
  }

  /** A frame begins where the one before it ends. */
  function FrameTags(codec: Byte, ms: nat, frames: seq<Frame>): seq<Tag> {
    if frames == [] then []
    else
      var init, f := frames[..|frames| - 1], frames[|frames| - 1];
      FrameTags(codec, ms, init) + [Tag(AUDIO, MsAfter(ms, init), [Codec(CodecAfter(codec, init), f)] + f.data)]
  }

  /** The tags of a block: metadata, if there is new metadata and a frame to put it before, and the frames. */
  function Packed(codec: Byte, ms: nat, frames: seq<Frame>, meta: Option<seq<Byte>>): seq<Tag> {
    (if frames != [] && meta != None then [Tag(SCRIPT, ms, meta.value)] else []) + FrameTags(codec, ms, frames)
  }

  /** The parameters of MP3: 2 for the format, the rate, 16 bits a sample, and whether it is stereo. */
  predicate SaysOf(c: Byte, sampleRate: int, stereo: bool) {
    && c / 16 == 2 && c / 2 % 2 == 1
    && c / 4 % 4 == (match sampleRate case 11025 => 1 case 22050 => 2 case _ => 3)
    && c % 2 == if stereo then 1 else 0
  }

  /** The first frame decides for good. */
  lemma {:induction false} FirstDecides(frames: seq<Frame>)
    requires frames != []
    ensures SaysOf(CodecAfter(0x22, frames), frames[0].sampleRate, frames[0].stereo)
    ensures CodecAfter(0x22, frames) != 0x22
  {
    var init := frames[..|frames| - 1];
    if init == [] {
      assert CodecAfter(0x22, init) == 0x22;
    } else {
      FirstDecides(init);
    }
  }

  /**
   Each frame of a stream has its own tag, in order, with the time at which the frame before it
   ends, and the parameters of the first frame before its bytes.
   */
  lemma {:induction false} TagOfFrame(ms: nat, frames: seq<Frame>, i: nat)
    requires i < |frames|
    ensures |FrameTags(0x22, ms, frames)| == |frames|
    ensures
      var t := FrameTags(0x22, ms, frames)[i];
      && t.kind == 8 && t.timestamp == (if i == 0 then ms else frames[i - 1].endsAt)
      && t.data != [] && SaysOf(t.data[0], frames[0].sampleRate, frames[0].stereo) && t.data[1..] == frames[i].data
    decreases |frames|
  {
    hide SaysOf;
    var init, f := frames[..|frames| - 1], frames[|frames| - 1];
    if init != [] {
      TagOfFrame(ms, init, if i < |init| then i else 0);
    }
    FirstDecides(frames);
    assert CodecAfter(0x22, frames) == Codec(CodecAfter(0x22, init), f);
    assert ([Codec(CodecAfter(0x22, init), f)] + f.data)[1..] == f.data;
  }

  lemma {:induction false} LaterTag(codec: Byte, ms: nat, frames: seq<Frame>, i: nat)
    requires codec != 0x22 && i < |frames|
    ensures |FrameTags(codec, ms, frames)| == |frames| && CodecAfter(codec, frames) == codec
    ensures
      FrameTags(codec, ms, frames)[i] == Tag(8, if i == 0 then ms else frames[i - 1].endsAt, [codec] + frames[i].data)
    decreases |frames|
  {
    var init := frames[..|frames| - 1];
    if init != [] {
      LaterTag(codec, ms, init, if i < |init| then i else 0);
    }
  }

  /** Later blocks go on with the parameters that the first frame has set, and metadata goes before the first tag. */
  lemma LaterTags(codec: Byte, ms: nat, frames: seq<Frame>, meta: Option<seq<Byte>>, i: nat)
    requires codec != 0x22 && i < |frames|
    ensures
      var head := if meta != None then 1 else 0;
      var tags := Packed(codec, ms, frames, meta);
      && |tags| == head + |frames| && (head == 1 ==> tags[0] == Tag(18, ms, meta.value))
      && tags[head + i] == Tag(8, if i == 0 then ms else frames[i - 1].endsAt, [codec] + frames[i].data)
  {
    LaterTag(codec, ms, frames, i);
  }

  lemma {:induction false} CodecFollows(codec: Byte, ms: nat, first: seq<Frame>, more: seq<Frame>)
    ensures CodecAfter(codec, first + more) == CodecAfter(CodecAfter(codec, first), more)
    ensures MsAfter(ms, first + more) == MsAfter(MsAfter(ms, first), more)
    decreases |more|
  {
    hide Codec;
    if more == [] {
      assert first + more == first;
    } else {
      var all, init := first + more, more[..|more| - 1];
      CodecFollows(codec, ms, first, init);
      assert all[..|all| - 1] == first + init && all[|all| - 1] == more[|more| - 1];
    }
  }

  lemma {:induction false} TagsFollow(codec: Byte, ms: nat, first: seq<Frame>, more: seq<Frame>)
    ensures
      FrameTags(codec, ms, first + more)
      == FrameTags(codec, ms, first) + FrameTags(CodecAfter(codec, first), MsAfter(ms, first), more)
    decreases |more|
  {
    hide Codec, CodecAfter, MsAfter;
    if more == [] {
      assert first + more == first;
    } else {
      var all, init := first + more, more[..|more| - 1];
      TagsFollow(codec, ms, first, init);
      CodecFollows(codec, ms, first, init);
      assert all[..|all| - 1] == first + init && all[|all| - 1] == more[|more| - 1];
    }
  }

  /** Blocks that follow one another without new metadata are as one: times and parameters go on. */
  lemma BlocksFollow(codec: Byte, ms: nat, first: seq<Frame>, more: seq<Frame>)
    ensures
      Packed(codec, ms, first + more, None)
      == Packed(codec, ms, first, None) + Packed(CodecAfter(codec, first), MsAfter(ms, first), more, None)
    ensures CodecAfter(codec, first + more) == CodecAfter(CodecAfter(codec, first), more)
    ensures MsAfter(ms, first + more) == MsAfter(MsAfter(ms, first), more)
  {
    TagsFollow(codec, ms, first, more);
    CodecFollows(codec, ms, first, more);
    hide FrameTags, CodecAfter, MsAfter;
  }

  /** What a block takes of the wrapper before its first frame: a file header if it is the first, and new metadata. */
  function HeadLength(first: bool, meta: Option<seq<Byte>>): nat {
    (if first then |FILE_HEADER| else 0) + (if meta != None then 15 else 0)
  }

  /** How many frames of a block the wrapper has room for; the others are lost. */
  function Fitting(first: bool, meta: Option<seq<Byte>>, count: nat): (n: nat)
    ensures n <= count
    ensures n == count <==> count == 0 || HeadLength(first, meta) + 16 * count <= WRAPPER
  {
    var room := (WRAPPER - HeadLength(first, meta)) / 16;
    if count < room then count else room
  }

  lemma FittingIs(first: bool, meta: Option<seq<Byte>>, count: nat, n: nat)
    requires n <= count && (n > 0 ==> HeadLength(first, meta) + 16 * n <= WRAPPER)
    requires n < count ==> (if n == 0 then HeadLength(first, None) else HeadLength(first, meta) + 16 * n) + 16 > WRAPPER
    ensures n == Fitting(first, meta, count)
  {
  }

  /** Bytes appended to a vector. */
  method AppendBytes(bufs: ConnBufs, data: seq<Byte>, base: nat, len: nat)
    requires bufs.Valid() && base + len <= |data| && len <= 0xFFFFFF
    modifies bufs, bufs.block
    ensures bufs.Valid() && (bufs.block == old(bufs.block) || fresh(bufs.block))
    ensures Joined(bufs.Contents()) == old(Joined(bufs.Contents())) + data[base..base + len]
    ensures bufs.count == old(bufs.count) + 1 && bufs.total == old(bufs.total) + len
  {
    var v := IoVec(data, base, len);
    ghost var vs := bufs.Contents();
    var _ := bufs.Append(v, true);
    OneMore(vs, v);
  }

  /** Three bytes, the last of them first, and what is left of the number. */
  method Store24(tag: array<Byte>, at: nat, v0: nat) returns (v: nat)
    requires at + 3 <= tag.Length
    modifies tag
    ensures tag[at] == UI24(v0)[0] && tag[at + 1] == UI24(v0)[1] && tag[at + 2] == UI24(v0)[2]
    ensures forall i :: 0 <= i < tag.Length && !(at <= i < at + 3) ==> tag[i] == old(tag[i])
    ensures v == v0 / 256 / 256 / 256
  {
    v := v0;
    tag[at + 2] := v % 256;
    v := v / 256;
    tag[at + 1] := v % 256;
    v := v / 256;
    tag[at] := v % 256;
    v := v / 256;
  }

  /** flv_hdr: the numbers that change from tag to tag; sizes are assumed to be less than 2^24. */
  method FlvHdr(tag: array<Byte>, previous: nat, size: nat, ms: nat)
    requires tag.Length == 30 && tag[0] == 0 && tag[12] == tag[13] == tag[14] == 0
    modifies tag
    ensures tag[..15] == TagHead(previous, old(tag[4]), size, ms)
    ensures tag[15..] == old(tag[15..]) && tag[0] == 0 && tag[12] == tag[13] == tag[14] == 0 && tag[4] == old(tag[4])
  {
    hide UI24;
    var _ := Store24(tag, 1, previous);
    var _ := Store24(tag, 5, size);
    var v := Store24(tag, 8, ms);
    tag[11] := v % 256;
  }

  lemma NonePacked(codec: Byte, ms: nat, frames: seq<Frame>, meta: Option<seq<Byte>>)
    ensures Packed(codec, ms, frames[..0], meta) == []
    ensures CodecAfter(codec, frames[..0]) == codec && MsAfter(ms, frames[..0]) == ms
  {
  }

  lemma MorePacked(codec: Byte, ms: nat, frames: seq<Frame>, n: nat, meta: Option<seq<Byte>>)
    requires n < |frames|
    ensures
      var before, after, f := frames[..n], frames[..n + 1], frames[n];
      && CodecAfter(codec, after) == Codec(CodecAfter(codec, before), f) && MsAfter(ms, after) == f.endsAt
      && forall tags: seq<Tag> ::
           tags + Packed(codec, ms, before, meta)
             + (if n == 0 && meta != None then [Tag(SCRIPT, MsAfter(ms, before), meta.value)] else [])
             + [Tag(AUDIO, MsAfter(ms, before), [Codec(CodecAfter(codec, before), f)] + f.data)]
           == tags + Packed(codec, ms, after, meta)
  {
    assert frames[..n + 1][..n] == frames[..n];
  }

  lemma {:induction false} CutLength(vs: seq<IoVec>, skip: nat)
    requires AllValid(vs) && skip <= |Joined(vs)|
    ensures |Joined(CutAt(vs, skip))| == |Joined(vs)| - skip
  {
    if vs != [] {
      if skip >= vs[0].len {
        CutLength(vs[1..], skip - vs[0].len);
      } else {
        assert CutAt(vs, skip)[1..] == vs[1..];
      }
    }
  }

  lemma WireIsPart(earlier: seq<Byte>, all: seq<Byte>, pos: nat, n: nat)
    requires pos + n <= |all|
    ensures earlier + all[..pos] + all[pos..pos + n] == earlier + all[..pos + n]
    ensures earlier + all[..pos] <= earlier + all[..pos + n] <= earlier + all
    ensures pos + n == |all| ==> all[..pos + n] == all
  {
  }

  lemma Regroup(earlier: seq<Byte>, before: seq<Byte>, header: seq<Byte>, body: seq<Byte>, head: seq<Byte>,
                more: seq<Byte>, data: seq<Byte>)
    requires earlier + before == header + body
    ensures earlier + (before + (head + more) + data[0..|data|]) == header + (body + (head + (more + data)))
  {
    assert earlier + (before + (head + more) + data[0..|data|]) == (earlier + before) + (head + (more + data));
  }

  lemma Extended(earlier: seq<Byte>, before: seq<Byte>, tags: seq<Tag>, t: Tag, head: seq<Byte>, more: seq<Byte>,
                 data: seq<Byte>)
    requires earlier + before == FILE_HEADER + Body(0, tags) && t.data == more + data
    requires head == TagHead(LastSize(0, tags), t.kind, |t.data|, t.timestamp)
    ensures earlier + (before + (head + more) + data[0..|data|]) == FILE_HEADER + Body(0, tags + [t])
  {
    BodySnoc(0, tags, t);
    hide Body, TagHead;
    Regroup(earlier, before, FILE_HEADER, Body(0, tags), head, more, data);
  }

  /** One client's output. */
  class FlvClient {
    const con: Connection
    const bufs: ConnBufs
    const wrapper: array<Byte>
    const tag: array<Byte>
    var prevTagsize: nat
    var prevMs: nat
    var wrapperOffset: nat
    var blockPos: nat
    var checkMeta: bool            // FLV_CHK_META
    var sentBytes: nat             // connection.sent_bytes

    ghost var earlier: seq<Byte>   // sent with vectors that are done with
    ghost var tags: seq<Tag>       // put into vectors so far
    ghost var started: bool

    ghost predicate TagOkay()
      reads this, tag
    {
      tag.Length == 30 && tag[0] == 0 && tag[12] == tag[13] == tag[14] == 0 && tag[4] == AUDIO
    }

    /** All that was put into vectors: the file header and a body. */
    ghost function Stream(): seq<Byte>
      reads this
    {
      if started then FILE_HEADER + Body(0, tags) else []
    }

    /** The vector continues what was sent before, and all of it is the stream. */
    ghost predicate Filling()
      reads this, bufs, bufs.block, tag
    {
      && tag != wrapper && wrapper.Length == WRAPPER && TagOkay() && bufs.Valid()
      && wrapperOffset <= WRAPPER
      && prevTagsize == LastSize(0, tags)
      && earlier + Joined(bufs.Contents()) == Stream() && (!started ==> tags == [])
      && (checkMeta ==> wrapperOffset <= |FILE_HEADER|)
    }

    ghost predicate Valid()
      reads this, con, bufs, bufs.block, tag
    {
      && Filling() && blockPos <= bufs.total
      && con.wire == earlier + Joined(bufs.Contents())[..blockPos] && sentBytes == |con.wire|
      && (wrapperOffset == 0 ==> blockPos == bufs.total == 0)
      && (started ==> sentBytes > 0 || wrapperOffset > 0)
    }

    /** flv_create_client_data, for MPEG audio */
    constructor ()
      ensures Valid() && !started && tags == [] && wrapperOffset == sentBytes == prevMs == 0 && tag[15] == 0x22
      ensures fresh(con) && fresh(bufs) && fresh(bufs.block) && fresh(wrapper) && fresh(tag)
    {
      con := new Connection();
      bufs := new ConnBufs(10);
      wrapper := new Byte[WRAPPER](_ => 0);
      tag := new Byte[30](i => if i == 4 then AUDIO else if i == 15 then 0x22 else 0);
      prevTagsize, prevMs, wrapperOffset, blockPos, checkMeta, sentBytes := 0, 0, 0, 0, false, 0;
      earlier, tags, started := [], [], false;
    }

    /** What is in the wrapper from its offset on is the head of a tag; it is put into the vector with the data. */
    method AppendTag(n: nat, kind: Byte, data: seq<Byte>)
      requires bufs.Valid() && 15 <= n <= 16 && wrapperOffset + n <= wrapper.Length && |data| <= 0xFFFFFF
      requires wrapper[wrapperOffset..wrapperOffset + 15] == TagHead(LastSize(0, tags), kind, n - 15 + |data|, prevMs)
      requires earlier + Joined(bufs.Contents()) == Stream() && started
      modifies this`wrapperOffset, this`tags, bufs, bufs.block
      ensures bufs.Valid() && wrapperOffset == old(wrapperOffset) + n
          && (bufs.block == old(bufs.block) || fresh(bufs.block))
      ensures tags == old(tags) + [Tag(kind, prevMs, old(wrapper[wrapperOffset + 15..wrapperOffset + n]) + data)]
      ensures earlier + Joined(bufs.Contents()) == Stream() && bufs.total >= old(bufs.total)
    {
      hide Body, TagHead, Joined, LastSize;
      ghost var before := Joined(bufs.Contents());
      var bytes := wrapper[..];
      ghost var head, more := bytes[wrapperOffset..wrapperOffset + 15], bytes[wrapperOffset + 15..wrapperOffset + n];
      assert bytes[wrapperOffset..wrapperOffset + n] == head + more;
      AppendBytes(bufs, bytes, wrapperOffset, n);
      AppendBytes(bufs, data, 0, |data|);
      Extended(earlier, before, tags, Tag(kind, prevMs, more + data), head, more, data);
      tags := tags + [Tag(kind, prevMs, more + data)];
      wrapperOffset := wrapperOffset + n;
    }

    /** `n` bytes of the tag are copied to the wrapper. */
    method CopyTag(n: nat)
      requires 15 <= n <= 30 == tag.Length && wrapperOffset + n <= wrapper.Length && tag != wrapper
      modifies wrapper
      ensures wrapper[wrapperOffset..wrapperOffset + 15] == tag[..15]
      ensures wrapper[wrapperOffset + 15..wrapperOffset + n] == tag[15..n]
    {
      forall i | 0 <= i < n {
        wrapper[wrapperOffset + i] := tag[i];
      }
      assert forall i :: 15 <= i < n ==> wrapper[wrapperOffset + i] == tag[i];
      assert wrapper[wrapperOffset + 15..wrapperOffset + n] == tag[15..n];
    }

    /** flv_write_metadata, for metadata that was built before */
    method WriteMetadata(meta: seq<Byte>)
      requires Filling() && started && wrapperOffset + 15 <= WRAPPER && |meta| <= 0xFFFFFF && !checkMeta
      modifies this, wrapper, tag, bufs, bufs.block
      ensures Filling() && started && wrapperOffset == old(wrapperOffset) + 15 && !checkMeta
      ensures tags == old(tags) + [Tag(SCRIPT, prevMs, meta)] && bufs.total >= old(bufs.total)
      ensures bufs.block == old(bufs.block) || fresh(bufs.block)
      ensures prevMs == old(prevMs) && earlier == old(earlier)
      ensures sentBytes == old(sentBytes) && blockPos == old(blockPos)
      ensures tag[15] == old(tag[15])
    {
      var prevType := tag[4];
      tag[4] := SCRIPT;
      FlvHdr(tag, prevTagsize, |meta|, prevMs);
      CopyTag(15);
      ghost var none := wrapper[wrapperOffset + 15..wrapperOffset + 15];
      assert none + meta == meta;
      AppendTag(15, SCRIPT, meta);
      prevTagsize := |meta| + FLVHEADER;
      tag[4] := prevType;
    }

    /** The tag of a frame, whose data begins with the audio parameters. */
    ghost function FrameTag(f: Frame): Tag
      reads this, tag
      requires tag.Length == 30
    {
      Tag(AUDIO, prevMs, [Codec(tag[15], f)] + f.data)
    }

    method SetCodec(f: Frame)
      requires tag.Length == 30
      modifies tag
      ensures tag[15] == Codec(old(tag[15]), f) && tag[..15] == old(tag[..15])
      ensures forall i :: 0 <= i < 15 ==> tag[i] == old(tag[i])
    {
      if tag[15] == 0x22 {
        match f.sampleRate {
          case 11025 => tag[15] := tag[15] + 4;
          case 22050 => tag[15] := tag[15] + 8;
          case _ => tag[15] := tag[15] + 12;
        }
        if f.stereo {
          tag[15] := tag[15] + 1;
        }
      }
    }

    method PutFrame(f: Frame)
      requires Filling() && started && |f.data| <= 0xFFFFFF && !checkMeta && wrapperOffset + 16 <= WRAPPER
      modifies this, wrapper, tag, bufs, bufs.block
      ensures Filling() && started && bufs.total >= old(bufs.total)
          && (bufs.block == old(bufs.block) || fresh(bufs.block))
      ensures earlier == old(earlier) && sentBytes == old(sentBytes) && blockPos == old(blockPos)
      ensures wrapperOffset == old(wrapperOffset) + 16 && !checkMeta
      ensures prevMs == f.endsAt && tag[15] == Codec(old(tag[15]), f)
      ensures tags == old(tags) + [old(FrameTag(f))]
    {
      hide Body, TagHead, Joined, Codec;
      FlvHdr(tag, prevTagsize, |f.data| + 1, prevMs);
      assert tag[15] == old(tag[15..])[0];
      SetCodec(f);
      CopyTag(16);
      assert tag[15..16] == [tag[15]];
      AppendTag(16, AUDIO, f.data);
      prevMs := f.endsAt;
      prevTagsize := |f.data| + FLVHEADER + 1;
    }

    /**
     flv_mpX_hdr: what is put before a frame, and the frame; refused if the wrapper is full.
     `meta` is metadata that was built before and has not been sent.
     */
    method MpxHdr(f: Frame, meta: Option<seq<Byte>>) returns (ret: int)
      requires Filling() && started && |f.data| <= 0xFFFFFF && (meta != None ==> |meta.value| <= 0xFFFFFF)
      modifies this, wrapper, tag, bufs, bufs.block
      ensures Filling() && started && bufs.total >= old(bufs.total)
          && (bufs.block == old(bufs.block) || fresh(bufs.block))
      ensures earlier == old(earlier) && sentBytes == old(sentBytes) && blockPos == old(blockPos)
      ensures ret == -1 <==> old(wrapperOffset) + 16 > WRAPPER
      ensures
        ret == -1 ==>
          && wrapperOffset == old(wrapperOffset) && tags == old(tags)
          && checkMeta == old(checkMeta) && bufs.total == old(bufs.total)
          && prevMs == old(prevMs) && tag[15] == old(tag[15])
      ensures
        ret != -1 ==>
          && ret == 0 && !checkMeta && prevMs == f.endsAt && tag[15] == Codec(old(tag[15]), f)
          && wrapperOffset == old(wrapperOffset) + (if old(checkMeta) && meta != None then 15 else 0) + 16
          && tags == old(tags) + (if old(checkMeta) && meta != None then [Tag(SCRIPT, old(prevMs), meta.value)] else [])
                     + [old(FrameTag(f))]
    {
      if wrapperOffset + 16 > wrapper.Length {
        return -1;
      }
      ghost var first := tags;
      if checkMeta {
        checkMeta := false;
        if meta != None {
          WriteMetadata(meta.value);
        }
      }
      ghost var second := tags;
      assert second == first + if old(checkMeta) && meta != None then [Tag(SCRIPT, old(prevMs), meta.value)] else [];
      PutFrame(f);
      ret := 0;
    }

    /** A new vector, which begins with the file header if nothing has been sent. */
    method Begin()
      requires Valid() && wrapperOffset == 0
      modifies this`wrapperOffset, this`started, this`checkMeta, wrapper, bufs, bufs.block
      ensures Filling() && started && checkMeta && (bufs.block == old(bufs.block) || fresh(bufs.block))
      ensures wrapperOffset == (if sentBytes == 0 then |FILE_HEADER| else 0)
      ensures (wrapperOffset == 0 ==> bufs.total == 0) && (sentBytes > 0 || wrapperOffset > 0) && con.wire == earlier
    {
      wrapperOffset := 0;
      bufs.Flush();
      checkMeta := true;
      assert Body(0, []) == [];
      if sentBytes == 0 {
        forall i | 0 <= i < 9 {
          wrapper[i] := FILE_HEADER[i];
        }
        assert wrapper[0..9] == FILE_HEADER;
        AppendBytes(bufs, wrapper[..], 0, 9);
        wrapperOffset := wrapperOffset + 9;
        started := true;
      }
    }

    /** The frames of a block, until the wrapper is full. */
    method PackFrames(frames: seq<Frame>, meta: Option<seq<Byte>>) returns (n: nat)
      requires Filling() && started && checkMeta
      requires forall i :: 0 <= i < |frames| ==> |frames[i].data| <= 0xFFFFFF
      requires meta != None ==> |meta.value| <= 0xFFFFFF
      modifies this, wrapper, tag, bufs, bufs.block
      ensures Filling() && started && bufs.total >= old(bufs.total)
          && (bufs.block == old(bufs.block) || fresh(bufs.block))
      ensures earlier == old(earlier) && sentBytes == old(sentBytes) && blockPos == old(blockPos)
      ensures wrapperOffset == old(wrapperOffset) + if n == 0 then 0 else HeadLength(false, meta) + 16 * n
      ensures n <= |frames| && wrapperOffset <= WRAPPER && (n < |frames| ==> wrapperOffset + 16 > WRAPPER)
      ensures n == 0 ==> bufs.total == old(bufs.total)
      ensures tags == old(tags) + Packed(old(tag[15]), old(prevMs), frames[..n], meta)
      ensures tag[15] == CodecAfter(old(tag[15]), frames[..n]) && prevMs == MsAfter(old(prevMs), frames[..n])
    {
      assert tag.Length == 30;
      hide Filling, Codec, Packed, CodecAfter, MsAfter, HeadLength, Stream;
      n := 0;
      NonePacked(old(tag[15]), old(prevMs), frames, meta);
      while n < |frames|
        invariant n <= |frames| && Filling() && started && checkMeta == (n == 0)
        invariant bufs.total >= old(bufs.total) && (bufs.block == old(bufs.block) || fresh(bufs.block))
        invariant earlier == old(earlier) && sentBytes == old(sentBytes) && blockPos == old(blockPos)
        invariant wrapperOffset == old(wrapperOffset) + if n == 0 then 0 else HeadLength(false, meta) + 16 * n
        invariant n == 0 ==> bufs.total == old(bufs.total)
        invariant tag[15] == CodecAfter(old(tag[15]), frames[..n]) && prevMs == MsAfter(old(prevMs), frames[..n])
        invariant tags == old(tags) + Packed(old(tag[15]), old(prevMs), frames[..n], meta)
      {
        MorePacked(old(tag[15]), old(prevMs), frames, n, meta);
        var ret := MpxHdr(frames[n], meta);
        if ret < 0 {
          break;
        }
        n := n + 1;
      }
    }

    /**
     The part of write_flv_buf_to_client that packs a block: as many of its frames as the
     wrapper has room for. The others are never sent, as the block is done with once the
     vector has been sent.
     */
    method Pack(frames: seq<Frame>, meta: Option<seq<Byte>>) returns (n: nat)
      requires Valid() && wrapperOffset == 0
      requires forall i :: 0 <= i < |frames| ==> |frames[i].data| <= 0xFFFFFF
      requires meta != None ==> |meta.value| <= 0xFFFFFF
      modifies this, wrapper, tag, bufs, bufs.block
      ensures Valid() && started && (bufs.block == old(bufs.block) || fresh(bufs.block))
      ensures n == Fitting(old(sentBytes) == 0, meta, |frames|)
      ensures tags == old(tags) + Packed(old(tag[15]), old(prevMs), frames[..n], meta)
      ensures tag[15] == CodecAfter(old(tag[15]), frames[..n]) && prevMs == MsAfter(old(prevMs), frames[..n])
    {
      hide Filling, Packed, Fitting, Stream, Joined, CodecAfter, MsAfter;
      Begin();
      n := PackFrames(frames, meta);
      assert blockPos == 0;
      FittingIs(sentBytes == 0, meta, |frames|, n);
    }

    method Done(ghost all: seq<Byte>)
      requires con.error || (Valid() && all == Joined(bufs.Contents()) && blockPos == bufs.total)
      modifies this`blockPos, this`wrapperOffset, this`earlier, bufs
      ensures wrapperOffset == 0 && (con.error || (Valid() && con.wire == Stream()))
    {
      hide Body;
      blockPos, wrapperOffset := 0, 0;
      assert all[..|all|] == all && Joined([]) == [];
      earlier := earlier + all;
      bufs.Flush();
    }

    /** send_flv_buffer: what the socket takes is skipped the next time; a vector that is done with is dropped. */
    method SendFlvBuffer(net: Net) returns (ret: int)
      requires Valid()
      modifies this`blockPos, this`wrapperOffset, this`sentBytes, this`earlier, con, bufs, bufs.block
      ensures con.error || Valid()
      ensures old(con.wire) <= con.wire <= Stream() && tags == old(tags) && started == old(started)
      ensures ret == if old(blockPos == bufs.total) then 0 else NetTook(net, CutAt(old(bufs.Contents()), old(blockPos)))
      ensures |con.wire| == |old(con.wire)| + Positive(ret)
      ensures
        con.error <==>
          || old(con.error)
          || (old(blockPos != bufs.total) && NetFails(net, CutAt(old(bufs.Contents()), old(blockPos))))
      ensures !con.error && wrapperOffset == 0 ==> con.wire == Stream()
      ensures wrapperOffset == if old(blockPos) + Positive(ret) == old(bufs.total) then 0 else old(wrapperOffset)
    {
      hide Body, Joined, AtBoundary, LastSize, NetTook, NetFails, CutAt;
      ret := 0;
      var len := bufs.total - blockPos;
      ghost var all := Joined(bufs.Contents());
      WireIsPart(earlier, all, blockPos, 0);
      if len > 0 {
        ret := bufs.Send(con, blockPos, net);
        WireIsPart(earlier, all, blockPos, if ret > 0 then ret else 0);
        if ret > 0 {
          sentBytes := sentBytes + ret;
          blockPos := blockPos + ret;
        }
      }
      if blockPos == bufs.total {
        Done(all);
      }
    }

    /** What is left of the vector is what is left of the stream. */
    lemma LeftToSend()
      requires Valid()
      ensures |Joined(CutAt(bufs.Contents(), blockPos))| == bufs.total - blockPos == |Stream()| - |con.wire|
    {
      CutLength(bufs.Contents(), blockPos);
    }

    /** write_flv_buf_to_client: a block is packed when the one before it has been sent; whether this one has. */
    method WriteFlvBuf(frames: seq<Frame>, meta: Option<seq<Byte>>, net: Net) returns (ret: int, sent: bool)
      requires Valid()
      requires forall i :: 0 <= i < |frames| ==> |frames[i].data| <= 0xFFFFFF
      requires meta != None ==> |meta.value| <= 0xFFFFFF
      modifies this, wrapper, tag, con, bufs, bufs.block
      ensures con.error || Valid()
      ensures con.wire <= Stream() && (!con.error && sent ==> wrapperOffset == 0 && con.wire == Stream())
      ensures |con.wire| == |old(con.wire)| + Positive(ret)
      ensures old(con.error) ==> con.error
      ensures !con.error ==> (sent <==> con.wire == Stream())
      ensures net.Plain? && |Stream()| > |old(con.wire)| ==>
                (con.error <==> old(con.error) || net.gone || (net.written < 0 && !net.recoverable))
      ensures net.Plain? && |Stream()| > |old(con.wire)| ==>
                ret == if net.gone then -1 else Took(net.written, |Stream()| - |old(con.wire)|)
      ensures
        if old(wrapperOffset) != 0 then tags == old(tags)
        else
          var n := Fitting(old(sentBytes) == 0, meta, |frames|);
          tags == old(tags) + Packed(old(tag[15]), old(prevMs), frames[..n], meta)
      ensures
        var n := if old(wrapperOffset) != 0 then 0 else Fitting(old(sentBytes) == 0, meta, |frames|);
        tag[15] == CodecAfter(old(tag[15]), frames[..n]) && prevMs == MsAfter(old(prevMs), frames[..n])
    {
      NonePacked(tag[15], prevMs, frames, meta);
      hide Packed, Body, Joined, AtBoundary, Fitting, CodecAfter, MsAfter;
      if wrapperOffset == 0 {
        var _ := Pack(frames, meta);
      }
      LeftToSend();
      ret := SendFlvBuffer(net);
      sent := wrapperOffset == 0;
    }
  }

  /** What a client has been sent at the end of a block is a file whose body gives back every tag. */
  lemma SentParses(c: FlvClient)
    requires c.Valid() && c.started && c.con.wire == c.Stream()
    requires forall i :: 0 <= i < |c.tags| ==> TagOk(c.tags[i])
    ensures |c.con.wire| >= 9 && c.con.wire[..9] == FILE_HEADER && ParseBody(c.con.wire[9..], 0) == Some(c.tags)
  {
    BodyParses(0, c.tags);
    assert c.con.wire[9..] == Body(0, c.tags);
  }

  lemma {:induction false} PackedCount(codec: Byte, ms: nat, frames: seq<Frame>)
    ensures |Packed(codec, ms, frames, None)| == |FrameTags(codec, ms, frames)| == |frames|
  {
    if frames != [] {
      PackedCount(codec, ms, frames[..|frames| - 1]);
    }
  }

  /**
   Any first block of 64 frames: whatever the network does, the first 63 are put into the
   stream, and once those are sent the block is done.
   */
  method FrameIsLost(frames: seq<Frame>, net: Net) returns (c: FlvClient, sent: bool)
    requires |frames| == 64 && forall i :: 0 <= i < |frames| ==> |frames[i].data| <= 0xFFFFFF
    ensures c.tags == Packed(0x22, 0, frames[..63], None) && |c.tags| == 63 && (c.con.error || c.Valid())
    ensures sent && !c.con.error ==> c.wrapperOffset == 0 && c.con.wire == c.Stream()
  {
    c := new FlvClient();
    hide Body, Joined, Packed, Fitting;
    FittingIs(true, None, 64, 63);
    PackedCount(0x22, 0, frames[..63]);
    var ret;
    ret, sent := c.WriteFlvBuf(frames, None, net);
  }
}
