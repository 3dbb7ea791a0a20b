/**
 Output to a listener that asked for inline metadata: send_icy_metadata and
 format_mp3_write_buf_to_client of src/format_mp3.c, for any pattern of short writes.
 */
module IcyWriter {
  import opened Bytes
  import opened IcyStream
  import opened Vectors
  import opened Wrappers

  /** A metadata_block; `id` stands for its address. */
  datatype Meta = Meta(id: nat, icy: seq<Byte>)

  /** A block of the queue: audio, and the metadata that applies to it. */
  datatype Block = Block(data: seq<Byte>, associated: Option<Meta>)

  const BLANK: Meta := Meta(0, [1] + Text("StreamTitle='';") + [0])

  predicate MetaOk(m: Meta) {
    BlockOk(m.icy) && m.icy[0] != 0
  }

  predicate QueueOk(b: Block) {
    b.associated == None || MetaOk(b.associated.value)
  }

  function MetaOf(b: Block): (m: Meta)
    requires QueueOk(b)
    ensures MetaOk(m)
  {
    if b.associated == None then BLANK else b.associated.value
  }

  /**
   The wire carries whole frames, then `partial` audio of the next one, then a `part` of
   its metadata block; all the audio together is what was consumed of the queue.
   */
  ghost predicate OnWire(interval: nat, wire: seq<Byte>, frames: seq<Frame>, partial: seq<Byte>, part: seq<Byte>,
                         consumed: seq<Byte>)
  {
    && FramesOk(interval, frames)
    && |partial| <= interval
    && wire == Wire(frames) + partial + part
    && consumed == Audio(frames) + partial
  }

  lemma PartialFits(interval: nat, wire: seq<Byte>, frames: seq<Frame>, partial: seq<Byte>, part: seq<Byte>,
                    consumed: seq<Byte>)
    requires OnWire(interval, wire, frames, partial, part, consumed)
    ensures |partial| <= interval
  {
  }

  lemma AudioSent(interval: nat, wire: seq<Byte>, frames: seq<Frame>, partial: seq<Byte>, consumed: seq<Byte>,
                  audio: seq<Byte>)
    requires OnWire(interval, wire, frames, partial, [], consumed) && |partial| + |audio| <= interval
    ensures OnWire(interval, wire + audio, frames, partial + audio, [], consumed + audio)
  {
    assert Wire(frames) + partial + [] + audio == Wire(frames) + (partial + audio) + [];
    assert Audio(frames) + partial + audio == Audio(frames) + (partial + audio);
  }

  lemma PartSent(interval: nat, wire: seq<Byte>, frames: seq<Frame>, partial: seq<Byte>, part: seq<Byte>,
                 consumed: seq<Byte>, more: seq<Byte>)
    requires OnWire(interval, wire, frames, partial, part, consumed)
    ensures OnWire(interval, wire + more, frames, partial, part + more, consumed)
  {
    assert Wire(frames) + partial + part + more == Wire(frames) + partial + (part + more);
  }

  lemma BlockSent(interval: nat, wire: seq<Byte>, frames: seq<Frame>, partial: seq<Byte>, part: seq<Byte>,
                  consumed: seq<Byte>, rest: seq<Byte>, audio: seq<Byte>)
    requires OnWire(interval, wire, frames, partial, part, consumed)
    requires |partial| == interval && BlockOk(part + rest) && |audio| <= interval
    ensures OnWire(interval, wire + (rest + audio), frames + [Frame(partial, part + rest)], audio, [], consumed + audio)
  {
    var f := Frame(partial, part + rest);
    var fs := frames + [f];
    assert fs[..|fs| - 1] == frames && fs[|fs| - 1] == f;
    assert Wire(fs) == Wire(frames) + (partial + (part + rest));
    assert Wire(frames) + partial + part + (rest + audio) == Wire(fs) + audio + [];
  }

  lemma EarlierMore(earlier: seq<Byte>, data: seq<Byte>, pos: nat, n: nat)
    requires pos + n <= |data|
    ensures earlier + data[..pos + n] == earlier + data[..pos] + data[pos..pos + n]
  {
    assert data[..pos + n] == data[..pos] + data[pos..pos + n];
  }

  lemma TakeOfSlice<T>(s: seq<T>, pos: nat, len: nat, n: nat)
    requires pos + len <= |s| && n <= len
    ensures s[pos..pos + len][..n] == s[pos..pos + n]
  {
  }

  function Gathered(metadata: seq<Byte>, data: seq<Byte>, pos: nat, blockLen: nat): (r: seq<IoVec>)
    requires pos + blockLen <= |data|
    ensures AllValid(r)
  {
    [IoVec(metadata, 0, |metadata|)] + if blockLen != 0 then [IoVec(data, pos, blockLen)] else []
  }

  lemma CutAtStart(vs: seq<IoVec>, n: nat)
    requires AllValid(vs) && vs != [] && vs[0].len == n > 0
    ensures CutAt(vs, 0) == vs
  {
  }

  lemma GatheredBytes(vs: seq<IoVec>, metadata: seq<Byte>, audio: seq<Byte>)
    requires AllValid(vs) && 1 <= |vs| <= 2 && vs[0].Bytes() == metadata
    requires if |vs| == 2 then vs[1].Bytes() == audio else audio == []
    ensures Joined(vs) == metadata + audio
  {
    JoinedNext(vs, 0);
    assert vs[0..] == vs;
    if |vs| == 2 {
      JoinedNext(vs, 1);
      assert vs[2..] == [];
    } else {
      assert vs[1..] == [];
    }
  }

  lemma TakeOfConcat<T>(s: seq<T>, t: seq<T>, n: nat)
    requires n <= |s| + |t|
    ensures n >= |s| ==> (s + t)[0..n] == s + t[..n - |s|]
    ensures n < |s| ==> (s + t)[0..n] == s[..n]
  {
  }

  /** The rest of the metadata block and the audio after it go out in one vector. */
  method SendGathered(con: Connection, metadata: seq<Byte>, data: seq<Byte>, pos: nat, blockLen: nat, net: Net)
    returns (ret: int)
    requires pos + blockLen <= |data| && 0 < |metadata| <= 4081 && blockLen <= 0xFFFF
    modifies con
    ensures -1 <= ret <= |metadata| + blockLen && ret == NetTook(net, Gathered(metadata, data, pos, blockLen))
    ensures ret >= |metadata| ==> con.wire == old(con.wire) + (metadata + data[pos..pos + (ret - |metadata|)])
    ensures 0 < ret < |metadata| ==> con.wire == old(con.wire) + metadata[..ret]
    ensures ret <= 0 ==> con.wire == old(con.wire)
    ensures con.error <==> old(con.error) || NetFails(net, Gathered(metadata, data, pos, blockLen))
  {
    var bufs := new ConnBufs(2);
    var _ := bufs.Append(IoVec(metadata, 0, |metadata|), true);
    if blockLen != 0 {
      var _ := bufs.Append(IoVec(data, pos, blockLen), true);
    }
    ghost var audio := data[pos..pos + blockLen];
    assert bufs.Contents() == Gathered(metadata, data, pos, blockLen);
    hide NetTook, NetFails, Joined, AtBoundary;
    CutAtStart(bufs.Contents(), |metadata|);
    GatheredBytes(bufs.Contents(), metadata, audio);
    ret := bufs.Send(con, 0, net);
    if ret > 0 {
      TakeOfConcat(metadata, audio, ret);
      if ret >= |metadata| {
        TakeOfSlice(data, pos, blockLen, ret - |metadata|);
      }
    }
  }

  // -------------------------------------------------------------------- what is sent of a queue's metadata

  /** The metadata that applies to a block, which is a block of an empty title if there is none. */
  function AppliesTo(b: Block): Meta {
    match b.associated
    case None => Meta(0, [1] + Text("StreamTitle='';") + [0])
    case Some(m) => m
  }

  ghost function Data(queue: seq<Block>): seq<Byte> {
    if queue == [] then [] else queue[0].data + Data(queue[1..])
  }

  /** The metadata that applies to the byte at `at` of what the queue holds. */
  ghost function AppliesAt(queue: seq<Block>, at: nat): Meta
    requires at < |Data(queue)|
  {
    if at < |queue[0].data| then AppliesTo(queue[0]) else AppliesAt(queue[1..], at - |queue[0].data|)
  }

  /** Where the byte is that comes after `i` more intervals than one. */
  ghost function EndOf(interval: nat, i: nat): nat {
    interval + i * interval
  }

  /** The queue holds what was given to a listener: earlier blocks, and the one it is in. */
  ghost predicate Given(queue: seq<Block>, refbuf: Block, earlier: seq<Byte>) {
    queue != [] && queue[|queue| - 1] == refbuf && earlier == Data(queue[..|queue| - 1])
  }

  ghost predicate AllQueueOk(queue: seq<Block>) {
    forall i :: 0 <= i < |queue| ==> QueueOk(queue[i])
  }

  /** At the end of an interval comes the metadata that applies to the next byte, or one NUL if it did before. */
  ghost predicate SentAt(interval: nat, queue: seq<Block>, frames: seq<Frame>, i: nat)
    requires i < |frames|
  {
    && EndOf(interval, i) < |Data(queue)|
    && (i > 0 ==> EndOf(interval, i - 1) < |Data(queue)|)
    && var m := AppliesAt(queue, EndOf(interval, i));
       frames[i].block
       == if i > 0 && AppliesAt(queue, EndOf(interval, i - 1)) == m then [0] else m.icy
  }

  ghost predicate AllSent(interval: nat, queue: seq<Block>, frames: seq<Frame>) {
    forall i :: 0 <= i < |frames| ==> SentAt(interval, queue, frames, i)
  }

  /** The metadata sent last is that of the last interval. */
  ghost predicate LastSent(interval: nat, queue: seq<Block>, frames: seq<Frame>, associated: Option<Meta>) {
    if frames == [] then associated == None
    else
      EndOf(interval, |frames| - 1) < |Data(queue)|
      && associated == Some(AppliesAt(queue, EndOf(interval, |frames| - 1)))
  }

  lemma {:induction false} DataSnoc(queue: seq<Block>, b: Block)
    ensures Data(queue + [b]) == Data(queue) + b.data
    decreases |queue|
  {
    if queue == [] {
      assert [b][1..] == [];
    } else {
      DataSnoc(queue[1..], b);
      assert (queue + [b])[1..] == queue[1..] + [b];
    }
  }

  lemma {:induction false} AppliesEarlier(queue: seq<Block>, b: Block, at: nat)
    requires at < |Data(queue)|
    ensures at < |Data(queue + [b])| && AppliesAt(queue + [b], at) == AppliesAt(queue, at)
    decreases |queue|
  {
    DataSnoc(queue, b);
    assert (queue + [b])[1..] == queue[1..] + [b];
    if at >= |queue[0].data| {
      AppliesEarlier(queue[1..], b, at - |queue[0].data|);
    }
  }

  lemma {:induction false} AppliesLast(queue: seq<Block>, b: Block, pos: nat)
    requires pos < |b.data|
    ensures |Data(queue)| + pos < |Data(queue + [b])|
    ensures AppliesAt(queue + [b], |Data(queue)| + pos) == AppliesTo(b)
    decreases |queue|
  {
    DataSnoc(queue, b);
    if queue != [] {
      AppliesLast(queue[1..], b, pos);
      assert (queue + [b])[1..] == queue[1..] + [b];
    }
  }

  lemma SentEarlier(interval: nat, queue: seq<Block>, b: Block, frames: seq<Frame>, i: nat)
    requires i < |frames| && SentAt(interval, queue, frames, i)
    ensures SentAt(interval, queue + [b], frames, i)
  {
    hide Data, AppliesAt, EndOf;
    AppliesEarlier(queue, b, EndOf(interval, i));
    if i > 0 {
      AppliesEarlier(queue, b, EndOf(interval, i - 1));
    }
  }

  lemma GivenNext(queue: seq<Block>, refbuf: Block, earlier: seq<Byte>, b: Block)
    requires Given(queue, refbuf, earlier)
    ensures Given(queue + [b], b, earlier + refbuf.data)
  {
    hide Data;
    var init := queue[..|queue| - 1];
    assert queue == init + [refbuf] && (queue + [b])[..|queue|] == queue;
    DataSnoc(init, refbuf);
  }

  /** Another block given changes nothing of what was sent. */
  lemma GivenMore(interval: nat, queue: seq<Block>, b: Block, frames: seq<Frame>, associated: Option<Meta>)
    requires AllSent(interval, queue, frames) && LastSent(interval, queue, frames, associated)
    ensures AllSent(interval, queue + [b], frames) && LastSent(interval, queue + [b], frames, associated)
  {
    hide Data, AppliesAt, EndOf, SentAt;
    forall i | 0 <= i < |frames|
      ensures SentAt(interval, queue + [b], frames, i)
    {
      assert SentAt(interval, queue, frames, i);
      SentEarlier(interval, queue, b, frames, i);
    }
    if frames != [] {
      AppliesEarlier(queue, b, EndOf(interval, |frames| - 1));
    }
  }

  lemma {:induction false} AudioLength(interval: nat, frames: seq<Frame>)
    requires FramesOk(interval, frames)
    ensures |Audio(frames)| == |frames| * interval
  {
    if frames != [] {
      AudioLength(interval, frames[..|frames| - 1]);
      assert |frames| * interval == (|frames| - 1) * interval + interval;
    }
  }

  /** A block is completed with the metadata that applies to the next byte. */
  lemma SentMore(interval: nat, queue: seq<Block>, refbuf: Block, earlier: seq<Byte>, pos: nat, frames: seq<Frame>,
                 associated: Option<Meta>, f: Frame)
    requires Given(queue, refbuf, earlier) && pos < |refbuf.data|
    requires AllSent(interval, queue, frames) && LastSent(interval, queue, frames, associated)
    requires |earlier| + pos == EndOf(interval, |frames|)
    requires f.block == if associated == Some(AppliesTo(refbuf)) then [0] else AppliesTo(refbuf).icy
    ensures AllSent(interval, queue, frames + [f])
    ensures LastSent(interval, queue, frames + [f], Some(AppliesTo(refbuf)))
  {
    var init := queue[..|queue| - 1];
    assert queue == init + [refbuf];
    AppliesLast(init, refbuf, pos);
    hide Data, AppliesAt, EndOf, AppliesTo;
    forall i | 0 <= i < |frames| + 1
      ensures SentAt(interval, queue, frames + [f], i)
    {
      if i < |frames| {
        assert SentAt(interval, queue, frames, i);
      }
    }
  }

  lemma EndsGrow(interval: nat, i: nat)
    ensures i > 0 ==> EndOf(interval, i - 1) <= EndOf(interval, i)
  {
    assert i > 0 ==> i * interval == (i - 1) * interval + interval;
  }

  /** The metadata of the bytes at the interval ends, without that which applied at the end before. */
  ghost function Changes(interval: nat, queue: seq<Block>, n: nat): seq<seq<Byte>>
    requires n > 0 ==> EndOf(interval, n - 1) < |Data(queue)|
  {
    if n == 0 then []
    else
      EndsGrow(interval, n - 1);
      var m := AppliesAt(queue, EndOf(interval, n - 1));
      Changes(interval, queue, n - 1)
        + if n > 1 && AppliesAt(queue, EndOf(interval, n - 2)) == m then [] else [m.icy]
  }

  /** Where a listener is in its queue, and what it was sent. */
  datatype Progress = Progress(
    queue: seq<Block>,
    refbuf: Block,
    earlier: seq<Byte>,
    pos: nat,
    frames: seq<Frame>,
    partial: seq<Byte>,
    part: seq<Byte>,
    inMetadata: bool,
    metadataOffset: nat,
    associated: Option<Meta>)

  /** The metadata that applies here, or one NUL if that is what was sent last. */
  ghost function BlockHere(s: Progress): seq<Byte> {
    if s.associated == Some(AppliesTo(s.refbuf)) && !s.inMetadata then [0] else AppliesTo(s.refbuf).icy
  }

  /** What was begun is the metadata that applies here, to the byte. */
  ghost predicate Begun(s: Progress) {
    s.inMetadata ==>
      s.metadataOffset <= |AppliesTo(s.refbuf).icy| && s.part == AppliesTo(s.refbuf).icy[..s.metadataOffset]
  }

  /** All that was sent is as the queue says. */
  ghost predicate Faithful(interval: nat, s: Progress) {
    && Begun(s) && (s.inMetadata ==> s.associated != Some(AppliesTo(s.refbuf)))
    && Given(s.queue, s.refbuf, s.earlier) && AllQueueOk(s.queue) && AllSent(interval, s.queue, s.frames)
    && LastSent(interval, s.queue, s.frames, s.associated)
  }

  /** Of a block that was begun `taken` more bytes go out, or all of it and audio. */
  ghost predicate Sends(block: seq<Byte>, begun: seq<Byte>, taken: int, frames: seq<Frame>, audio: seq<Byte>,
                        frames': seq<Frame>, begun': seq<Byte>)
  {
    if taken >= |block| - |begun| then frames' == frames + [Frame(audio, block)] && begun' == []
    else frames' == frames && |begun| + Positive(taken) < |block| && begun' == block[..|begun| + Positive(taken)]
  }

  lemma FaithfulBegun(interval: nat, s: Progress)
    ensures Faithful(interval, s) ==> Begun(s)
  {
  }

  lemma StaysBegun(a: Progress, b: Progress, rest: seq<Byte>, ret: int)
    requires Begun(a) && |a.part| == a.metadataOffset < |BlockHere(a)| && (!a.inMetadata ==> a.part == [])
    requires rest == BlockHere(a)[|a.part|..] && b.refbuf == a.refbuf
    requires
      if ret >= |rest| then !b.inMetadata && b.part == [] && b.frames == a.frames + [Frame(a.partial, a.part + rest)]
      else
        && b.inMetadata == (a.inMetadata || ret > 0) && b.metadataOffset == a.metadataOffset + Positive(ret)
        && b.part == a.part + rest[..Positive(ret)] && b.frames == a.frames
    ensures Begun(b) && Sends(BlockHere(a), a.part, ret, a.frames, a.partial, b.frames, b.part)
    ensures a.part + rest == BlockHere(a)
  {
    hide AppliesTo;
    var block, n := BlockHere(a), |a.part| + Positive(ret);
    assert a.part == block[..|a.part|] && a.part + rest == block;
    if ret < |rest| {
      assert a.part + rest[..Positive(ret)] == block[..n];
    }
  }

  lemma StaysFaithful(interval: nat, a: Progress, b: Progress, rest: seq<Byte>, ret: int)
    requires Faithful(interval, a) && (!a.inMetadata ==> a.part == []) && a.part + rest == BlockHere(a) && Begun(b)
    requires a.pos < |a.refbuf.data| && |a.earlier| + a.pos == EndOf(interval, |a.frames|)
    requires b.queue == a.queue && b.refbuf == a.refbuf && b.earlier == a.earlier
    requires
      if ret >= |rest| then
        && !b.inMetadata && b.frames == a.frames + [Frame(a.partial, a.part + rest)]
        && b.associated == Some(AppliesTo(a.refbuf))
      else b.inMetadata == (a.inMetadata || ret > 0) && b.frames == a.frames && b.associated == a.associated
    ensures Faithful(interval, b)
  {
    hide AppliesTo, Given, AllSent, LastSent;
    if ret >= |rest| {
      SentMore(interval, a.queue, a.refbuf, a.earlier, a.pos, a.frames, a.associated, Frame(a.partial, a.part + rest));
    }
  }

  lemma AudioKeeps(interval: nat, a: Progress, pos: nat, partial: seq<Byte>)
    ensures Begun(a.(pos := pos, partial := partial)) <==> Begun(a)
    ensures Faithful(interval, a.(pos := pos, partial := partial)) <==> Faithful(interval, a)
  {
  }

  lemma {:induction false} AppliesIsOk(queue: seq<Block>, at: nat)
    requires at < |Data(queue)| && AllQueueOk(queue)
    ensures MetaOk(AppliesAt(queue, at))
    decreases |queue|
  {
    if at < |queue[0].data| {
      assert AppliesTo(queue[0]) == MetaOf(queue[0]);
    } else {
      AppliesIsOk(queue[1..], at - |queue[0].data|);
    }
  }

  lemma {:induction false} BlocksAre(interval: nat, queue: seq<Block>, frames: seq<Frame>)
    requires AllSent(interval, queue, frames) && AllQueueOk(queue)
    ensures frames != [] ==> EndOf(interval, |frames| - 1) < |Data(queue)|
    ensures Blocks(frames) == Changes(interval, queue, |frames|)
    decreases |frames|
  {
    hide EndOf, Data, AppliesTo;
    if frames != [] {
      var n := |frames| - 1;
      assert SentAt(interval, queue, frames, n);
      forall i | 0 <= i < n
        ensures SentAt(interval, queue, frames[..n], i)
      {
        assert SentAt(interval, queue, frames, i);
      }
      BlocksAre(interval, queue, frames[..n]);
      AppliesIsOk(queue, EndOf(interval, n));
    }
  }

  class Listener {
    const con: Connection
    const interval: nat           // an unsigned short that is not 0
    var refbuf: Block
    var pos: nat
    var sinceMetaBlock: nat
    var metadataOffset: nat
    var associated: Option<Meta>  // the metadata sent last
    var inMetadata: bool          // CLIENT_IN_METADATA

    ghost var earlier: seq<Byte>
    ghost var frames: seq<Frame>
    ghost var partial: seq<Byte>
    ghost var part: seq<Byte>     // sent of a metadata block that is not finished
    ghost var queue: seq<Block>   // the blocks given, unless the listener has moved

    ghost function Consumed(): seq<Byte>
      reads this
      requires pos <= |refbuf.data|
    {
      earlier + refbuf.data[..pos]
    }

    /** The wire is in order so far, whatever the block is whose metadata is due. */
    ghost predicate Framed()
      reads this, con
    {
      && 0 < interval < 0x10000
      && QueueOk(refbuf) && pos <= |refbuf.data|
      && sinceMetaBlock == |partial| && metadataOffset == |part|
      && (if inMetadata then
            && sinceMetaBlock == interval && part != [] && part[0] != 0 && |part| < BlockLength(part[0])
            && pos < |refbuf.data|
          else part == [])
      && OnWire(interval, con.wire, frames, partial, part, Consumed())
    }

    /** The metadata block to go on with has the length of the one that was begun. */
    ghost predicate InStep()
      reads this
      requires QueueOk(refbuf)
    {
      inMetadata ==> part != [] && |MetaOf(refbuf).icy| == BlockLength(part[0])
    }

    ghost predicate Valid()
      reads this, con
    {
      Framed() && InStep()
    }

    ghost function Now(): Progress
      reads this
    {
      Progress(queue, refbuf, earlier, pos, frames, partial, part, inMetadata, metadataOffset, associated)
    }

    constructor (interval: nat, first: Block)
      requires 0 < interval < 0x10000 && QueueOk(first)
      ensures Valid() && fresh(con) && Consumed() == [] && this.interval == interval && refbuf == first
      ensures frames == [] && associated == None && con.wire == [] && !inMetadata
      ensures Faithful(interval, Now()) && queue == [first]
    {
      con := new Connection();
      this.interval := interval;
      refbuf, pos, sinceMetaBlock, metadataOffset := first, 0, 0, 0;
      associated, inMetadata := None, false;
      earlier, frames, partial, part, queue := [], [], [], [], [first];
    }

    /** The queue moves on once a block is consumed: src/source.c:1159-1170. */
    method NextBlock(block: Block)
      requires Valid() && pos == |refbuf.data| && QueueOk(block)
      modifies this`refbuf, this`pos, this`earlier, this`queue
      ensures Valid() && refbuf == block && Consumed() == old(Consumed())
      ensures queue == old(queue) + [block] && (Faithful(interval, old(Now())) ==> Faithful(interval, Now()))
    {
      hide Given, AllSent, LastSent, OnWire, MetaOf;
      if Faithful(interval, Now()) {
        GivenNext(queue, refbuf, earlier, block);
        GivenMore(interval, queue, block, frames, associated);
        assert refbuf.data[..pos] == refbuf.data;
      }
      queue := queue + [block];
      earlier := earlier + refbuf.data[..pos];
      refbuf, pos := block, 0;
      assert earlier + refbuf.data[..0] == earlier;
    }

    /**
     The listener is given another block wherever it is in its own, as when the source ends
     and listeners are paused (src/source.c:1574-1578). The wire stays in step exactly if no
     metadata block was begun, or the one to go on with has the same length.
     */
    method Move(block: Block)
      requires Framed() && QueueOk(block) && block.data != []
      modifies this`refbuf, this`pos, this`earlier
      ensures Framed() && refbuf == block && pos == 0 && Consumed() == old(Consumed())
      ensures old(Valid()) ==> (Valid() <==> !inMetadata || |MetaOf(block).icy| == |MetaOf(old(refbuf)).icy|)
      ensures Begun(old(Now())) ==>
                (Begun(Now()) <==> inMetadata ==>
                   var n := metadataOffset;
                   && n <= |AppliesTo(block).icy|
                   && AppliesTo(block).icy[..n] == AppliesTo(old(refbuf)).icy[..n])
    {
      earlier := earlier + refbuf.data[..pos];
      refbuf, pos := block, 0;
      assert earlier + refbuf.data[..0] == earlier;
    }

    /**
     The listener goes to another queue with a private copy of its block, to be finished from
     where it is: the metadata of the copy has another address and is the same.
     */
    method MoveWithCopy(id: nat)
      requires Framed() && pos < |refbuf.data|
      modifies this`refbuf
      ensures Framed() && refbuf.data == old(refbuf).data && Consumed() == old(Consumed())
      ensures MetaOf(refbuf).icy == MetaOf(old(refbuf)).icy && (Valid() <==> old(Valid()))
      ensures Begun(Now()) <==> Begun(old(Now()))
      ensures old(refbuf.associated) != None ==> refbuf.associated == Some(Meta(id, old(refbuf).associated.value.icy))
    {
      if refbuf.associated != None {
        refbuf := refbuf.(associated := Some(Meta(id, refbuf.associated.value.icy)));
      }
    }

    /** What is left to send of the metadata block: one NUL if nothing changed, nothing if more was sent already. */
    function DueRest(): seq<Byte>
      reads this
      requires QueueOk(refbuf)
    {
      var icy := MetaOf(refbuf).icy;
      if associated == Some(MetaOf(refbuf)) && !inMetadata then [0]
      else if inMetadata && metadataOffset >= |icy| then []
      else if inMetadata then icy[metadataOffset..]
      else icy
    }

    /** The metadata block that the next frame gets. */
    ghost function DueBlock(): seq<Byte>
      reads this
      requires QueueOk(refbuf)
    {
      part + DueRest()
    }

    /** More of a block was sent than the one to go on with has. */
    predicate Mismatch()
      reads this
      requires QueueOk(refbuf)
    {
      inMetadata && metadataOffset >= |MetaOf(refbuf).icy|
    }

    /** With what was sent of it, what is left to send is a whole block. */
    lemma DueIsWhole()
      requires Framed() && !Mismatch()
      ensures DueRest() != [] && (InStep() ==> BlockOk(DueBlock()))
      ensures InStep() && (DueRest() != [0] || inMetadata || associated != Some(MetaOf(refbuf))) ==>
                |DueBlock()| == |MetaOf(refbuf).icy| && DueBlock()[0] != 0
    {
    }

    /** The audio that goes with it: as much as there is, up to a whole interval. */
    function AudioAfter(): (r: nat)
      reads this
      requires pos <= |refbuf.data|
      ensures r <= |refbuf.data| - pos && r <= interval && (r == |refbuf.data| - pos || r == interval)
    {
      if |refbuf.data| - pos > interval then interval else |refbuf.data| - pos
    }

    lemma MetaIs()
      requires QueueOk(refbuf)
      ensures MetaOf(refbuf) == AppliesTo(refbuf)
    {
    }

    /** What is due goes on with what was sent to the metadata that applies here. */
    lemma DueBlockIs()
      requires Framed() && Begun(Now())
      ensures InStep() && !Mismatch()
      ensures |part| == metadataOffset < |BlockHere(Now())| && (!inMetadata ==> part == [])
      ensures DueBlock() == BlockHere(Now()) && DueRest() == BlockHere(Now())[|part|..]
    {
      MetaIs();
    }

    /** Where a block is completed, the next byte is the first after the interval. */
    lemma AtEnd()
      requires Framed() && sinceMetaBlock == interval
      ensures QueueOk(refbuf) && |earlier| + pos == EndOf(interval, |frames|)
    {
      AudioLength(interval, frames);
      assert |Consumed()| == |Audio(frames)| + |partial|;
    }

    lemma Bounds()
      requires Framed()
      ensures QueueOk(refbuf) && pos <= |refbuf.data|
    {
    }

    /** The connection is marked, and no more. */
    method Refuse()
      requires Framed()
      modifies con`error
      ensures con.error && Framed() && con.wire == old(con.wire)
    {
      con.error := true;
    }

    method BlockDone(queueBytes: nat, ghost rest: seq<Byte>, ghost wire: seq<Byte>, ghost inStep: bool)
      requires 0 < interval < 0x10000 && QueueOk(refbuf) && pos + queueBytes <= |refbuf.data| && queueBytes <= interval
      requires inStep ==> BlockOk(part + rest) && |partial| == interval
      requires inStep ==> OnWire(interval, wire, frames, partial, part, Consumed())
      requires con.wire == wire + (rest + refbuf.data[pos..pos + queueBytes])
      modifies this
      ensures inStep ==> Valid() && frames == old(frames) + [Frame(old(partial), old(part) + rest)]
      ensures refbuf == old(refbuf) && pos == old(pos) + queueBytes && sinceMetaBlock == queueBytes
      ensures associated == Some(MetaOf(refbuf)) && !inMetadata && metadataOffset == 0
      ensures queue == old(queue) && earlier == old(earlier)
    {
      hide OnWire, MetaOf;
      ghost var audio := refbuf.data[pos..pos + queueBytes];
      assert refbuf.data[..pos + queueBytes] == refbuf.data[..pos] + audio;
      assert earlier + refbuf.data[..pos + queueBytes] == Consumed() + audio;
      if inStep {
        BlockSent(interval, wire, frames, partial, part, Consumed(), rest, audio);
        frames, partial, part := frames + [Frame(partial, part + rest)], audio, [];
      }
      sinceMetaBlock := queueBytes;
      pos := pos + queueBytes;
      inMetadata, metadataOffset := false, 0;
      associated := Some(MetaOf(refbuf));
    }

    method BlockBegun(ret: nat, ghost rest: seq<Byte>, ghost wire: seq<Byte>, ghost inStep: bool)
      requires 0 < interval < 0x10000 && QueueOk(refbuf) && pos < |refbuf.data| && 0 < ret < |rest|
      requires inStep ==> BlockOk(part + rest) && |part + rest| == |MetaOf(refbuf).icy| && (part + rest)[0] != 0
      requires inStep ==> metadataOffset == |part| && OnWire(interval, wire, frames, partial, part, Consumed())
      requires con.wire == wire + rest[..ret] && sinceMetaBlock == |partial| == interval
      modifies this`inMetadata, this`metadataOffset, this`part
      ensures metadataOffset == old(metadataOffset) + ret && (inStep ==> Valid())
      ensures part == old(part) + rest[..ret] && inMetadata
    {
      hide OnWire, MetaOf;
      if inStep {
        PartSent(interval, wire, frames, partial, part, Consumed(), rest[..ret]);
        assert (part + rest[..ret])[0] == (part + rest)[0];
      }
      part := part + rest[..ret];
      inMetadata := true;
      metadataOffset := metadataOffset + ret;
    }

    /** The rest of the block and audio after it are sent, and what the network takes of them is accounted for. */
    method SendDue(net: Net) returns (ret: int)
      requires Framed() && pos < |refbuf.data| && sinceMetaBlock == interval && !Mismatch()
      modifies this, con
      ensures refbuf == old(refbuf) && (old(InStep()) ==> Valid()) && queue == old(queue) && earlier == old(earlier)
      ensures ret == NetTook(net, old(Gathered(DueRest(), refbuf.data, pos, AudioAfter())))
      ensures
        con.error <==> old(con.error) || NetFails(net, old(Gathered(DueRest(), refbuf.data, pos, AudioAfter())))
      ensures
        if ret >= old(|DueRest()|) then
          && (old(InStep()) ==> part == [] && frames == old(frames) + [Frame(old(partial), old(DueBlock()))])
          && associated == Some(MetaOf(refbuf)) && !inMetadata && metadataOffset == 0
          && pos == old(pos) + (ret - old(|DueRest()|)) && sinceMetaBlock == ret - old(|DueRest()|)
        else
          && frames == old(frames) && pos == old(pos) && associated == old(associated) && sinceMetaBlock == interval
          && metadataOffset == old(metadataOffset) + Positive(ret) && inMetadata == (old(inMetadata) || ret > 0)
          && part == old(part) + old(DueRest())[..Positive(ret)]
    {
      hide OnWire, MetaOf, NetTook, NetFails, Gathered;
      var metadata := DueRest();
      var blockLen := |refbuf.data| - pos;
      if blockLen > interval {
        blockLen := interval;
      }
      ghost var wire, inStep := con.wire, InStep();
      DueIsWhole();
      ret := SendGathered(con, metadata, refbuf.data, pos, blockLen, net);
      if ret >= |metadata| {
        BlockDone(ret - |metadata|, metadata, wire, inStep);
      } else if ret > 0 {
        BlockBegun(ret, metadata, wire, inStep);
      }
    }

    /**
     send_icy_metadata: what the network takes is the rest of the block, then audio. A block
     that was begun with more bytes than this one has ends the connection.
     */
    method SendIcyMetadata(net: Net) returns (ret: int)
      requires Framed() && pos < |refbuf.data| && sinceMetaBlock == interval
      modifies this, con
      ensures refbuf == old(refbuf) && (old(InStep()) ==> Valid())
      ensures queue == old(queue) && (Faithful(interval, old(Now())) ==> Faithful(interval, Now()))
      ensures Begun(old(Now())) ==>
                Begun(Now()) && Sends(BlockHere(old(Now())), old(part), ret, old(frames), old(partial), frames, part)
      ensures old(Mismatch()) ==> ret == 0 && con.error && con.wire == old(con.wire) && Framed() && pos == old(pos)
      ensures
        !old(Mismatch()) ==>
          && ret == NetTook(net, old(Gathered(DueRest(), refbuf.data, pos, AudioAfter())))
          && (con.error <==> old(con.error) || NetFails(net, old(Gathered(DueRest(), refbuf.data, pos, AudioAfter()))))
          && (if ret >= old(|DueRest()|) then
                && (old(InStep()) ==> frames == old(frames) + [Frame(old(partial), old(DueBlock()))])
                && associated == Some(MetaOf(refbuf)) && !inMetadata && metadataOffset == 0
                && pos == old(pos) + (ret - old(|DueRest()|)) && sinceMetaBlock == ret - old(|DueRest()|)
              else
                && frames == old(frames) && pos == old(pos) && associated == old(associated)
                && sinceMetaBlock == interval && metadataOffset == old(metadataOffset) + Positive(ret))
    {
      hide MetaOf, AppliesTo, NetTook, NetFails, Gathered, BlockHere, DueRest, Framed, Begun, Faithful, AudioAfter;
      hide Sends;
      ghost var a := Now();
      AtEnd();
      FaithfulBegun(interval, a);
      if Begun(a) {
        DueBlockIs();
      }
      if Mismatch() {
        Refuse();
        return 0;
      }
      MetaIs();
      ret := SendDue(net);
      if Begun(a) {
        StaysBegun(a, Now(), old(DueRest()), ret);
        if Faithful(interval, a) {
          StaysFaithful(interval, a, Now(), old(DueRest()), ret);
        }
      }
    }

    /** The audio that may go out now: as much as there is, up to 100000 bytes and to the next block. */
    function AudioNow(): (r: nat)
      reads this
      requires pos <= |refbuf.data| && sinceMetaBlock <= interval
      ensures r <= |refbuf.data| - pos && r <= interval - sinceMetaBlock && r <= 100000
      ensures r == |refbuf.data| - pos || r == interval - sinceMetaBlock || r == 100000
    {
      var n := |refbuf.data| - pos;
      var m := if n > interval - sinceMetaBlock then interval - sinceMetaBlock else n;
      if m > 100000 then 100000 else m
    }

    lemma WithinInterval()
      requires Framed()
      ensures sinceMetaBlock <= interval
    {
    }

    method AudioTaken(n: nat, ghost wire: seq<Byte>)
      requires 0 < interval < 0x10000 && QueueOk(refbuf) && pos + n <= |refbuf.data|
      requires sinceMetaBlock == |partial| && sinceMetaBlock + n <= interval
      requires !inMetadata && metadataOffset == 0 && part == []
      requires OnWire(interval, wire, frames, partial, [], Consumed()) && con.wire == wire + refbuf.data[pos..pos + n]
      modifies this`sinceMetaBlock, this`pos, this`partial
      ensures Valid() && pos == old(pos) + n
    {
      hide OnWire, MetaOf;
      ghost var audio, consumed := refbuf.data[pos..pos + n], Consumed();
      AudioSent(interval, wire, frames, partial, consumed, audio);
      EarlierMore(earlier, refbuf.data, pos, n);
      sinceMetaBlock := sinceMetaBlock + n;
      pos := pos + n;
      partial := partial + audio;
      assert Consumed() == consumed + audio;
    }

    /** Audio up to the next metadata block. */
    method SendAudio(net: Net) returns (ret: int)
      requires Valid() && pos < |refbuf.data| && sinceMetaBlock < interval
      modifies this`sinceMetaBlock, this`pos, this`partial, con
      ensures Faithful(interval, Now()) <==> Faithful(interval, old(Now()))
      ensures Begun(Now()) <==> Begun(old(Now()))
      ensures Valid() && pos == old(pos) + Positive(ret) && ret == BytesTook(net, old(AudioNow()))
      ensures con.error <==> old(con.error) || BytesFail(net)
    {
      PartialFits(interval, con.wire, frames, partial, part, Consumed());
      hide OnWire, MetaOf, Begun, Faithful;
      assert !inMetadata && part == [];
      var len := |refbuf.data| - pos;
      if len > interval - sinceMetaBlock {
        len := interval - sinceMetaBlock;
      }
      if len > 100000 {
        len := 100000;
      }
      ghost var wire := con.wire;
      ret := SendBytes(con, refbuf.data[pos..pos + len], net);
      if ret > 0 {
        TakeOfSlice(refbuf.data, pos, len, ret);
        AudioTaken(ret, wire);
      } else {
        assert con.wire == wire;
      }
      AudioKeeps(interval, old(Now()), pos, partial);
    }

    /** format_mp3_write_buf_to_client, not chunked */
    method WriteBuf(net: Net) returns (ret: int)
      requires Framed() && pos < |refbuf.data|
      modifies this, con
      ensures refbuf == old(refbuf) && (old(InStep()) ==> Valid())
      ensures queue == old(queue) && (Faithful(interval, old(Now())) ==> Faithful(interval, Now()))
      ensures Begun(old(Now())) ==> Begun(Now())
      ensures
        Begun(old(Now())) && old(sinceMetaBlock) == interval ==>
          Sends(BlockHere(old(Now())), old(part), ret, old(frames), old(partial), frames, part)
      ensures
        old(sinceMetaBlock) != interval ==>
          && ret == BytesTook(net, old(AudioNow())) && pos == old(pos) + Positive(ret)
          && (con.error <==> old(con.error) || BytesFail(net))
          && frames == old(frames) && associated == old(associated) && metadataOffset == old(metadataOffset)
      ensures
        old(sinceMetaBlock) == interval && old(Mismatch()) ==>
          ret == 0 && con.error && con.wire == old(con.wire) && Framed() && pos == old(pos)
      ensures
        old(sinceMetaBlock) == interval && !old(Mismatch()) ==>
          && ret == NetTook(net, old(Gathered(DueRest(), refbuf.data, pos, AudioAfter())))
          && (con.error <==> old(con.error) || NetFails(net, old(Gathered(DueRest(), refbuf.data, pos, AudioAfter()))))
          && (if ret >= old(|DueRest()|) then
                && (old(InStep()) ==> frames == old(frames) + [Frame(old(partial), old(DueBlock()))])
                && associated == Some(MetaOf(refbuf)) && pos == old(pos) + (ret - old(|DueRest()|))
              else
                && frames == old(frames) && pos == old(pos) && associated == old(associated)
                && metadataOffset == old(metadataOffset) + Positive(ret))
    {
      hide OnWire, MetaOf, NetTook, NetFails, Gathered, Begun, Faithful, Sends, BlockHere;
      WithinInterval();
      if interval == sinceMetaBlock {
        ret := SendIcyMetadata(net);
      } else {
        ret := SendAudio(net);
      }
    }

    /** A listener that is served from a queue and never moves, with one call for each state of the network. */
    method Serve(blocks: seq<Block>, nets: seq<Net>) returns (n: nat)
      requires Valid() && Faithful(interval, Now()) && AllQueueOk(blocks)
      modifies this, con
      ensures Valid() && Faithful(interval, Now()) && n <= |blocks| && queue == old(queue) + blocks[..n]
    {
      hide Faithful, Begun, Sends, BlockHere, Framed, NetTook, Gathered;
      n := 0;
      assert queue + blocks[..0] == queue;
      for k := 0 to |nets|
        invariant Valid() && Faithful(interval, Now()) && n <= |blocks| && queue == old(queue) + blocks[..n]
      {
        Bounds();
        if pos < |refbuf.data| {
          var _ := WriteBuf(nets[k]);
        } else if n < |blocks| {
          assert old(queue) + blocks[..n] + [blocks[n]] == old(queue) + blocks[..n + 1];
          NextBlock(blocks[n]);
          n := n + 1;
        }
      }
    }
  }

  /**
   Over every run without a move: the blocks that say something are the metadata that applies at
   the ends of the intervals, with repeats left out, and the audio is what the queue holds.
   */
  lemma ShowsQueue(l: Listener)
    requires l.Framed() && Faithful(l.interval, l.Now())
    ensures l.Consumed() <= Data(l.queue)
    ensures l.frames != [] ==> EndOf(l.interval, |l.frames| - 1) < |Data(l.queue)|
    ensures Blocks(l.frames) == Changes(l.interval, l.queue, |l.frames|)
  {
    hide OnWire, AppliesTo, AllSent, LastSent, AllQueueOk, MetaOf;
    BlocksAre(l.interval, l.queue, l.frames);
    var init := l.queue[..|l.queue| - 1];
    DataSnoc(init, l.refbuf);
    assert l.queue == init + [l.refbuf];
  }

  /** A reader that gets this far has exactly the audio consumed and the metadata sent, in order. */
  lemma WireReads(l: Listener)
    requires l.Framed()
    ensures FeedAll(l.interval, START, l.con.wire) == Demux(l.sinceMetaBlock, l.part, l.Consumed(), Blocks(l.frames))
  {
    FeedStream(l.interval, l.frames, l.partial, l.part);
  }

  lemma DueLength(l: Listener)
    requires l.Framed() && l.inMetadata
    ensures l.InStep() <==> |l.part| + |l.DueRest()| == BlockLength(l.part[0])
  {
  }

  /** Some bytes after a part of a block end that block, and nothing else, exactly if there are enough of them. */
  lemma ReadsDue(interval: nat, d: Demux, s: seq<Byte>)
    requires d.offset == interval > 0 && d.building != [] && |d.building| < BlockLength(d.building[0])
    ensures
      var e := FeedAll(interval, d, s);
      e.offset == 0 && e.building == [] && e.audio == d.audio <==> |d.building| + |s| == BlockLength(d.building[0])
  {
    var n := BlockLength(d.building[0]) - |d.building|;
    if |s| < n {
      if s != [] {
        FeedPart(interval, d, s);
      }
    } else {
      hide FeedAll;
      var first, more := s[..n], s[n..];
      assert s == first + more;
      FeedConcat(interval, d, first, more);
      FeedRest(interval, d, first);
      var e := FeedAll(interval, d, first);
      if more == [] {
        assert first == s;
      } else {
        FeedConcat(interval, e, [more[0]], more[1..]);
        assert more == [more[0]] + more[1..];
        FeedAudio(interval, e, [more[0]]);
        FeedGrows(interval, FeedAll(interval, e, [more[0]]), more[1..]);
      }
    }
  }

  /**
   In step or not: once what is due of a metadata block has been sent too, a reader is at
   the start of an interval, with exactly the audio consumed, if the listener is in step,
   and otherwise still in the block, or past it with bytes of metadata among the audio.
   */
  lemma InStepReads(l: Listener)
    requires l.Framed() && l.sinceMetaBlock == l.interval
    ensures
      var d := FeedAll(l.interval, START, l.con.wire + l.DueRest());
      l.InStep() <==> d.offset == 0 && d.building == [] && d.audio == l.Consumed()
  {
    hide FeedAll, OnWire, MetaOf;
    var rest, now := l.DueRest(), Demux(l.interval, l.part, l.Consumed(), Blocks(l.frames));
    WireReads(l);
    FeedConcat(l.interval, START, l.con.wire, rest);
    if !l.inMetadata {
      assert l.part + rest == rest && BlockOk(rest);
      FeedRest(l.interval, now, rest);
    } else {
      DueLength(l);
      ReadsDue(l.interval, now, rest);
    }
  }

  /** A metadata block of `n` times 16 bytes. */
  function Filled(n: Byte): (icy: seq<Byte>)
    requires n > 0
    ensures BlockOk(icy) && icy[0] == n && |icy| == BlockLength(n)
  {
    [n] + seq(16 * n, _ => 0)
  }

  /** A listener that moves after one byte of a metadata block to a queue with a longer one: the wire is out of step. */
  method GoesOutOfStep() returns (l: Listener)
    ensures l.Framed() && !l.Valid() && l.sinceMetaBlock == l.interval == |l.con.wire| - 1
  {
    hide Faithful, Begun, Sends, BlockHere, AppliesTo;
    l := new Listener(1, Block([10, 11], Some(Meta(1, Filled(1)))));
    var _ := l.WriteBuf(Plain(false, 1, true));
    assert Audio(l.frames) + l.partial == l.Consumed() && |l.partial| == 1;
    GatheredBytes(Gathered(l.DueRest(), l.refbuf.data, l.pos, l.AudioAfter()), l.DueRest(), [11]);
    var _ := l.WriteBuf(Plain(false, 1, true));
    assert |l.con.wire| == 2;
    l.Move(Block([12], Some(Meta(2, Filled(2)))));
  }
}
