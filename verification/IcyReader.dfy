/**
 Input from a source that sends inline metadata: mp3_get_filter_meta and the part of
 validate_mpeg that hands unfinished audio back, of src/format_mp3.c, with
 parse_icy_metadata as the consumer of complete blocks.
 */
module IcyReader {
  import opened Bytes
  import opened IcyStream
  import opened IcyText
  import opened Wrappers

  const UINT32: nat := 0x1_0000_0000
  const BUILD_SIZE: nat := 4081

  lemma Finished(s: CString, t: Tags, extra: CString)
    requires NextField(s).Unfinished?
    ensures ParseFields(s, t, extra) == (t, extra)
  {
  }

  lemma {:induction false} ToNulShort(s: seq<Byte>)
    requires s != [] && s[|s| - 1] == 0
    ensures |ToNul(s)| < |s|
  {
    if s[0] != 0 {
      ToNulShort(s[1..]);
    }
  }

  /** Blocks that are refused: of a length that is not the one announced. */
  predicate Accepted(icy: Option<seq<Byte>>, block: seq<Byte>)
    requires block != []
  {
    |block| <= 1 || icy == None || block == icy.value || (16 <= |block| <= 4081 && |block| == BlockLength(block[0]))
  }

  /** What is known after the block: nothing new if it is the current one or is refused. */
  function Learned(icy: Option<seq<Byte>>, block: seq<Byte>, t: Tags): Tags
    requires block != []
  {
    if |block| <= 1 || icy == None || block == icy.value || !Accepted(icy, block) then t else Parsed(block, t)
  }

  /** The block is one to parse, other than the current one, and begins with a complete field. */
  predicate Teaches(icy: Option<seq<Byte>>, block: seq<Byte>) {
    && |block| > 1 && icy != None && block != icy.value
    && 16 <= |block| <= 4081 && |block| == BlockLength(block[0])
    && !NextField(ToNul(block[1..])).Unfinished?
  }

  /** What is known, the block that listeners get, and whether more was learned since it was made. */
  datatype Known = Known(tags: Tags, icy: Option<seq<Byte>>, updateMetadata: bool)

  function AfterBlock(k: Known, block: seq<Byte>): Known {
    if |block| <= 1 then k
    else k.(tags := Learned(k.icy, block, k.tags), updateMetadata := k.updateMetadata || Teaches(k.icy, block))
  }

  /**
   One block. With no metadata yet, or a block that is the current one or has not the length
   that it says, nothing changes. Any other sets the fields it has and leaves out the others that
   were collected; it is to be made current exactly if its first field is complete.
   */
  lemma BlockChanges(k: Known, block: seq<Byte>)
    requires 16 < |block| <= 4081
    ensures
      k.icy == None || k.icy == Some(block) || |block| != 1 + 16 * (block[0] as int) ==> AfterBlock(k, block) == k
    ensures
      k.icy != None && k.icy != Some(block) && |block| == 1 + 16 * (block[0] as int) ==>
        var after := AfterBlock(k, block);
        && after.icy == k.icy && after.tags == Parsed(block, k.tags)
        && (NextField(ToNul(block[1..])).Unfinished? ==> after == k.(tags := k.tags.(extra := None)))
        && (!NextField(ToNul(block[1..])).Unfinished? ==> after.updateMetadata)
  {
  }

  /** Between reads: what was learned is made current, if it fits. */
  function MadeCurrent(k: Known, enough: bool): Known {
    if k.updateMetadata && enough then
      Known(k.tags, if Needed(k.tags) <= MAX_META_LEN then Some(Block(k.tags)) else k.icy, false)
    else k
  }

  /**
   A block of 16 NULs after one with other fields: the fields are no longer known, and the block
   that listeners get goes on showing them.
   */
  lemma ExtraStays(t: Tags)
    requires Needed(t) <= MAX_META_LEN && t.extra != None && t.extra.value != [] && Block(t) != [1] + Zeros(16)
    ensures
      var after := AfterBlock(Known(t, Some(Block(t)), false), [1] + Zeros(16));
      after.tags == t.(extra := None) && MadeCurrent(after, true).icy == Some(Block(t))
  {
    hide Needed, Block;
    var block: seq<Byte> := [1] + Zeros(16);
    assert |block| == 17 && ToNul(block[1..]) == [];
    NothingLeft();
    BlockChanges(Known(t, Some(Block(t)), false), block);
  }

  function AfterBlocks(k: Known, blocks: seq<seq<Byte>>): Known
    decreases |blocks|
  {
    if blocks == [] then k else AfterBlocks(AfterBlock(k, blocks[0]), blocks[1..])
  }

  /** What the blocks that came after `before` have taught. */
  ghost predicate TaughtBy(k: Known, before: seq<seq<Byte>>, after: seq<seq<Byte>>, k': Known) {
    before <= after && k' == AfterBlocks(k, after[|before|..])
  }

  /** The part of mp3_state that metadata is parsed into. */
  class Mp3State {
    var tags: Tags
    var icy: Option<seq<Byte>>  // metadata->icy; None if there is no metadata at all
    var updateMetadata: bool

    ghost function Now(): Known
      reads this
    {
      Known(tags, icy, updateMetadata)
    }

    constructor (tags: Tags, icy: Option<seq<Byte>>)
      ensures this.tags == tags && this.icy == icy && !updateMetadata
    {
      this.tags, this.icy, updateMetadata := tags, icy, false;
    }

    /** One turn of the loop: the field that the text begins with, if it is complete. */
    method ParseField(s: CString, extra: CString) returns (used: nat, found: bool, extra': CString)
      modifies this`tags
      ensures found == !NextField(s).Unfinished?
      ensures if found then 0 < used <= |s| else tags == old(tags) && extra' == extra
      ensures found ==> ParseFields(s, old(tags), extra) == ParseFields(s[used..], tags, extra')
    {
      hide Title, Url, End, Find;
      used, found, extra' := 0, false, extra;
      if Title() <= s {
        var end := Find(s[13..], End());
        if end != None {
          used, found := 13 + end.value + 2, true;
          tags := tags.(title := Some(s[13..13 + end.value]), artist := None);
        }
      } else if Url() <= s {
        var end := Find(s[11..], End());
        if end != None {
          used, found := 11 + end.value + 2, true;
          tags := tags.(inlineUrl := Some(s[11..11 + end.value]));
        }
      } else {
        var end := Find(s, End());
        if end != None {
          used, found := end.value + 2, true;
          extra' := extra + s[..used];
        }
      }
    }

    /** metadata_setup: the block that listeners are to be sent from now on, unless the text is too long. */
    method Setup()
      modifies this`icy, this`updateMetadata
      ensures !updateMetadata
      ensures icy == if Needed(tags) <= MAX_META_LEN then Some(Block(tags)) else old(icy)
    {
      updateMetadata := false;
      var block := MetadataSetup(tags);
      if block != null {
        icy := Some(block[..]);
      }
    }

    /** parse_icy_metadata, for a block that ends in NUL. */
    method ParseIcyMetadata(metadata: seq<Byte>) returns (ret: int)
      requires metadata != [] && metadata[|metadata| - 1] == 0
      modifies this`tags, this`updateMetadata
      ensures ret == if Accepted(icy, metadata) then 0 else -1
      ensures tags == Learned(icy, metadata, old(tags))
      ensures updateMetadata <==> old(updateMetadata) || Teaches(icy, metadata)
      ensures Now() == AfterBlock(old(Now()), metadata)
    {
      hide ParseFields, NextField;
      var metaLen := |metadata|;
      if metaLen <= 1 || icy == None {
        return 0;
      }
      if metadata == icy.value {
        return 0;
      }
      if metaLen < 16 || metaLen > 4081 || BlockLength(metadata[0]) != metaLen {
        return -1;
      }
      var s := ToNul(metadata[1..]);
      var left := metaLen - 1;
      var extra: CString := [];
      ToNulShort(metadata[1..]);
      ghost var whole := s;
      while true
        invariant |s| < left && |s| <= |whole| && (|s| == |whole| ==> s == whole)
        invariant ParseFields(s, tags, extra) == ParseFields(whole, old(tags), [])
        invariant updateMetadata <==> old(updateMetadata) || |s| < |whole|
        invariant |s| < |whole| ==> !NextField(whole).Unfinished?
        decreases |s|
      {
        var used: nat, found: bool;
        used, found, extra := ParseField(s, extra);
        if !found {
          break;
        }
        left := left - used;
        s := s[used..];
        updateMetadata := true;
      }
      Finished(s, tags, extra);
      tags := tags.(extra := if extra == [] then None else Some(extra));
      ret := 0;
    }
  }

  /** What some blocks teach, each compared with the metadata that was current when it came. */
  function LearnedAll(icys: seq<Option<seq<Byte>>>, blocks: seq<seq<Byte>>, t: Tags): Tags
    requires |icys| == |blocks| && forall i :: 0 <= i < |blocks| ==> blocks[i] != []
    decreases |blocks|
  {
    if blocks == [] then t
    else
      var last := |blocks| - 1;
      Learned(icys[last], blocks[last], LearnedAll(icys[..last], blocks[..last], t))
  }

  /** Blocks that came while `icy` was current. */
  ghost predicate Grown(before: seq<Option<seq<Byte>>>, after: seq<Option<seq<Byte>>>, icy: Option<seq<Byte>>) {
    before <= after && forall i :: |before| <= i < |after| ==> after[i] == icy
  }

  /** memmove of `n` bytes to `at` from `gap` bytes further on. */
  method MoveDown(a: array<Byte>, at: nat, gap: nat, n: nat)
    requires at + gap + n <= a.Length
    modifies a
    ensures a[..at] == old(a[..at]) && a[at..at + n] == old(a[at + gap..at + gap + n])
  {
    forall i | 0 <= i < n {
      a[at + i] := a[at + gap + i];
    }
  }

  /** The buffer begins with what was collected, and is clear after it. */
  ghost predicate Holds(a: seq<Byte>, building: seq<Byte>) {
    |building| <= BUILD_SIZE && a == building + Zeros(BUILD_SIZE - |building|)
  }

  lemma HoldsMore(before: seq<Byte>, after: seq<Byte>, building: seq<Byte>, next: seq<Byte>)
    requires Holds(before, building) && |building| + |next| <= BUILD_SIZE
    requires after == before[..|building|] + next + before[|building| + |next|..]
    ensures Holds(after, building + next)
  {
  }

  /** Leaving out the last byte leaves a NUL in its place. */
  lemma HoldsBlock(before: seq<Byte>, after: seq<Byte>, building: seq<Byte>, next: seq<Byte>)
    requires Holds(before, building) && next != [] && |building| + |next| <= BUILD_SIZE
    requires after == before[..|building|] + next[..|next| - 1] + before[|building| + |next| - 1..]
    ensures after[..|building| + |next|] == Closed(building + next)
  {
    var n := |building| + |next|;
    assert before[..|building|] == building && before[n - 1] == 0;
    assert after[..n] == building + next[..|next| - 1] + [0];
    assert (building + next)[..n - 1] == building + next[..|next| - 1];
  }

  lemma FeedSplit(interval: nat, d: Demux, s: seq<Byte>, i: nat, j: nat, k: nat)
    requires i <= j <= k <= |s|
    ensures FeedAll(interval, d, s[i..k]) == FeedAll(interval, FeedAll(interval, d, s[i..j]), s[j..k])
  {
    FeedConcat(interval, d, s[i..j], s[j..k]);
    assert s[i..j] + s[j..k] == s[i..k];
  }

  lemma FeedNone(interval: nat, d: Demux, s: seq<Byte>)
    requires s == []
    ensures FeedAll(interval, d, s) == d
  {
  }

  lemma LearnedMore(icys: seq<Option<seq<Byte>>>, icy: Option<seq<Byte>>, blocks: seq<seq<Byte>>, block: seq<Byte>,
                    t: Tags)
    requires |icys| == |blocks| && (forall i :: 0 <= i < |blocks| ==> blocks[i] != []) && block != []
    ensures LearnedAll(icys + [icy], blocks + [block], t) == Learned(icy, block, LearnedAll(icys, blocks, t))
  {
    assert (blocks + [block])[..|blocks|] == blocks && (icys + [icy])[..|blocks|] == icys;
  }

  lemma NoneTaught(k: Known, blocks: seq<seq<Byte>>)
    ensures TaughtBy(k, blocks, blocks, k)
  {
  }

  lemma OneTaught(k: Known, blocks: seq<seq<Byte>>, block: seq<Byte>)
    ensures TaughtBy(k, blocks, blocks + [block], AfterBlock(k, block))
  {
    var all := blocks + [block];
    assert all[|blocks|..] == [block] && [block][1..] == [];
  }

  lemma {:induction false} AfterBlocksConcat(k: Known, a: seq<seq<Byte>>, b: seq<seq<Byte>>)
    ensures AfterBlocks(k, a + b) == AfterBlocks(AfterBlocks(k, a), b)
    decreases |a|
  {
    if a == [] {
      assert a + b == b;
    } else {
      AfterBlocksConcat(AfterBlock(k, a[0]), a[1..], b);
      assert (a + b)[0] == a[0] && (a + b)[1..] == a[1..] + b;
    }
  }

  lemma TaughtOn(k: Known, a: seq<seq<Byte>>, k1: Known, b: seq<seq<Byte>>, k2: Known, c: seq<seq<Byte>>)
    requires TaughtBy(k, a, b, k1) && TaughtBy(k1, b, c, k2)
    ensures TaughtBy(k, a, c, k2)
  {
    AfterBlocksConcat(k, b[|a|..], c[|b|..]);
    assert c[|a|..] == b[|a|..] + c[|b|..];
  }

  method Memcpy(dst: array<Byte>, at: nat, src: array<Byte>, from: nat, n: nat)
    requires dst != src && at + n <= dst.Length && from + n <= src.Length
    modifies dst
    ensures dst[..] == old(dst[..at]) + src[from..from + n] + old(dst[at + n..])
  {
    forall i | 0 <= i < n {
      dst[at + i] := src[from + i];
    }
  }

  class Source {
    const plugin: Mp3State
    const interval: nat
    var offset: nat              // uint32_t
    const buildMetadata: array<Byte>
    var buildMetadataLen: nat    // uint16_t
    var buildMetadataOffset: nat // uint16_t

    ghost const tags0: Tags
    ghost var d: Demux           // what has been read and not handed back
    ghost var icys: seq<Option<seq<Byte>>>  // the metadata that was current at each of its blocks

    /** The unsigned offset stands for a position that may be below zero. */
    ghost predicate OffsetOk()
      reads this
    {
      -20000 <= d.offset <= interval && offset == d.offset % UINT32
    }

    ghost predicate BuildOk()
      reads this, buildMetadata
    {
      && buildMetadata.Length == BUILD_SIZE
      && (buildMetadataLen == 0 <==> d.building == [])
      && (d.building != [] ==>
            && d.offset == interval && d.building[0] != 0
            && buildMetadataLen == BlockLength(d.building[0])
            && buildMetadataOffset == |d.building| < buildMetadataLen
            && Holds(buildMetadata[..], d.building))
    }

    ghost predicate Valid()
      reads this, buildMetadata, plugin
    {
      && 0 < interval < 0x8000_0000
      && OffsetOk() && BuildOk()
      && |icys| == |d.blocks| && (forall i :: 0 <= i < |d.blocks| ==> d.blocks[i] != [])
      && plugin.tags == LearnedAll(icys, d.blocks, tags0)
    }

    constructor (interval: nat, plugin: Mp3State)
      requires 0 < interval < 0x8000_0000
      ensures Valid() && d == START && this.plugin == plugin && this.interval == interval
      ensures fresh(buildMetadata)
    {
      this.interval, this.plugin, tags0 := interval, plugin, plugin.tags;
      offset, buildMetadataLen, buildMetadataOffset := 0, 0, 0;
      buildMetadata := new Byte[BUILD_SIZE](_ => 0);
      d, icys := START, [];
    }

    /** How much audio is due before the next metadata block, in unsigned arithmetic. */
    function Mp3Block(): nat
      reads this
    {
      (interval - offset) % UINT32
    }

    lemma Mp3BlockIsDue()
      requires Valid()
      ensures Mp3Block() == interval - d.offset
    {
    }

    lemma AtBlock()
      requires Valid() && d.offset >= 0
      ensures interval <= offset <==> d.offset == interval
      ensures d.offset <= interval
    {
    }

    method AdvanceOffset(n: nat)
      requires OffsetOk() && d.offset + n <= interval < 0x8000_0000
      modifies this`offset
      ensures offset == (d.offset + n) % UINT32
    {
      offset := (offset + n) % UINT32;
    }

    /** Of the `bytes` at hand, the first `n` are audio, which is accounted for where it lies. */
    method TakeAudio(buf: array<Byte>, src: nat, n: nat, ghost bytes: nat, ghost was: seq<Byte>)
      requires Valid() && d.offset + n <= interval && n <= bytes && src + bytes <= buf.Length && n > 0
      requires d.audio == was + buf[..src]
      modifies this`offset, this`d
      ensures Valid() && d.building == old(d.building) && d.blocks == old(d.blocks)
      ensures FeedAll(interval, d, buf[src + n..src + bytes]) == FeedAll(interval, old(d), buf[src..src + bytes])
      ensures d.audio == was + buf[..src + n]
    {
      hide FeedAll;
      AdvanceOffset(n);
      FeedAudio(interval, d, buf[src..src + n]);
      FeedSplit(interval, d, buf[..], src, src + n, src + bytes);
      d := d.(offset := d.offset + n, audio := d.audio + buf[src..src + n]);
      assert buf[..src + n] == buf[..src] + buf[src..src + n];
    }

    /** The collecting of a block is under way, and the bytes at hand are its next ones. */
    ghost predicate Collecting(next: seq<Byte>, copyMeta: bool)
      reads this, buildMetadata, plugin
    {
      && 0 < interval < 0x8000_0000 && OffsetOk() && d.offset == interval && next != []
      && buildMetadata.Length == BUILD_SIZE
      && buildMetadataLen == BlockLength((d.building + next)[0])
      && buildMetadataOffset == |d.building| < buildMetadataLen
      && copyMeta == ((d.building + next)[0] != 0)
      && (copyMeta ==> Holds(buildMetadata[..], d.building))
      && (d.building != [] ==> copyMeta)
      && |icys| == |d.blocks| && (forall i :: 0 <= i < |d.blocks| ==> d.blocks[i] != [])
      && plugin.tags == LearnedAll(icys, d.blocks, tags0)
    }

    /** A new block starts with its length byte; the buffer is cleared for one that says something. */
    method BeginBlock(buf: array<Byte>, src: nat, ghost bytes: nat, copyMeta: bool) returns (copyMeta': bool)
      requires Valid() && d.offset == interval && src + bytes <= buf.Length && bytes > 0
      requires buf != buildMetadata && (d.building != [] ==> copyMeta)
      modifies this`buildMetadataLen, this`buildMetadataOffset, buildMetadata
      ensures Collecting(buf[src..src + bytes], copyMeta')
    {
      copyMeta' := copyMeta;
      if buildMetadataLen == 0 {
        copyMeta' := buf[src] != 0;
        if copyMeta' {
          forall i | 0 <= i < BUILD_SIZE {
            buildMetadata[i] := 0;
          }
        }
        buildMetadataOffset := 0;
        buildMetadataLen := BlockLength(buf[src]);
        assert d.building + buf[src..src + bytes] == buf[src..src + bytes];
      } else {
        assert (d.building + buf[src..src + bytes])[0] == d.building[0];
      }
    }

    /** What there is of the block does not complete it. */
    method TakePart(buf: array<Byte>, src: nat, bytes: nat, copyMeta: bool)
      requires src + bytes <= buf.Length && buf != buildMetadata && Collecting(buf[src..src + bytes], copyMeta)
      requires bytes < buildMetadataLen - buildMetadataOffset
      modifies this`buildMetadataOffset, this`d, buildMetadata
      ensures Valid() && d == FeedAll(interval, old(d), buf[src..src + bytes]) && d.audio == old(d.audio)
      ensures d.building != [] && copyMeta && d.blocks == old(d.blocks)
    {
      ghost var next := buf[src..src + bytes];
      if copyMeta {
        ghost var before := buildMetadata[..];
        Memcpy(buildMetadata, buildMetadataOffset, buf, src, bytes);
        HoldsMore(before, buildMetadata[..], d.building, next);
      }
      buildMetadataOffset := buildMetadataOffset + bytes;
      FeedPart(interval, d, next);
      assert (d.building + next)[0] == buildMetadataLen / 16;
      d := d.(building := d.building + next);
    }

    /** A block that says something and of which the last `n` bytes are there is parsed. */
    method CopyAndParse(buf: array<Byte>, src: nat, n: nat) returns (ok: bool)
      requires src + n <= buf.Length && buf != buildMetadata && buildMetadata.Length == BUILD_SIZE && n > 0
      requires Holds(buildMetadata[..], d.building) && |d.building| == buildMetadataOffset
      requires buildMetadataLen == buildMetadataOffset + n == BlockLength((d.building + buf[src..src + n])[0])
      requires (d.building + buf[src..src + n])[0] != 0
      requires |icys| == |d.blocks| && forall i :: 0 <= i < |d.blocks| ==> d.blocks[i] != []
      requires plugin.tags == LearnedAll(icys, d.blocks, tags0)
      modifies buildMetadata, plugin`tags, plugin`updateMetadata
      ensures ok
      ensures plugin.tags == LearnedAll(icys + [plugin.icy], d.blocks + [Closed(d.building + buf[src..src + n])], tags0)
      ensures plugin.Now() == AfterBlock(old(plugin.Now()), Closed(d.building + buf[src..src + n]))
    {
      hide LearnedAll, Holds, AfterBlock;
      ghost var next := buf[src..src + n];
      ghost var before := buildMetadata[..];
      Memcpy(buildMetadata, buildMetadataOffset, buf, src, n - 1);
      assert buf[src..src + (n - 1)] == next[..n - 1];
      HoldsBlock(before, buildMetadata[..], d.building, next);
      var ret := plugin.ParseIcyMetadata(buildMetadata[..buildMetadataLen]);
      LearnedMore(icys, plugin.icy, d.blocks, Closed(d.building + next), tags0);
      ok := ret >= 0;
    }

    /** The rest of the block is there: all of it but the last byte is copied, and parsed. */
    method TakeRest(buf: array<Byte>, src: nat, bytes: nat, copyMeta: bool) returns (ok: bool)
      requires src + bytes <= buf.Length && buf != buildMetadata && Collecting(buf[src..src + bytes], copyMeta)
      requires bytes >= buildMetadataLen - buildMetadataOffset
      modifies this, buildMetadata, plugin`tags, plugin`updateMetadata
      ensures ok && Valid()
      ensures
        var used := old(buildMetadataLen - buildMetadataOffset);
        && d == FeedAll(interval, old(d), buf[src..src + used]) && d.audio == old(d.audio) && d.building == []
      ensures Grown(old(icys), icys, plugin.icy)
      ensures TaughtBy(old(plugin.Now()), old(d.blocks), d.blocks, plugin.Now())
    {
      hide Holds, Learned, LearnedAll, FeedAll, AfterBlock, TaughtBy;
      NoneTaught(plugin.Now(), d.blocks);
      var remaining := buildMetadataLen - buildMetadataOffset;
      ghost var next := buf[src..src + remaining];
      assert (d.building + next)[0] == (d.building + buf[src..src + bytes])[0];
      FeedRest(interval, d, next);
      if copyMeta {
        ok := CopyAndParse(buf, src, remaining);
        if !ok {
          return;
        }
        OneTaught(old(plugin.Now()), d.blocks, Closed(d.building + next));
        icys := icys + [plugin.icy];
      }
      d := FeedAll(interval, d, next);
      offset := 0;
      buildMetadataLen := 0;
      ok := true;
    }

    /**
     One turn of the loop at a metadata block: what there is of it is collected, and a block
     that ends here is parsed and taken out of the buffer.
     */
    method TakeMetadata(buf: array<Byte>, at: nat, bytes: nat, copyMeta: bool)
      returns (left: nat, copyMeta': bool, more: bool, ok: bool)
      requires Valid() && d.offset == interval && at + bytes <= buf.Length && bytes > 0
      requires buf != buildMetadata && (d.building != [] ==> copyMeta)
      modifies this, buildMetadata, plugin`tags, plugin`updateMetadata, buf
      ensures ok && Valid() && left <= bytes && d.audio == old(d.audio) && buf[..at] == old(buf[..at])
      ensures d.building != [] ==> copyMeta'
      ensures Grown(old(icys), icys, plugin.icy)
      ensures TaughtBy(old(plugin.Now()), old(d.blocks), d.blocks, plugin.Now())
      ensures more ==> left < bytes
      ensures
        var whole := FeedAll(interval, old(d), old(buf[at..at + bytes]));
        if more then FeedAll(interval, d, buf[at..at + left]) == whole else d == whole
    {
      hide FeedAll, BuildOk, Valid, Collecting, TaughtBy;
      NoneTaught(plugin.Now(), d.blocks);
      ok := true;
      copyMeta' := BeginBlock(buf, at, bytes, copyMeta);
      var metadataRemaining := buildMetadataLen - buildMetadataOffset;
      if bytes < metadataRemaining {
        TakePart(buf, at, bytes, copyMeta');
        left, more := bytes, false;
      } else {
        FeedSplit(interval, d, buf[..], at, at + metadataRemaining, at + bytes);
        ok := TakeRest(buf, at, bytes, copyMeta');
        if ok {
          left, more := bytes - metadataRemaining, true;
          MoveDown(buf, at, metadataRemaining, left);
        }
      }
    }

    /**
     The loop of mp3_get_filter_meta: metadata is taken out of the buffer in place, and what
     remains at its front, `len` bytes, is audio. None if a block was refused, which for
     blocks collected here cannot happen.
     */
    method FilterMeta(buf: array<Byte>, readCount: nat) returns (r: Option<nat>)
      requires Valid() && readCount <= buf.Length && buf != buildMetadata
      modifies this, buildMetadata, plugin`tags, plugin`updateMetadata, buf
      ensures r != None && Valid() && r.value <= readCount
      ensures d == FeedAll(interval, old(d), old(buf[..readCount]))
      ensures d.audio == old(d.audio) + buf[..r.value]
      ensures Grown(old(icys), icys, plugin.icy)
      ensures TaughtBy(old(plugin.Now()), old(d.blocks), d.blocks, plugin.Now())
    {
      hide FeedAll, BuildOk, Valid, Collecting, Mp3Block, TaughtBy;
      NoneTaught(plugin.Now(), d.blocks);
      var bytes: nat, len: nat, copyMeta := readCount, 0, true;
      ghost var goal := FeedAll(interval, d, buf[..readCount]);
      assert buf[..0] == [] && buf[0..readCount] == buf[..readCount];
      while bytes > 0
        invariant Valid() && len + bytes <= readCount
        invariant FeedAll(interval, d, buf[len..len + bytes]) == goal
        invariant d.audio == old(d.audio) + buf[..len]
        invariant d.building != [] ==> copyMeta
        invariant Grown(old(icys), icys, plugin.icy)
        invariant TaughtBy(old(plugin.Now()), old(d.blocks), d.blocks, plugin.Now())
        decreases bytes
      {
        Mp3BlockIsDue();
        var mp3Block := Mp3Block();
        if bytes <= mp3Block {
          TakeAudio(buf, len, bytes, bytes, old(d.audio));
          len := len + bytes;
          break;
        }
        if mp3Block != 0 {
          TakeAudio(buf, len, mp3Block, bytes, old(d.audio));
          bytes := bytes - mp3Block;
          len := len + mp3Block;
          continue;
        }
        var left, more: bool, ok: bool;
        ghost var known, blocks := plugin.Now(), d.blocks;
        left, copyMeta, more, ok := TakeMetadata(buf, len, bytes, copyMeta);
        TaughtOn(old(plugin.Now()), old(d.blocks), known, blocks, plugin.Now(), d.blocks);
        if !ok {
          return None;
        }
        if !more {
          break;
        }
        bytes := left;
      }
      FeedNone(interval, d, buf[len..len]);
      r := Some(len);
    }
  }

  // -------------------------------------------------------------------- finding whole frames

  ghost predicate EndsWith(s: seq<Byte>, t: seq<Byte>) {
    |t| <= |s| && s[|s| - |t|..] == t
  }

  lemma EndsWithTail(s: seq<Byte>, t: seq<Byte>, n: nat)
    requires EndsWith(s, t) && n <= |t|
    ensures EndsWith(s, t[n..]) && EndsWith(s, [])
  {
  }

  lemma EndsWithMore(s: seq<Byte>, t: seq<Byte>, a: seq<Byte>)
    requires EndsWith(s, t)
    ensures EndsWith(s + a, t + a) && EndsWith(s + a, [])
  {
  }

  lemma NoneAdded(before: seq<Byte>, surplus: seq<Byte>, delivered: seq<Byte>, none: seq<Byte>)
    requires none == []
    ensures before + none == before && surplus + none == surplus && delivered + none == delivered
    ensures delivered + surplus + [] == delivered + surplus
  {
  }

  lemma SuffixOfSuffix(s: seq<Byte>, t: seq<Byte>, u: nat)
    requires EndsWith(s, t) && u <= |t|
    ensures s[|s| - u..] == t[|t| - u..] && u <= |s|
  {
  }

  const MAX_UNPROCESSED: nat := 20000

  /**
   What mpeg_complete_frames makes of a block: how many bytes at its end belong to a frame
   that is not complete, or -1.
   */
  ghost predicate FrameFinder(frames: seq<Byte> -> int) {
    forall s :: -1 <= frames(s) <= |s|
  }

  /** The audio that some input adds. */
  ghost function Demuxed(interval: nat, d: Demux, s: seq<Byte>): seq<Byte> {
    var all := FeedAll(interval, d, s).audio;
    if d.audio <= all then all[|d.audio|..] else []
  }

  lemma DemuxedIs(interval: nat, d: Demux, s: seq<Byte>, audio: seq<Byte>)
    requires FeedAll(interval, d, s).audio == d.audio + audio
    ensures Demuxed(interval, d, s) == audio
  {
  }

  /**
   What becomes of a block of which the last `u` bytes are unfinished: they stay with the
   frame finder at a metadata block, are read again elsewhere, and are dropped if too many.
   */
  ghost predicate Outcome(whole: seq<Byte>, u: int, atBlock: bool, block: seq<Byte>, surplus: seq<Byte>,
                          readData: seq<Byte>)
    requires -1 <= u <= |whole|
  {
    if 0 <= u <= MAX_UNPROCESSED then
      var done, left := whole[..|whole| - u], whole[|whole| - u..];
      block == done && surplus == (if atBlock then left else []) && readData == if atBlock then [] else left
    else surplus == readData == [] && block == if 0 < u < |whole| then whole[..|whole| - u] else []
  }

  lemma HandBackAll(interval: nat, d: Demux, u: nat)
    requires u <= |d.audio| && d.offset < interval
    ensures FeedAll(interval, HandBack(d, u), d.audio[|d.audio| - u..]) == d
  {
    HandBackReread(interval, d, u, []);
    assert d.audio[|d.audio| - u..] + [] == d.audio[|d.audio| - u..];
  }

  lemma NothingRead(interval: nat)
    ensures FeedAll(interval, START, []) == START && START.audio == [] + [] + [] && EndsWith(START.audio, [])
  {
  }

  /** What a read brings, after what was handed back. */
  lemma BroughtIs(interval: nat, seen: Demux, before: seq<Byte>, readData: seq<Byte>, input: seq<Byte>,
                  audio: seq<Byte>)
    requires seen.audio == before + readData && FeedAll(interval, seen, input).audio == before + audio
    ensures readData + Demuxed(interval, seen, input) == audio
  {
    FeedGrows(interval, seen, input);
    var all := FeedAll(interval, seen, input).audio;
    assert all == before + (readData + all[|seen.audio|..]);
    assert all[|before|..] == audio;
  }

  lemma {:induction false} FeedNotBelow(interval: nat, d: Demux, s: seq<Byte>)
    requires d.offset + |s| >= 0
    ensures FeedAll(interval, d, s).offset >= 0
    decreases |s|
  {
    if s != [] {
      FeedNotBelow(interval, Feed(interval, d, s[0]), s[1..]);
    }
  }

  /** Reading what was handed back and then more is reading on. */
  lemma ReadOn(interval: nat, d: Demux, readData: seq<Byte>, received: seq<Byte>, input: seq<Byte>)
    requires FeedAll(interval, d, readData) == FeedAll(interval, START, received) && d.offset + |readData| >= 0
    ensures FeedAll(interval, d, readData + input) == FeedAll(interval, START, received + input)
    ensures FeedAll(interval, d, readData + input).offset >= 0
  {
    FeedConcat(interval, d, readData, input);
    FeedConcat(interval, START, received, input);
    FeedNotBelow(interval, d, readData + input);
  }

  // -------------------------------------------------------------------- what reading does, on values

  /** All that was received, demultiplexed, and what became of its audio. */
  datatype Reading = Reading(
    seen: Demux,
    delivered: seq<Byte>,
    surplus: seq<Byte>,
    readData: seq<Byte>,
    running: bool)

  /** All audio received so far was delivered or is kept, in order. */
  ghost predicate AllKept(r: Reading) {
    r.seen.audio == r.delivered + r.surplus + r.readData
  }

  /** Some audio is neither delivered nor kept. */
  ghost predicate Missing(r: Reading) {
    |r.seen.audio| > |r.delivered| + |r.surplus| + |r.readData|
  }

  /** The metadata blocks that some input completes. */
  ghost function NewBlocks(interval: nat, d: Demux, s: seq<Byte>): seq<seq<Byte>> {
    var all := FeedAll(interval, d, s).blocks;
    if d.blocks <= all then all[|d.blocks|..] else []
  }

  /** What is known after some reads, with what was learned made current before each that has `enough`. */
  ghost function KnownAfter(interval: nat, d: Demux, k: Known, inputs: seq<seq<Byte>>, enough: seq<bool>): Known
    requires |inputs| == |enough|
    decreases |inputs|
  {
    if inputs == [] then k
    else
      var last := |inputs| - 1;
      AfterBlocks(MadeCurrent(KnownAfter(interval, d, k, inputs[..last], enough[..last]), enough[last]),
                  NewBlocks(interval, FeedAll(interval, d, Flatten(inputs[..last])), inputs[last]))
  }

  lemma KnownNext(interval: nat, d: Demux, k: Known, inputs: seq<seq<Byte>>, enough: seq<bool>, n: nat)
    requires n < |inputs| == |enough|
    ensures
      KnownAfter(interval, d, k, inputs[..n + 1], enough[..n + 1])
      == AfterBlocks(MadeCurrent(KnownAfter(interval, d, k, inputs[..n], enough[..n]), enough[n]),
                     NewBlocks(interval, FeedAll(interval, d, Flatten(inputs[..n])), inputs[n]))
  {
    assert inputs[..n + 1][..n] == inputs[..n] && enough[..n + 1][..n] == enough[..n];
  }

  /** Some of the blocks teaches something new. */
  ghost predicate SomeTeach(icy: Option<seq<Byte>>, blocks: seq<seq<Byte>>) {
    exists i :: 0 <= i < |blocks| && Teaches(icy, blocks[i])
  }

  lemma ShortTeachesNothing(icy: Option<seq<Byte>>, block: seq<Byte>)
    ensures |block| <= 1 ==> !Teaches(icy, block)
  {
  }

  /** Blocks never change what is current; there is more to make current exactly if one of them taught something. */
  lemma {:induction false} AfterBlocksIs(k: Known, blocks: seq<seq<Byte>>)
    ensures AfterBlocks(k, blocks).icy == k.icy
    ensures AfterBlocks(k, blocks).updateMetadata <==> k.updateMetadata || SomeTeach(k.icy, blocks)
    decreases |blocks|
  {
    hide Teaches, Learned;
    if blocks != [] {
      AfterBlocksIs(AfterBlock(k, blocks[0]), blocks[1..]);
      assert SomeTeach(k.icy, blocks) <==> Teaches(k.icy, blocks[0]) || SomeTeach(k.icy, blocks[1..]) by {
        assert forall i :: 0 < i < |blocks| ==> blocks[i] == blocks[1..][i - 1];
      }
      assert |blocks[0]| <= 1 ==> !Teaches(k.icy, blocks[0]) by { ShortTeachesNothing(k.icy, blocks[0]); }
    }
  }

  lemma {:induction false} StaysLearned(interval: nat, d: Demux, k: Known, inputs: seq<seq<Byte>>, enough: seq<bool>,
                                        i: nat, j: nat)
    requires i <= j <= |inputs| == |enough| && forall m :: i <= m < j ==> !enough[m]
    requires KnownAfter(interval, d, k, inputs[..i], enough[..i]).updateMetadata
    ensures KnownAfter(interval, d, k, inputs[..j], enough[..j]).updateMetadata
    decreases j
  {
    if i < j {
      hide KnownAfter, AfterBlocks, NewBlocks, FeedAll;
      StaysLearned(interval, d, k, inputs, enough, i, j - 1);
      KnownNext(interval, d, k, inputs, enough, j - 1);
      AfterBlocksIs(MadeCurrent(KnownAfter(interval, d, k, inputs[..j - 1], enough[..j - 1]), enough[j - 1]),
                    NewBlocks(interval, FeedAll(interval, d, Flatten(inputs[..j - 1])), inputs[j - 1]));
    }
  }

  /**
   Over any reads: what read `i` brings that is new is current after read `j`, the next that has
   enough, together with all that was learned up to there, if the text fits.
   */
  lemma LearnedIsCurrent(interval: nat, d: Demux, k: Known, inputs: seq<seq<Byte>>, enough: seq<bool>, i: nat, j: nat)
    requires i < j < |inputs| == |enough| && enough[j] && forall m :: i < m < j ==> !enough[m]
    requires SomeTeach(KnownAfter(interval, d, k, inputs[..i + 1], enough[..i + 1]).icy,
                       NewBlocks(interval, FeedAll(interval, d, Flatten(inputs[..i])), inputs[i]))
    ensures
      var learned := KnownAfter(interval, d, k, inputs[..j], enough[..j]);
      KnownAfter(interval, d, k, inputs[..j + 1], enough[..j + 1]).icy
      == if Needed(learned.tags) <= MAX_META_LEN then Some(Block(learned.tags)) else learned.icy
  {
    hide KnownAfter, AfterBlocks, NewBlocks, FeedAll, SomeTeach, Needed, Block;
    KnownNext(interval, d, k, inputs, enough, i);
    AfterBlocksIs(MadeCurrent(KnownAfter(interval, d, k, inputs[..i], enough[..i]), enough[i]),
                  NewBlocks(interval, FeedAll(interval, d, Flatten(inputs[..i])), inputs[i]));
    StaysLearned(interval, d, k, inputs, enough, i + 1, j);
    KnownNext(interval, d, k, inputs, enough, j);
    AfterBlocksIs(MadeCurrent(KnownAfter(interval, d, k, inputs[..j], enough[..j]), enough[j]),
                  NewBlocks(interval, FeedAll(interval, d, Flatten(inputs[..j])), inputs[j]));
  }

  lemma TitleComesFirst(t: Tags)
    ensures !NextField(Rendered(t)).Unfinished?
  {
    hide Title, End, Find, Shown, AfterTitle;
    var s: CString := Title() + Shown(t) + End() + AfterTitle(t);
    assert Title() <= s && s[13..] == Shown(t) + End() + AfterTitle(t);
    EndIsFound(Shown(t), AfterTitle(t));
  }

  lemma PrintedTeaches(t: Tags, icy: Option<seq<Byte>>)
    requires Needed(t) <= MAX_META_LEN && icy != None && icy.value != Block(t)
    ensures Teaches(icy, Block(t)) && Block(t) != [] && Learned(icy, Block(t), t) == Parsed(Block(t), t)
    ensures forall k :: Learned(icy, Block(t), k) == Parsed(Block(t), k)
  {
    hide Needed, Rendered, Block, NextField;
    BlockIsWellFormed(t);
    BlockText(t);
    TitleComesFirst(t);
  }

  lemma BlockDepends(t: Tags, u: Tags)
    requires Needed(u) == Needed(t) <= MAX_META_LEN && Rendered(u) == Rendered(t)
    ensures Block(u) == Block(t)
  {
    hide Needed, Rendered;
  }

  lemma SameText(t: Tags, u: Tags)
    requires u.title == Some(Shown(t)) && u.artist == None && OrEmpty(u.extra) == OrEmpty(t.extra)
    requires LinkedUrl(u) == LinkedUrl(t) && (t.title != None || t.artist == None)
    ensures Rendered(u) == Rendered(t) && Needed(u) == Needed(t)
    ensures Needed(t) <= MAX_META_LEN ==> Block(u) == Block(t)
  {
    hide Title, Url, End, Dash, LinkedUrl;
    assert Shown(u) == Shown(t);
    if Needed(t) <= MAX_META_LEN {
      BlockDepends(t, u);
    }
  }

  /**
   A server that is given a printed block while another is current comes to send exactly that
   block itself, if it has no URL of its own to add, or gets one.
   */
  lemma Relayed(k: Known, t: Tags)
    requires Needed(t) <= MAX_META_LEN && k.icy != None && k.icy.value != Block(t)
    requires NamesHaveNoEnd(t) && Find(OrEmpty(LinkedUrl(t)), End()) == None && OtherFields(OrEmpty(t.extra))
    requires LinkedUrl(t) != None || LinkedUrl(k.tags) == None
    requires t.title != None || t.artist == None
    ensures MadeCurrent(AfterBlock(k, Block(t)), true).icy == Some(Block(t))
  {
    var u := AfterBlock(k, Block(t)).tags;
    assert u.title == Some(Shown(t)) && u.artist == None && OrEmpty(u.extra) == OrEmpty(t.extra)
        && LinkedUrl(u) == LinkedUrl(t) by {
      hide Needed, Rendered, Block, NextField, Teaches, Parsed, Learned, Shown, OtherFields, NamesHaveNoEnd;
      PrintedTeaches(t, k.icy);
      BlockIsWellFormed(t);
      RoundTrip(t, k.tags);
    }
    PrintedTeaches(t, k.icy);
    SameText(t, u);
    hide Teaches, Learned, Block, Rendered, Needed;
  }

  /** What the frame finder is given of a read: nothing, if it brings no audio. */
  ghost function Given(interval: nat, r: Reading, input: seq<Byte>): seq<Byte> {
    var audio := r.readData + Demuxed(interval, r.seen, input);
    if audio == [] then [] else r.surplus + audio
  }

  /** One read: complete frames are delivered, and the rest is kept in its place, or dropped. */
  ghost function AfterRead(interval: nat, r: Reading, input: seq<Byte>, frames: seq<Byte> -> int): Reading
    requires FrameFinder(frames)
  {
    var seen, whole := FeedAll(interval, r.seen, input), Given(interval, r, input);
    var u := frames(whole);
    if whole == [] then r.(seen := seen, readData := [])
    else if 0 <= u <= MAX_UNPROCESSED then
      var done, left := whole[..|whole| - u], whole[|whole| - u..];
      if seen.offset == interval then Reading(seen, r.delivered + done, left, [], r.running)
      else Reading(seen, r.delivered + done, [], left, r.running)
    else if 0 < u < |whole| then Reading(seen, r.delivered + whole[..|whole| - u], [], [], r.running)
    else Reading(seen, r.delivered, [], [], false)
  }

  ghost predicate AllFinders(finders: seq<seq<Byte> -> int>) {
    forall i :: 0 <= i < |finders| ==> FrameFinder(finders[i])
  }

  /** Any number of reads, up to the one at which the source stops. */
  ghost function AfterReads(interval: nat, r: Reading, inputs: seq<seq<Byte>>, finders: seq<seq<Byte> -> int>): Reading
    requires |inputs| == |finders| && AllFinders(finders)
    decreases |inputs|
  {
    if inputs == [] || !r.running then r
    else AfterReads(interval, AfterRead(interval, r, inputs[0], finders[0]), inputs[1..], finders[1..])
  }

  /** A read that leaves no more than 20000 bytes unfinished. */
  ghost predicate FewUnprocessed(interval: nat, r: Reading, input: seq<Byte>, frames: seq<Byte> -> int) {
    Given(interval, r, input) == [] || frames(Given(interval, r, input)) <= MAX_UNPROCESSED
  }

  lemma NextRead(interval: nat, r: Reading, inputs: seq<seq<Byte>>, finders: seq<seq<Byte> -> int>, n: nat)
    requires n < |inputs| == |finders| && AllFinders(finders[n..]) && r.running
    ensures FrameFinder(finders[n]) && AllFinders(finders[n + 1..])
    ensures
      AfterReads(interval, r, inputs[n..], finders[n..])
      == AfterReads(interval, AfterRead(interval, r, inputs[n], finders[n]), inputs[n + 1..], finders[n + 1..])
  {
    assert finders[n] == finders[n..][0];
    assert inputs[n..][1..] == inputs[n + 1..] && finders[n..][1..] == finders[n + 1..];
  }

  lemma FlattenNext(inputs: seq<seq<Byte>>, n: nat)
    requires n < |inputs|
    ensures Flatten(inputs[..n + 1]) == Flatten(inputs[..n]) + inputs[n]
  {
    FlattenSnoc(inputs[..n], inputs[n]);
    assert inputs[..n] + [inputs[n]] == inputs[..n + 1];
  }

  lemma NoMoreReads(interval: nat, r: Reading, inputs: seq<seq<Byte>>, finders: seq<seq<Byte> -> int>)
    requires |inputs| == |finders| && AllFinders(finders) && (inputs == [] || !r.running)
    ensures AfterReads(interval, r, inputs, finders) == r
  {
  }

  /** None of the reads leaves more. */
  ghost predicate AlwaysFew(interval: nat, r: Reading, inputs: seq<seq<Byte>>, finders: seq<seq<Byte> -> int>)
    requires |inputs| == |finders| && AllFinders(finders)
    decreases |inputs|
  {
    inputs == [] || !r.running ||
    (FewUnprocessed(interval, r, inputs[0], finders[0])
     && AlwaysFew(interval, AfterRead(interval, r, inputs[0], finders[0]), inputs[1..], finders[1..]))
  }

  lemma DemuxedAdds(interval: nat, d: Demux, s: seq<Byte>)
    ensures FeedAll(interval, d, s).audio == d.audio + Demuxed(interval, d, s)
  {
    FeedGrows(interval, d, s);
  }

  lemma Regrouped(delivered: seq<Byte>, surplus: seq<Byte>, readData: seq<Byte>, more: seq<Byte>)
    ensures delivered + surplus + readData + more == delivered + (surplus + (readData + more))
    ensures readData + more == [] ==> delivered + surplus + readData + more == delivered + surplus + []
  {
  }

  lemma Divided(delivered: seq<Byte>, whole: seq<Byte>, n: nat)
    requires n <= |whole|
    ensures delivered + whole == delivered + whole[..n] + whole[n..] + []
    ensures delivered + whole == delivered + whole[..n] + [] + whole[n..]
  {
  }

  /** One read keeps all audio exactly if it leaves no more than 20000 bytes; what is missing stays so. */
  lemma ReadKeeps(interval: nat, r: Reading, input: seq<Byte>, frames: seq<Byte> -> int)
    requires FrameFinder(frames)
    ensures
      var after := AfterRead(interval, r, input, frames);
      && (AllKept(r) && after.running ==>
            && (AllKept(after) <==> FewUnprocessed(interval, r, input, frames))
            && (!FewUnprocessed(interval, r, input, frames) ==> Missing(after)))
      && (Missing(r) ==> Missing(after))
  {
    hide FeedAll, Demuxed;
    DemuxedAdds(interval, r.seen, input);
    var whole, u := Given(interval, r, input), frames(Given(interval, r, input));
    Regrouped(r.delivered, r.surplus, r.readData, Demuxed(interval, r.seen, input));
    if 0 <= u <= MAX_UNPROCESSED {
      Divided(r.delivered, whole, |whole| - u);
    }
  }

  /** The outcome of a read is as on values. */
  lemma ReadIs(interval: nat, r: Reading, input: seq<Byte>, frames: seq<Byte> -> int, audio: seq<Byte>,
               block: seq<Byte>,
               after: Reading)
    requires FrameFinder(frames) && audio == r.readData + Demuxed(interval, r.seen, input)
    requires after.seen == FeedAll(interval, r.seen, input) && after.delivered == r.delivered + block
    requires
      if audio == [] then block == [] && after.surplus == r.surplus && after.readData == []
          && after.running == r.running
      else
        var whole := r.surplus + audio;
        && Outcome(whole, frames(whole), after.seen.offset == interval, block, after.surplus, after.readData)
        && after.running == (r.running && (0 <= frames(whole) <= MAX_UNPROCESSED || 0 < frames(whole) < |whole|))
    ensures after == AfterRead(interval, r, input, frames)
  {
    hide FeedAll, Demuxed;
  }

  /**
   Over any number of reads after which the source still runs, all audio received was
   delivered or is kept exactly if none of them left more than 20000 bytes unfinished.
   */
  lemma {:induction false} ReadsKeep(interval: nat, r: Reading, inputs: seq<seq<Byte>>, finders: seq<seq<Byte> -> int>)
    requires |inputs| == |finders| && AllFinders(finders)
    ensures
      var after := AfterReads(interval, r, inputs, finders);
      && (AllKept(r) && after.running ==> (AllKept(after) <==> AlwaysFew(interval, r, inputs, finders)))
      && (Missing(r) ==> Missing(after))
    decreases |inputs|
  {
    hide AfterRead, FewUnprocessed;
    if inputs != [] && r.running {
      ReadKeeps(interval, r, inputs[0], finders[0]);
      ReadsKeep(interval, AfterRead(interval, r, inputs[0], finders[0]), inputs[1..], finders[1..]);
    }
  }

  /** A source's input: what one read leaves for the next. */
  class Input {
    const source: Source
    var readData: seq<Byte>      // the start of the next read buffer
    var surplus: seq<Byte>       // kept with the frame finder, goes before the next block
    var running: bool

    ghost var received: seq<Byte>
    ghost var delivered: seq<Byte>

    ghost function Seen(): Demux
      reads this
    {
      FeedAll(source.interval, START, received)
    }

    ghost predicate Valid()
      reads this, source, source.buildMetadata, source.plugin
    {
      && source.Valid() && EndsWith(source.d.audio, surplus)
      && FeedAll(source.interval, source.d, readData) == Seen()
      && 0 <= source.d.offset + |readData|
      && (readData != [] ==> source.d.offset + |readData| < source.interval)
    }

    ghost function Now(): Reading
      reads this
    {
      Reading(Seen(), delivered, surplus, readData, running)
    }

    /** All audio received so far was delivered or is kept, in order. */
    ghost predicate Conserved()
      reads this
    {
      AllKept(Now())
    }

    constructor (source: Source)
      requires source.Valid() && source.d == START
      ensures Valid() && Conserved() && this.source == source && running
      ensures received == [] && delivered == []
    {
      hide FeedAll, Source.Valid, EndsWith;
      this.source, readData, surplus, running := source, [], [], true;
      received, delivered := [], [];
      NothingRead(source.interval);
    }

    /** The block's last `u` bytes go back to be read again. */
    method Rewind(whole: seq<Byte>, u: nat)
      requires source.Valid() && 0 <= source.d.offset < source.interval && surplus == []
      requires EndsWith(source.d.audio, whole) && u <= |whole| && u <= MAX_UNPROCESSED && source.d == Seen()
      modifies this`readData, source`offset, source`d
      ensures Valid() && readData == whole[|whole| - u..]
    {
      hide FeedAll;
      source.offset := (source.offset - u) % UINT32;
      SuffixOfSuffix(source.d.audio, whole, u);
      HandBackAll(source.interval, source.d, u);
      source.d := HandBack(source.d, u);
      readData := whole[|whole| - u..];
    }

    /**
     validate_mpeg: the complete frames are delivered. An unfinished one is kept with the frame
     finder if the next byte to read is part of a metadata block; otherwise it goes back to be
     read again, and the unsigned offset goes back with it, possibly below zero.
     */
    method ValidateMpeg(audio: seq<Byte>, frames: seq<Byte> -> int) returns (block: seq<Byte>)
      requires source.Valid() && source.d.offset >= 0 && FrameFinder(frames)
      requires EndsWith(source.d.audio, surplus + audio) && readData == [] && source.d == Seen()
      modifies this`readData, this`surplus, this`running, source`offset, source`d
      ensures Valid()
      ensures
        var whole := old(surplus) + audio;
        var u := frames(whole);
        && Outcome(whole, u, Seen().offset == source.interval, block, surplus, readData)
        && running == (old(running) && (0 <= u <= MAX_UNPROCESSED || 0 < u < |whole|))
    {
      hide FeedAll, EndsWith, Source.Valid;
      FeedNone(source.interval, source.d, readData);
      source.AtBlock();
      EndsWithTail(source.d.audio, surplus + audio, |surplus + audio|);
      var whole := surplus + audio;
      surplus := [];
      var unprocessed := frames(whole);
      if unprocessed < 0 || unprocessed > MAX_UNPROCESSED {
        if unprocessed > 0 && |whole| - unprocessed > 0 {
          return whole[..|whole| - unprocessed];
        }
        running := false;
        return [];
      }
      var len := |whole| - unprocessed;
      if unprocessed > 0 {
        if source.interval <= source.offset {
          surplus := whole[len..];
          EndsWithTail(source.d.audio, whole, len);
          return whole[..len];
        }
        Rewind(whole, unprocessed);
      }
      block := whole[..len];
    }

    /** complete_read: what was learned becomes current between reads, if enough has been read. */
    method UpdateMetadata(enough: bool)
      requires Valid()
      modifies source.plugin`icy, source.plugin`updateMetadata
      ensures Valid() && Now() == old(Now())
      ensures
        var plugin := source.plugin;
        plugin.icy ==
          if old(plugin.updateMetadata) && enough && Needed(plugin.tags) <= MAX_META_LEN then Some(Block(plugin.tags))
          else old(plugin.icy)
      ensures source.plugin.Now() == MadeCurrent(old(source.plugin.Now()), enough)
    {
      hide FeedAll;
      if source.plugin.updateMetadata && enough {
        source.plugin.Setup();
      }
    }

    /** What the filter left in the buffer, if anything. */
    method Deliver(audio: seq<Byte>, frames: seq<Byte> -> int) returns (block: seq<Byte>)
      requires source.Valid() && source.d.offset >= 0 && FrameFinder(frames) && audio != []
      requires EndsWith(source.d.audio, surplus + audio) && readData == [] && source.d == Seen()
      modifies this`readData, this`surplus, this`running, this`delivered, source`offset, source`d
      ensures Valid() && delivered == old(delivered) + block
      ensures
        var whole := old(surplus) + audio;
        && Outcome(whole, frames(whole), Seen().offset == source.interval, block, surplus, readData)
        && running == (old(running) && (0 <= frames(whole) <= MAX_UNPROCESSED || 0 < frames(whole) < |whole|))
    {
      hide FeedAll, Source.Valid, EndsWith;
      block := ValidateMpeg(audio, frames);
      delivered := delivered + block;
    }

    /** Input that was handed back is all audio. */
    lemma KeptIsAudio()
      requires Valid()
      ensures Seen().audio == source.d.audio + readData && Seen().blocks == source.d.blocks
      ensures Conserved() <==> source.d.audio == delivered + surplus
    {
      if readData != [] {
        FeedAudio(source.interval, source.d, readData);
      }
      var x, y := source.d.audio, delivered + surplus;
      if x + readData == y + readData {
        assert x == (x + readData)[..|x|] && y == (y + readData)[..|y|];
      }
    }

    /**
     mp3_get_filter_meta, once the read buffer is full. What the frame finder is given is
     what it kept, what was handed back and the new audio.
     */
    method Read(input: seq<Byte>, frames: seq<Byte> -> int) returns (block: seq<Byte>)
      requires Valid() && FrameFinder(frames)
      modifies this`readData, this`surplus, this`running, this`received, this`delivered
      modifies source, source.buildMetadata, source.plugin`tags, source.plugin`updateMetadata
      ensures Valid() && received == old(received) + input && delivered == old(delivered) + block
      ensures Grown(old(source.icys), source.icys, source.plugin.icy)
      ensures Now() == AfterRead(source.interval, old(Now()), input, frames)
      ensures
        source.plugin.Now() == AfterBlocks(old(source.plugin.Now()), NewBlocks(source.interval, old(Seen()), input))
      ensures
        old(Conserved()) && running ==> (Conserved() <==> FewUnprocessed(source.interval, old(Now()), input, frames))
    {
      hide FeedAll, Source.Valid, EndsWith, Demuxed, AllKept, FewUnprocessed, Grown, AfterRead, Outcome, AfterBlocks;
      ReadKeeps(source.interval, Now(), input, frames);
      KeptIsAudio();
      ghost var before := source.d.audio;
      var bytes := readData + input;
      var buf := new Byte[|bytes|](i requires 0 <= i < |bytes| => bytes[i]);
      assert buf[..|bytes|] == bytes;
      readData := [];
      ReadOn(source.interval, source.d, old(readData), received, input);
      FeedConcat(source.interval, START, received, input);
      var len := source.FilterMeta(buf, |bytes|);
      BroughtIs(source.interval, old(Seen()), before, old(readData), input, buf[..len.value]);
      received := received + input;
      block := [];
      ghost var audio := buf[..len.value];
      EndsWithMore(before, surplus, audio);
      if len.value == 0 {
        FeedNone(source.interval, source.d, readData);
        NoneAdded(before, surplus, delivered, buf[..len.value]);
      } else {
        block := Deliver(buf[..len.value], frames);
      }
      ReadIs(source.interval, old(Now()), input, frames, audio, block, Now());
    }

    /** complete_read, and then what is done with a full buffer. */
    method ReadNext(input: seq<Byte>, frames: seq<Byte> -> int, enough: bool)
      requires Valid() && FrameFinder(frames)
      modifies this`readData, this`surplus, this`running, this`received, this`delivered
      modifies source, source.buildMetadata, source.plugin
      ensures Valid() && received == old(received) + input
      ensures Now() == AfterRead(source.interval, old(Now()), input, frames)
      ensures
        var plugin := source.plugin;
        && plugin.Now()
           == AfterBlocks(MadeCurrent(old(plugin.Now()), enough), NewBlocks(source.interval, old(Seen()), input))
        && plugin.icy
           == (if old(plugin.updateMetadata) && enough && Needed(old(plugin.tags)) <= MAX_META_LEN then
                 Some(Block(old(plugin.tags)))
               else old(plugin.icy))
        && (plugin.updateMetadata <==>
              (old(plugin.updateMetadata) && !enough)
              || SomeTeach(plugin.icy, NewBlocks(source.interval, old(Seen()), input)))
    {
      hide Valid, Conserved, AfterRead, Grown, FewUnprocessed, Seen, AfterBlocks, NewBlocks, SomeTeach, Block, Needed;
      AfterBlocksIs(MadeCurrent(source.plugin.Now(), enough), NewBlocks(source.interval, Seen(), input));
      UpdateMetadata(enough);
      var _ := Read(input, frames);
    }

    /** The first `n` of the reads are done, from `before` and `known`; the rest leads to `goal`. */
    ghost predicate ReadUpTo(before: seq<Byte>, known: Known, goal: Reading, inputs: seq<seq<Byte>>,
                             finders: seq<seq<Byte> -> int>, enough: seq<bool>, n: nat)
      reads this, source, source.buildMetadata, source.plugin
    {
      && Valid() && n <= |inputs| == |finders| == |enough|
      && received == before + Flatten(inputs[..n])
      && AllFinders(finders[n..]) && goal == AfterReads(source.interval, Now(), inputs[n..], finders[n..])
      && source.plugin.Now()
         == KnownAfter(source.interval, FeedAll(source.interval, START, before), known, inputs[..n], enough[..n])
    }

    lemma NoneReadYet(goal: Reading, inputs: seq<seq<Byte>>, finders: seq<seq<Byte> -> int>, enough: seq<bool>)
      requires Valid() && |inputs| == |finders| == |enough| && AllFinders(finders)
      requires goal == AfterReads(source.interval, Now(), inputs, finders)
      ensures ReadUpTo(received, source.plugin.Now(), goal, inputs, finders, enough, 0)
    {
      hide Valid, AfterReads, FeedAll;
      assert inputs[..0] == [] && inputs[0..] == inputs && finders[0..] == finders && received + [] == received;
    }

    lemma AllRead(before: seq<Byte>, known: Known, goal: Reading, inputs: seq<seq<Byte>>,
                  finders: seq<seq<Byte> -> int>, enough: seq<bool>, n: nat)
      requires ReadUpTo(before, known, goal, inputs, finders, enough, n) && (n < |inputs| ==> !running)
      ensures Valid() && Now() == goal && received == before + Flatten(inputs[..n])
      ensures
        source.plugin.Now()
        == KnownAfter(source.interval, FeedAll(source.interval, START, before), known, inputs[..n], enough[..n])
    {
      hide Valid, KnownAfter, FeedAll;
      NoMoreReads(source.interval, Now(), inputs[n..], finders[n..]);
    }

    /** One turn of the loop of reads. */
    method ReadOne(inputs: seq<seq<Byte>>, finders: seq<seq<Byte> -> int>, enough: seq<bool>, n: nat,
                   ghost before: seq<Byte>, ghost known: Known, ghost goal: Reading)
      requires ReadUpTo(before, known, goal, inputs, finders, enough, n) && n < |inputs| && running
      modifies this`readData, this`surplus, this`running, this`received, this`delivered
      modifies source, source.buildMetadata, source.plugin
      ensures ReadUpTo(before, known, goal, inputs, finders, enough, n + 1)
    {
      hide Valid, Conserved, AfterRead, AfterReads, AllFinders, Flatten, KnownAfter, AfterBlocks, MadeCurrent;
      hide NewBlocks, SomeTeach, FeedAll, Needed, Block;
      NextRead(source.interval, Now(), inputs, finders, n);
      FlattenNext(inputs, n);
      KnownNext(source.interval, FeedAll(source.interval, START, before), known, inputs, enough, n);
      FeedConcat(source.interval, START, before, Flatten(inputs[..n]));
      ReadNext(inputs[n], finders[n], enough[n]);
    }

    /**
     Any number of reads, with what was learned made current in between, while the source
     runs. If it still does, all audio received was delivered or is kept, exactly if no read
     left more than 20000 bytes unfinished.
     */
    method ReadAll(inputs: seq<seq<Byte>>, finders: seq<seq<Byte> -> int>, enough: seq<bool>) returns (n: nat)
      requires Valid() && |inputs| == |finders| == |enough| && AllFinders(finders)
      modifies this`readData, this`surplus, this`running, this`received, this`delivered
      modifies source, source.buildMetadata, source.plugin
      ensures Valid() && n <= |inputs| && (running ==> n == |inputs|)
      ensures received == old(received) + Flatten(inputs[..n])
      ensures Now() == AfterReads(source.interval, old(Now()), inputs, finders)
      ensures
        source.plugin.Now()
        == KnownAfter(source.interval, old(Seen()), old(source.plugin.Now()), inputs[..n], enough[..n])
      ensures
        old(Conserved()) && running ==> (Conserved() <==> AlwaysFew(source.interval, old(Now()), inputs, finders))
    {
      hide Valid, AllKept, AlwaysFew, AfterReads, KnownAfter, ReadUpTo, FeedAll;
      ReadsKeep(source.interval, Now(), inputs, finders);
      ghost var before, known := received, source.plugin.Now();
      ghost var goal := AfterReads(source.interval, Now(), inputs, finders);
      NoneReadYet(goal, inputs, finders, enough);
      n := 0;
      while n < |inputs| && running
        invariant n <= |inputs| && ReadUpTo(before, known, goal, inputs, finders, enough, n)
      {
        ReadOne(inputs, finders, enough, n, before, known, goal);
        n := n + 1;
      }
      AllRead(before, known, goal, inputs, finders, enough, n);
    }
  }

  /** A frame finder that leaves 20001 bytes if it is given more than 20000. */
  function Unfinished(s: seq<Byte>): int {
    if |s| > 20000 then 20001 else 0
  }

  lemma DropsAll(interval: nat, bytes: seq<Byte>)
    requires |bytes| == 20002 <= interval
    ensures
      var before := Reading(START, [], [], [], true);
      && Given(interval, before, bytes) == bytes && !AlwaysFew(interval, before, [bytes], [Unfinished])
      && var after := AfterReads(interval, before, [bytes], [Unfinished]);
         after == Reading(FeedAll(interval, START, bytes), bytes[..1], [], [], true)
  {
    FeedAudio(interval, START, bytes);
    DemuxedIs(interval, START, bytes, bytes);
    assert [] + bytes == bytes;
    assert [bytes][1..] == [];
  }

  /**
   A read of 20002 bytes of audio, of which all but the first belong to a frame that is not
   complete: they are lost, and the source goes on.
   */
  method UnfinishedIsDropped(bytes: seq<Byte>) returns (input: Input)
    requires |bytes| == 20002
    ensures input.Valid() && input.running && input.received == bytes
    ensures input.delivered == bytes[..1] && input.surplus == input.readData == [] && !input.Conserved()
  {
    var plugin := new Mp3State(Tags(None, None, None, None, None), None);
    var source := new Source(30000, plugin);
    input := new Input(source);
    hide FeedAll, AfterReads, AlwaysFew, Given;
    DropsAll(30000, bytes);
    assert input.Now() == Reading(START, [], [], [], true) by { NothingRead(30000); }
    var n := input.ReadAll([bytes], [Unfinished], [false]);
    assert [bytes][..1] == [bytes] && Flatten([bytes]) == bytes + [];
  }
}
