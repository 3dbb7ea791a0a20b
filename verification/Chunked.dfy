/**
 Chunked output to HTTP/1.1 listeners: src/format_mp3.c:656-697 with the chunk framing of
 src/connection.c:690-705, decoded as section 7.1 of RFC 9112 says.
 */
module Chunked {
  import opened Bytes
  import opened Vectors
  import opened Wrappers

  const CR: Byte := 13
  const LF: Byte := 10
  const MAX_SEND: nat := 100000

  // -------------------------------------------------------------------- sizes in hexadecimal

  function HexDigit(d: nat): Byte
    requires d < 16
  {
    if d < 10 then 48 + d else 87 + d
  }

  /** "%x" */
  function Hex(n: nat): (r: seq<Byte>)
    ensures |r| > 0
    ensures n < 0x10 ==> |r| <= 1
    ensures n < 0x100 ==> |r| <= 2
    ensures n < 0x1000 ==> |r| <= 3
    ensures n < 0x10000 ==> |r| <= 4
    ensures n < 0x100000 ==> |r| <= 5
  {
    if n < 16 then [HexDigit(n)] else Hex(n / 16) + [HexDigit(n % 16)]
  }

  /** HEXDIG of RFC 5234, either case. */
  function DigitValue(b: Byte): Option<nat> {
    if 48 <= b <= 57 then Some(b - 48)
    else if 97 <= b <= 102 then Some(b - 87)
    else if 65 <= b <= 70 then Some(b - 55)
    else None
  }

  /** The value of leading hexadecimal digits on top of `value`, and how many there are. */
  function ReadHex(s: seq<Byte>, value: nat): (nat, nat)
    decreases |s|
  {
    if s == [] || DigitValue(s[0]) == None then (value, 0)
    else
      var (v, n) := ReadHex(s[1..], 16 * value + DigitValue(s[0]).value);
      (v, n + 1)
  }

  lemma ReadHexEnd(rest: seq<Byte>, value: nat)
    requires rest == [] || DigitValue(rest[0]) == None
    ensures ReadHex(rest, value) == (value, 0)
  {
  }

  /** After the printed digits of `n` the reader holds `n`. */
  lemma {:induction false} ReadHexDigits(n: nat, rest: seq<Byte>)
    ensures
      var (v, k) := ReadHex(rest, n);
      ReadHex(Hex(n) + rest, 0) == (v, k + |Hex(n)|)
  {
    if n < 16 {
      assert (Hex(n) + rest)[1..] == rest;
    } else {
      var last := [HexDigit(n % 16)];
      assert Hex(n) + rest == Hex(n / 16) + (last + rest);
      ReadHexDigits(n / 16, last + rest);
      assert (last + rest)[1..] == rest;
      assert 16 * (n / 16) + n % 16 == n;
    }
  }

  /** Reading what was printed gives the number back, whatever follows that is no digit. */
  lemma HexRead(n: nat, rest: seq<Byte>)
    requires (rest == [] || DigitValue(rest[0]) == None)
    ensures ReadHex(Hex(n) + rest, 0) == (n, |Hex(n)|)
  {
    ReadHexDigits(n, rest);
    ReadHexEnd(rest, n);
  }

  /** What was read as digits is digits, and they alone make the value. */
  lemma {:induction false} ReadHexPrefix(s: seq<Byte>, value: nat)
    ensures
      var (v, k) := ReadHex(s, value);
      && k <= |s| && (forall i :: 0 <= i < k ==> DigitValue(s[i]) != None)
      && ReadHex(s[..k], value) == (v, k)
    decreases |s|
  {
    if s != [] && DigitValue(s[0]) != None {
      var value' := 16 * value + DigitValue(s[0]).value;
      ReadHexPrefix(s[1..], value');
      var k := ReadHex(s[1..], value').1;
      assert s[..k + 1][1..] == s[1..][..k];
      assert forall i :: 0 < i <= k ==> s[i] == s[1..][i - 1];
    }
  }

  lemma {:induction false} ReadHexSnoc(s: seq<Byte>, c: Byte, value: nat)
    requires (forall i :: 0 <= i < |s| ==> DigitValue(s[i]) != None) && DigitValue(c) != None
    ensures ReadHex(s + [c], value).0 == 16 * ReadHex(s, value).0 + DigitValue(c).value
    decreases |s|
  {
    if s == [] {
      assert s + [c] == [c] && [c][1..] == [];
    } else {
      assert (s + [c])[1..] == s[1..] + [c];
      ReadHexSnoc(s[1..], c, 16 * value + DigitValue(s[0]).value);
    }
  }

  /** A digit as "%x" prints it. */
  predicate Printed(b: Byte) {
    DigitValue(b) != None && b == HexDigit(DigitValue(b).value)
  }

  lemma {:induction false} HexIsPrinted(n: nat)
    ensures forall i :: 0 <= i < |Hex(n)| ==> Printed(Hex(n)[i])
  {
    if n >= 16 {
      HexIsPrinted(n / 16);
    }
  }

  /** There is one numeral of each value and length. */
  lemma {:induction false} NumeralIsHex(s: seq<Byte>, n: nat)
    requires |s| == |Hex(n)| && forall i :: 0 <= i < |s| ==> Printed(s[i])
    requires ReadHex(s, 0).0 == n
    ensures s == Hex(n)
  {
    var init, c := s[..|s| - 1], s[|s| - 1];
    assert s == init + [c];
    ReadHexSnoc(init, c, 0);
    if n < 16 {
      assert init == [];
    } else {
      NumeralIsHex(init, n / 16);
    }
  }

  // -------------------------------------------------------------------- chunks

  const EOL: seq<Byte> := [CR, LF]

  /** One chunk of section 7.1 of RFC 9112, without extensions. */
  function Chunk(data: seq<Byte>): seq<Byte> {
    Hex(|data|) + EOL + data + EOL
  }

  function Chunks(payloads: seq<seq<Byte>>): seq<Byte> {
    if payloads == [] then [] else Chunk(payloads[0]) + Chunks(payloads[1..])
  }

  /** A complete chunk at the start of the stream: its data and how many bytes it takes. */
  function ReadChunk(s: seq<Byte>): Option<(seq<Byte>, nat)> {
    var (size, k) := ReadHex(s, 0);
    if k == 0 || size == 0 || |s| < k + 2 + size + 2 then None
    else if s[k..k + 2] != EOL || s[k + 2 + size..k + 2 + size + 2] != EOL then None
    else Some((s[k + 2..k + 2 + size], k + 2 + size + 2))
  }

  /** The payload of all complete chunks, and the bytes after them. */
  function Decode(s: seq<Byte>): (seq<Byte>, seq<Byte>)
    decreases |s|
  {
    match ReadChunk(s)
    case None => ([], s)
    case Some((data, used)) =>
      var (payload, rest) := Decode(s[used..]);
      (data + payload, rest)
  }

  lemma Middle(s: seq<Byte>, t: seq<Byte>, u: seq<Byte>, whole: seq<Byte>)
    requires whole == s + t + u
    ensures |whole| >= |s| + |t| && whole[|s|..|s| + |t|] == t
  {
  }

  lemma ReadWholeChunk(data: seq<Byte>, rest: seq<Byte>)
    requires data != []
    ensures ReadChunk(Chunk(data) + rest) == Some((data, |Chunk(data)|))
  {
    var h := Hex(|data|);
    var s := Chunk(data) + rest;
    assert s == h + (EOL + data + EOL + rest);
    HexRead(|data|, EOL + data + EOL + rest);
    Middle(h, EOL, data + EOL + rest, s);
    Middle(h + EOL, data, EOL + rest, s);
    Middle(h + EOL + data, EOL, rest, s);
  }

  lemma {:induction false} HexIsDigits(n: nat)
    ensures forall i :: 0 <= i < |Hex(n)| ==> DigitValue(Hex(n)[i]) != None
  {
    if n >= 16 {
      HexIsDigits(n / 16);
    }
  }

  lemma {:induction false} ReadHexShort(s: seq<Byte>, value: nat)
    requires forall i :: 0 <= i < |s| ==> DigitValue(s[i]) != None
    ensures ReadHex(s, value).1 == |s|
    decreases |s|
  {
    if s != [] {
      ReadHexShort(s[1..], 16 * value + DigitValue(s[0]).value);
    }
  }

  /** A chunk that is not all there is not taken for a chunk. */
  lemma ReadPartOfChunk(data: seq<Byte>, k: nat)
    requires data != [] && k < |Chunk(data)|
    ensures ReadChunk(Chunk(data)[..k]) == None
  {
    var h, s := Hex(|data|), Chunk(data)[..k];
    if k > |h| {
      var tail := s[|h|..];
      assert s == h + tail && tail[0] == CR;
      HexRead(|data|, tail);
    } else {
      assert s == h[..k];
      HexIsDigits(|data|);
      ReadHexShort(s, 0);
    }
  }

  /** The stream decodes to exactly the chunks sent, leaving the part of a chunk that follows. */
  lemma {:induction false} DecodeChunks(payloads: seq<seq<Byte>>, data: seq<Byte>, k: nat)
    requires forall i :: 0 <= i < |payloads| ==> payloads[i] != []
    requires k == 0 || (data != [] && k < |Chunk(data)|)
    ensures
      var part := if k == 0 then [] else Chunk(data)[..k];
      Decode(Chunks(payloads) + part) == (Flatten(payloads), part)
  {
    var part := if k == 0 then [] else Chunk(data)[..k];
    if payloads == [] {
      assert Chunks(payloads) + part == part;
      if k > 0 {
        ReadPartOfChunk(data, k);
      }
    } else {
      var s := Chunks(payloads) + part;
      var rest := Chunks(payloads[1..]) + part;
      assert s == Chunk(payloads[0]) + rest;
      ReadWholeChunk(payloads[0], rest);
      assert s[|Chunk(payloads[0])|..] == rest;
      DecodeChunks(payloads[1..], data, k);
    }
  }

  lemma DecodeFirst(data: seq<Byte>, rest: seq<Byte>)
    requires data != []
    ensures Decode(Chunk(data) + rest) == (data + Decode(rest).0, Decode(rest).1)
  {
    hide Chunk, ReadChunk;
    ReadWholeChunk(data, rest);
    assert (Chunk(data) + rest)[|Chunk(data)|..] == rest;
  }

  /** Chunks before it do not change how a stream decodes. */
  lemma {:induction false} DecodeAfter(payloads: seq<seq<Byte>>, s: seq<Byte>)
    requires forall i :: 0 <= i < |payloads| ==> payloads[i] != []
    ensures Decode(Chunks(payloads) + s) == (Flatten(payloads) + Decode(s).0, Decode(s).1)
  {
    hide Decode, Chunk;
    if payloads == [] {
      assert Chunks(payloads) + s == s && Flatten(payloads) + Decode(s).0 == Decode(s).0;
    } else {
      var rest := Chunks(payloads[1..]) + s;
      assert Chunks(payloads) + s == Chunk(payloads[0]) + rest;
      DecodeFirst(payloads[0], rest);
      DecodeAfter(payloads[1..], s);
      assert payloads[0] + (Flatten(payloads[1..]) + Decode(s).0) == Flatten(payloads) + Decode(s).0;
    }
  }

  /** A stream that decodes with nothing left over is longer than its payload by five bytes, if it is not empty. */
  lemma {:induction false} DecodedLength(s: seq<Byte>)
    requires Decode(s).1 == [] && s != []
    ensures |s| >= |Decode(s).0| + 5
    decreases |s|
  {
    var used := ReadChunk(s).value.1;
    ReadHexPrefix(s, 0);
    if s[used..] != [] {
      DecodedLength(s[used..]);
    }
  }

  lemma FourParts(s: seq<Byte>, k: nat, n: nat)
    requires k + 2 + n + 2 <= |s|
    ensures s[..k + 2 + n + 2] == s[..k] + s[k..k + 2] + s[k + 2..k + 2 + n] + s[k + 2 + n..k + 2 + n + 2]
  {
  }

  /** What a chunk that was read looks like. */
  lemma ReadChunkIs(s: seq<Byte>)
    requires ReadChunk(s) != None
    ensures
      var k, d, used := ReadHex(s, 0).1, ReadChunk(s).value.0, ReadChunk(s).value.1;
      && 0 < k <= |s| && used == k + 4 + |d| <= |s| && ReadHex(s, 0).0 == |d|
      && s[..used] == s[..k] + EOL + d + EOL
  {
    hide ReadHex;
    ReadHexPrefix(s, 0);
    var k, n := ReadHex(s, 0).1, ReadHex(s, 0).0;
    FourParts(s, k, n);
  }

  /** A stream of the length of one chunk that decodes to its payload is that chunk, but for how the size is written. */
  lemma OneChunk(s: seq<Byte>, data: seq<Byte>)
    requires 0 < |data| <= MAX_SEND && |s| == |Chunk(data)| && Decode(s) == (data, [])
    ensures ReadHex(s, 0) == (|data|, |Hex(|data|)|) && s == s[..|Hex(|data|)|] + EOL + data + EOL
  {
    var (d, used) := ReadChunk(s).value;
    ReadChunkIs(s);
    if s[used..] != [] {
      DecodedLength(s[used..]);
      assert false;
    }
    hide ReadChunk, ReadHex, Hex;
    assert d + [] == data && s[..used] == s;
  }

  /** What is sent of a chunk from a place in it. */
  function ChunkFrom(data: seq<Byte>, k: nat): seq<Byte> {
    if k < |Chunk(data)| then Chunk(data)[k..] else []
  }

  lemma WholeDecodes(next: seq<Byte>)
    requires next != []
    ensures |Chunk(next)| > 0 && ChunkFrom(next, 0) == Chunk(next) && Decode(Chunk(next)) == (next, [])
  {
    DecodeFirst(next, []);
    assert ReadChunk([]) == None && Decode([]) == ([], []);
    assert Chunk(next) + [] == Chunk(next) && next + [] == next;
  }

  lemma SizeIsPrinted(data: seq<Byte>, next: seq<Byte>, k: nat, s: seq<Byte>)
    requires k < |Chunk(data)| && k < |Chunk(next)| && s == Chunk(data)[..k] + Chunk(next)[k..]
    requires ReadHex(s, 0) == (|next|, |Hex(|next|)|)
    ensures |Hex(|next|)| <= |s| && ReadHex(s[..|Hex(|next|)|], 0) == ReadHex(s, 0)
    ensures forall i :: 0 <= i < |Hex(|next|)| ==> Printed(s[i])
  {
    var h, g := Hex(|next|), Hex(|data|);
    ReadHexPrefix(s, 0);
    HexIsPrinted(|next|);
    HexIsPrinted(|data|);
    if |g| < k {
      assert s[|g|] == Chunk(data)[|g|] == CR;
      assert |h| <= |g|;
    }
    forall i | 0 <= i < |h|
      ensures Printed(s[i])
    {
      if i < k {
        assert s[i] == Chunk(data)[i] == g[i];
      } else {
        assert s[i] == Chunk(next)[i] == h[i];
      }
    }
  }

  lemma MixedIsWhole(data: seq<Byte>, next: seq<Byte>, k: nat)
    requires k < |Chunk(data)| && k < |Chunk(next)| && 0 < |next| <= MAX_SEND
    requires Decode(Chunk(data)[..k] + Chunk(next)[k..]) == (next, [])
    ensures Chunk(next)[..k] == Chunk(data)[..k]
  {
    hide Decode;
    var s, h := Chunk(data)[..k] + Chunk(next)[k..], Hex(|next|);
    OneChunk(s, next);
    SizeIsPrinted(data, next, k, s);
    NumeralIsHex(s[..|h|], |next|);
    assert s == Chunk(next);
    assert s[..k] == Chunk(data)[..k];
  }

  /**
   The start of one chunk and the rest of another of at most 100000 bytes decode to the data
   of the other exactly if they make up the other.
   */
  lemma MixedDecodes(data: seq<Byte>, next: seq<Byte>, k: nat)
    requires k < |Chunk(data)| && data != [] && 0 < |next| <= MAX_SEND
    ensures
      Decode(Chunk(data)[..k] + ChunkFrom(next, k)) == (next, [])
      <==> k < |Chunk(next)| && Chunk(next)[..k] == Chunk(data)[..k]
  {
    var s := Chunk(data)[..k] + ChunkFrom(next, k);
    if k >= |Chunk(next)| {
      assert s == Chunk(data)[..k];
      ReadPartOfChunk(data, k);
    } else if Chunk(next)[..k] == Chunk(data)[..k] {
      assert s == Chunk(next);
      WholeDecodes(next);
    } else if Decode(s) == (next, []) {
      MixedIsWhole(data, next, k);
    }
  }

  // -------------------------------------------------------------------- the listener

  lemma ChunksSnoc(payloads: seq<seq<Byte>>, data: seq<Byte>)
    ensures Chunks(payloads + [data]) == Chunks(payloads) + Chunk(data)
  {
    if payloads != [] {
      ChunksSnoc(payloads[1..], data);
      assert (payloads + [data])[1..] == payloads[1..] + [data];
    }
  }

  /** Complete chunks that carry what was consumed, then the first `k` bytes of the next one. */
  ghost predicate Framed(wire: seq<Byte>, payloads: seq<seq<Byte>>, consumed: seq<Byte>, data: seq<Byte>, k: nat) {
    && (k == 0 || (data != [] && k < |Chunk(data)|))
    && (forall i :: 0 <= i < |payloads| ==> payloads[i] != [])
    && Flatten(payloads) == consumed
    && wire == Chunks(payloads) + Chunk(data)[..k]
  }

  lemma FramedMore(wire: seq<Byte>, payloads: seq<seq<Byte>>, consumed: seq<Byte>, data: seq<Byte>, k: nat, n: nat)
    requires Framed(wire, payloads, consumed, data, k) && data != [] && k + n < |Chunk(data)|
    ensures Framed(wire + Chunk(data)[k..k + n], payloads, consumed, data, k + n)
  {
    hide Chunk, Chunks, Flatten;
    var c := Chunk(data);
    assert c[..k + n] == c[..k] + c[k..k + n];
    assert Chunks(payloads) + (c[..k] + c[k..k + n]) == Chunks(payloads) + c[..k] + c[k..k + n];
  }

  lemma FramedWhole(wire: seq<Byte>, payloads: seq<seq<Byte>>, consumed: seq<Byte>, data: seq<Byte>, k: nat,
                    next: seq<Byte>)
    requires Framed(wire, payloads, consumed, data, k) && data != []
    ensures Framed(wire + Chunk(data)[k..], payloads + [data], consumed + data, next, 0)
  {
    hide Chunk, Chunks, Flatten;
    var c := Chunk(data);
    assert c == c[..k] + c[k..];
    ChunksSnoc(payloads, data);
    FlattenSnoc(payloads, data);
  }

  /** Another chunk can be gone on with exactly if it begins with what was sent of the one before. */
  lemma FramedElse(wire: seq<Byte>, payloads: seq<seq<Byte>>, consumed: seq<Byte>, data: seq<Byte>, next: seq<Byte>,
                   k: nat)
    requires Framed(wire, payloads, consumed, data, k) && next != []
    ensures Framed(wire, payloads, consumed, next, k) <==> k < |Chunk(next)| && Chunk(next)[..k] == Chunk(data)[..k]
  {
    var before := Chunks(payloads);
    assert wire[|before|..] == Chunk(data)[..k];
    if k < |Chunk(next)| && wire == before + Chunk(next)[..k] {
      assert wire[|before|..] == Chunk(next)[..k];
    }
  }

  /** What that means to a reader, once the rest of the other chunk has been sent too. */
  lemma FramedDecodes(wire: seq<Byte>, payloads: seq<seq<Byte>>, consumed: seq<Byte>, data: seq<Byte>,
                      next: seq<Byte>, k: nat)
    requires Framed(wire, payloads, consumed, data, k) && 0 < |next| <= MAX_SEND
    ensures
      Framed(wire, payloads, consumed, next, k) <==> Decode(wire + ChunkFrom(next, k)) == (consumed + next, [])
  {
    hide Decode, Chunk, Chunks, Flatten;
    FramedElse(wire, payloads, consumed, data, next, k);
    var s := Chunk(data)[..k] + ChunkFrom(next, k);
    assert wire + ChunkFrom(next, k) == Chunks(payloads) + s;
    DecodeAfter(payloads, s);
    if k > 0 {
      MixedDecodes(data, next, k);
    } else {
      WholeDecodes(next);
      assert s == Chunk(next);
    }
    assert consumed + Decode(s).0 == consumed + next ==> (consumed + Decode(s).0)[|consumed|..] == next;
  }

  /** At most 100000 bytes of what is left of a block. */
  function Rest(refbuf: seq<Byte>, pos: nat): seq<Byte>
    requires pos <= |refbuf|
  {
    var n := |refbuf| - pos;
    refbuf[pos..pos + if n > MAX_SEND then MAX_SEND else n]
  }

  /** The vector that is built for a chunk: the same one for every call until the chunk is sent. */
  function ChunkVector(buf: seq<Byte>, pos: nat, len: nat): (r: seq<IoVec>)
    requires pos + len <= |buf|
    ensures AllValid(r)
  {
    var header := Hex(len) + EOL;
    [IoVec(header, 0, |header|), IoVec(buf, pos, len), IoVec(header, |header| - 2, 2)]
  }

  lemma FramedPos(wire: seq<Byte>, payloads: seq<seq<Byte>>, consumed: seq<Byte>, data: seq<Byte>, k: nat)
    requires Framed(wire, payloads, consumed, data, k)
    ensures k < |Chunk(data)|
  {
  }

  lemma JoinedIsChunk(vs: seq<IoVec>, header: seq<Byte>, data: seq<Byte>)
    requires header == Hex(|data|) + EOL
    requires AllValid(vs) && |vs| == 3
    requires vs[0].Bytes() == header && vs[1].Bytes() == data && vs[2].Bytes() == EOL
    ensures Joined(vs) == Chunk(data)
  {
    JoinedNext(vs, 0);
    JoinedNext(vs, 1);
    JoinedNext(vs, 2);
    assert vs[0..] == vs && vs[3..] == [];
  }

  /** The vector is built anew for each call, and sent from where the last call stopped. */
  method SendChunk(con: Connection, buf: seq<Byte>, pos: nat, len: nat, chunkPos: nat, net: Net)
    returns (taken: int, overall: nat)
    requires pos + len <= |buf| && 0 < len <= MAX_SEND && chunkPos < |Chunk(buf[pos..pos + len])|
    modifies con
    ensures
      var chunk := Chunk(buf[pos..pos + len]);
      && overall == |chunk| && -1 <= taken <= overall - chunkPos
      && taken == NetTook(net, CutAt(ChunkVector(buf, pos, len), chunkPos))
      && con.wire == old(con.wire) + chunk[chunkPos..chunkPos + if taken > 0 then taken else 0]
      && (con.error <==> old(con.error) || NetFails(net, CutAt(ChunkVector(buf, pos, len), chunkPos)))
  {
    ghost var data := buf[pos..pos + len];
    var header := Hex(len) + EOL;  // fits the 16 bytes of chunk_hdr
    var bufs := new ConnBufs(4);
    var _ := bufs.Append(IoVec(header, 0, |header|), true);
    var _ := bufs.Append(IoVec(buf, pos, len), true);
    var total := bufs.Append(IoVec(header, |header| - 2, 2), true);
    overall := bufs.total;
    ghost var vs := bufs.Contents();
    assert vs == ChunkVector(buf, pos, len);
    hide NetTook, NetFails, CutAt, Hex, Joined, AtBoundary;
    JoinedIsChunk(vs, header, data);
    taken := bufs.Send(con, chunkPos, net);
  }

  class Listener {
    const con: Connection
    var refbuf: seq<Byte>  // the block being sent
    var pos: nat           // how much of it is consumed
    var chunkPos: nat      // how much of the current chunk was taken

    ghost var earlier: seq<Byte>         // the blocks before this one
    ghost var payloads: seq<seq<Byte>>   // the chunks completed

    /** The next chunk; it depends on nothing that a short write changes. */
    ghost function Current(): seq<Byte>
      reads this
      requires pos <= |refbuf|
    {
      Rest(refbuf, pos)
    }

    /** The bytes of the stream consumed so far. */
    ghost function Consumed(): seq<Byte>
      reads this
      requires pos <= |refbuf|
    {
      earlier + refbuf[..pos]
    }

    ghost predicate Valid()
      reads this, con
    {
      pos <= |refbuf| && Framed(con.wire, payloads, Consumed(), Current(), chunkPos)
    }

    constructor (first: seq<Byte>)
      ensures Valid() && fresh(con) && Consumed() == [] && refbuf == first
      ensures con.wire == [] && chunkPos == 0
    {
      con := new Connection();
      refbuf, pos, chunkPos := first, 0, 0;
      earlier, payloads := [], [];
    }

    /** The queue moves on once a block is consumed: src/source.c. */
    method NextBlock(block: seq<Byte>)
      requires Valid() && pos == |refbuf|
      modifies this
      ensures Valid() && Consumed() == old(Consumed()) && refbuf == block && con.wire == old(con.wire)
    {
      earlier := earlier + refbuf[..pos];
      refbuf, pos := block, 0;
      assert earlier + refbuf[..0] == earlier;
      assert Current() == [] || chunkPos == 0;
    }

    /**
     The listener is given another block wherever it is in its own, as when the source ends
     and listeners are paused (src/source.c:1574-1578): it goes on at the same place, in
     another chunk. That is in order exactly if the new chunk begins with what was sent of
     the old one.
     */
    method Move(block: seq<Byte>)
      requires Valid() && block != []
      modifies this`refbuf, this`pos, this`earlier
      ensures refbuf == block && pos == 0 && Consumed() == old(Consumed())
      ensures
        var sent := old(Chunk(Current()))[..chunkPos];
        Valid() <==> |sent| < |Chunk(Current())| && Chunk(Current())[..|sent|] == sent
      ensures Valid() <==> Decode(con.wire + ChunkFrom(Current(), chunkPos)) == (Consumed() + Current(), [])
    {
      FramedPos(con.wire, payloads, Consumed(), Current(), chunkPos);
      FramedElse(con.wire, payloads, Consumed(), Current(), Rest(block, 0), chunkPos);
      FramedDecodes(con.wire, payloads, Consumed(), Current(), Rest(block, 0), chunkPos);
      earlier := earlier + refbuf[..pos];
      refbuf, pos := block, 0;
      assert earlier + refbuf[..0] == earlier;
    }

    /** What the writer notes down after a send. */
    method Account(taken: int, overall: nat, len: nat, ghost wire: seq<Byte>) returns (ret: int)
      requires pos < |refbuf| && len == |Current()|
      requires Framed(wire, payloads, Consumed(), Current(), chunkPos)
      requires overall == |Chunk(Current())| && chunkPos < overall && chunkPos + taken <= overall
      requires con.wire == wire + Chunk(Current())[chunkPos..chunkPos + if taken > 0 then taken else 0]
      modifies this
      ensures Valid() && refbuf == old(refbuf)
      ensures
        if old(chunkPos) + Positive(taken) == overall then
          ret == len && Consumed() == old(Consumed() + Current()) && chunkPos == 0
        else ret == -1 && pos == old(pos) && chunkPos == old(chunkPos) + Positive(taken)
    {
      hide Framed, Chunk;
      ghost var data, k, n := Current(), chunkPos, if taken > 0 then taken else 0;
      if taken > 0 {
        chunkPos := chunkPos + taken;
      }
      if chunkPos != overall {
        FramedMore(wire, payloads, Consumed(), data, k, n);
        return -1;
      }
      FramedWhole(wire, payloads, Consumed(), data, k, Rest(refbuf, pos + len));
      assert con.wire == wire + Chunk(data)[k..];
      assert refbuf[..pos + len] == refbuf[..pos] + data;
      assert earlier + refbuf[..pos + len] == Consumed() + data;
      chunkPos := 0;
      pos := pos + len;
      payloads := payloads + [data];
      ret := len;
    }

    /** One call of format_mp3_write_buf_to_client for a chunked listener without inline metadata. */
    method WriteBuf(net: Net) returns (ret: int)
      requires Valid()
      modifies this, con
      ensures Valid() && refbuf == old(refbuf)
      ensures
        if old(Current()) == [] then ret == -1 && pos == old(pos) && chunkPos == old(chunkPos)
        else
          var taken := NetTook(net, CutAt(ChunkVector(refbuf, old(pos), |old(Current())|), old(chunkPos)));
          if old(chunkPos) + Positive(taken) == |Chunk(old(Current()))| then
            ret == |old(Current())| && Consumed() == old(Consumed() + Current()) && chunkPos == 0
          else ret == -1 && pos == old(pos) && chunkPos == old(chunkPos) + Positive(taken)
      ensures
        con.error <==>
          || old(con.error)
          || (old(Current()) != []
              && NetFails(net, CutAt(ChunkVector(refbuf, old(pos), |old(Current())|), old(chunkPos))))
    {
      ret := -1;
      var len := |refbuf| - pos;
      if len > MAX_SEND {
        len := MAX_SEND;
      }
      if len == 0 {
        return;
      }
      hide Framed, Chunk, NetTook, NetFails, CutAt, ChunkVector;
      ghost var wire := con.wire;
      FramedPos(wire, payloads, Consumed(), Current(), chunkPos);
      var taken, overall := SendChunk(con, refbuf, pos, len, chunkPos, net);
      ret := Account(taken, overall, len, wire);
    }
  }

  /**
   Whatever the socket took in each call, the stream decodes to the bytes consumed so far,
   and what is left over is the first `chunkPos` bytes of the current chunk.
   */
  lemma StreamDecodes(l: Listener)
    requires l.Valid()
    ensures Decode(l.con.wire) == (l.Consumed(), Chunk(l.Current())[..l.chunkPos])
  {
    DecodeChunks(l.payloads, l.Current(), l.chunkPos);
    assert l.chunkPos == 0 ==> Chunk(l.Current())[..l.chunkPos] == [];
  }

  /**
   A listener that is given another block after the first byte of a chunk of two bytes: it
   cannot go on with a chunk of one.
   */
  method ChunkIsMixed() returns (l: Listener)
    ensures l.chunkPos == 1 && l.refbuf == [12] && !l.Valid()
  {
    l := new Listener([10, 11]);
    var header := Hex(2) + EOL;
    JoinedIsChunk(ChunkVector([10, 11], 0, 2), header, [10, 11]);
    CutAtJoined(ChunkVector([10, 11], 0, 2), 0);
    assert l.Current() == [10, 11];
    var _ := l.WriteBuf(Plain(false, 1, true));
    ghost var sent := Chunk(l.Current())[..1];
    l.Move([12]);
    assert sent[0] == HexDigit(2) && Chunk(l.Current())[..1][0] == HexDigit(1);
  }
}
