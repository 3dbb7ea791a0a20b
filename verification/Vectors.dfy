/**
 Gathered output of src/connection.c: a vector of buffers is sent from a byte offset, and
 whatever the socket took is skipped on the next call.
 */
module Vectors {
  import opened Bytes

  /** An IOVEC: `len` bytes at `base` of some buffer. */
  datatype IoVec = IoVec(buf: seq<Byte>, base: nat, len: nat) {
    predicate Valid() {
      base + len <= |buf|
    }

    function Bytes(): (r: seq<Byte>)
      requires Valid()
      ensures |r| == len
    {
      buf[base..base + len]
    }
  }

  predicate AllValid(vs: seq<IoVec>) {
    forall i :: 0 <= i < |vs| ==> vs[i].Valid()
  }

  /** The bytes that a vector stands for, in order. */
  function Joined(vs: seq<IoVec>): seq<Byte>
    requires AllValid(vs)
  {
    if vs == [] then [] else vs[0].Bytes() + Joined(vs[1..])
  }

  lemma {:induction false} JoinedAppend(vs: seq<IoVec>, ws: seq<IoVec>)
    requires AllValid(vs) && AllValid(ws)
    ensures AllValid(vs + ws) && Joined(vs + ws) == Joined(vs) + Joined(ws)
  {
    if vs == [] {
      assert vs + ws == ws;
    } else {
      JoinedAppend(vs[1..], ws);
      var us := vs + ws;
      assert us[0] == vs[0] && us[1..] == vs[1..] + ws;
      assert forall i :: 0 <= i < |us| ==> us[i] == if i < |vs| then vs[i] else ws[i - |vs|];
      assert Joined(us) == vs[0].Bytes() + Joined(vs[1..] + ws);
    }
  }

  lemma OneMore(vs: seq<IoVec>, v: IoVec)
    requires AllValid(vs) && v.Valid()
    ensures AllValid(vs + [v]) && Joined(vs + [v]) == Joined(vs) + v.Bytes()
  {
    JoinedAppend(vs, [v]);
    assert Joined([v]) == v.Bytes();
  }

  lemma JoinedSplit(vs: seq<IoVec>, i: nat)
    requires AllValid(vs) && i <= |vs|
    ensures Joined(vs) == Joined(vs[..i]) + Joined(vs[i..])
  {
    hide Joined;
    JoinedAppend(vs[..i], vs[i..]);
    assert vs[..i] + vs[i..] == vs;
  }

  lemma JoinedNext(vs: seq<IoVec>, i: nat)
    requires AllValid(vs) && i < |vs|
    ensures Joined(vs[..i + 1]) == Joined(vs[..i]) + vs[i].Bytes()
    ensures Joined(vs[i..]) == vs[i].Bytes() + Joined(vs[i + 1..])
  {
    JoinedAppend(vs[..i], [vs[i]]);
    assert vs[..i] + [vs[i]] == vs[..i + 1];
    assert Joined([vs[i]]) == vs[i].Bytes();
    assert vs[i..][0] == vs[i] && vs[i..][1..] == vs[i + 1..];
  }

  lemma SplitAt(vs: seq<IoVec>, k: nat)
    requires AllValid(vs) && k < |vs|
    ensures Joined(vs) == Joined(vs[..k]) + vs[k].Bytes() + Joined(vs[k + 1..])
    ensures |Joined(vs[..k + 1])| == |Joined(vs[..k])| + vs[k].len
  {
    JoinedSplit(vs, k);
    JoinedNext(vs, k);
  }

  /** The offset falls between two buffers, or at either end. */
  ghost predicate AtBoundary(vs: seq<IoVec>, skip: nat)
    requires AllValid(vs)
  {
    exists i :: 0 <= i <= |vs| && |Joined(vs[..i])| == skip
  }

  /** connection_t, with what the peer has been sent so far. */
  class Connection {
    var error: bool
    ghost var wire: seq<Byte>

    constructor ()
      ensures !error && wire == []
    {
      error, wire := false, [];
    }
  }

  /**
   What the operating system does in one call. On a plain socket the periodic check may
   find the peer gone, and otherwise `written` bytes are taken; over TLS each buffer is
   written in turn and `writes` gives the outcome for each.
   */
  datatype Net =
    | Plain(gone: bool, written: int, recoverable: bool)
    | Tls(writes: seq<int>, fatal: bool)

  /** A write of `len` bytes takes some of them, or fails. */
  function Took(asked: int, len: nat): (r: int)
    ensures -1 <= r <= len
  {
    if asked < 0 then -1 else if asked < len then asked else len
  }

  /** Of a vector written buffer after buffer, what is taken before the first that is not taken whole. */
  function EachTook(vs: seq<IoVec>, writes: seq<int>): nat {
    if vs == [] then 0
    else
      var v := Took(if writes == [] then -1 else writes[0], vs[0].len);
      if v < vs[0].len then if v < 0 then 0 else v
      else v + EachTook(vs[1..], if writes == [] then [] else writes[1..])
  }

  /** The write that is not taken whole fails. */
  predicate EachFails(vs: seq<IoVec>, writes: seq<int>) {
    vs != []
    && var v := Took(if writes == [] then -1 else writes[0], vs[0].len);
       v < 0 || (v == vs[0].len && EachFails(vs[1..], if writes == [] then [] else writes[1..]))
  }

  /** Whether sending a vector marks the connection in error. */
  predicate NetFails(net: Net, vs: seq<IoVec>)
    requires AllValid(vs)
  {
    match net
    case Plain(gone, written, recoverable) => gone || (written < 0 && !recoverable)
    case Tls(writes, fatal) => fatal && EachFails(vs, writes)
  }

  predicate BytesFail(net: Net) {
    match net
    case Plain(gone, written, recoverable) => gone || (written < 0 && !recoverable)
    case Tls(writes, fatal) => fatal && (writes == [] || writes[0] < 0)
  }

  /** What the operating system takes of a vector in one call. */
  function NetTook(net: Net, vs: seq<IoVec>): int
    requires AllValid(vs)
  {
    match net
    case Plain(gone, written, _) => if gone then -1 else Took(written, |Joined(vs)|)
    case Tls(writes, _) => if EachTook(vs, writes) > 0 then EachTook(vs, writes) else -1
  }

  /** And of a single buffer. */
  function BytesTook(net: Net, len: nat): (r: int)
    ensures -1 <= r <= len
  {
    match net
    case Plain(gone, written, _) => if gone then -1 else Took(written, len)
    case Tls(writes, _) => Took(if writes == [] then -1 else writes[0], len)
  }

  function Positive(n: int): nat {
    if n > 0 then n else 0
  }

  /** What is left of a vector after the byte at `skip`. */
  function CutAt(vs: seq<IoVec>, skip: nat): (r: seq<IoVec>)
    requires AllValid(vs)
    ensures AllValid(r)
  {
    if vs == [] then []
    else if skip >= vs[0].len then CutAt(vs[1..], skip - vs[0].len)
    else [IoVec(vs[0].buf, vs[0].base + skip, vs[0].len - skip)] + vs[1..]
  }

  lemma {:induction false} CutAtIs(vs: seq<IoVec>, i: nat, offset: nat)
    requires AllValid(vs) && i < |vs| && offset < vs[i].len
    ensures CutAt(vs, |Joined(vs[..i])| + offset) == [IoVec(vs[i].buf, vs[i].base + offset, vs[i].len - offset)]
        + vs[i + 1..]
  {
    if i > 0 {
      CutAtIs(vs[1..], i - 1, offset);
      assert vs[..i][1..] == vs[1..][..i - 1];
      assert vs[1..][i..] == vs[i + 1..];
    }
  }

  lemma CutFirst(vs: seq<IoVec>, skip: nat)
    requires AllValid(vs) && vs != [] && skip < vs[0].len
    ensures Joined(CutAt(vs, skip)) == Joined(vs)[skip..]
  {
    var v := IoVec(vs[0].buf, vs[0].base + skip, vs[0].len - skip);
    assert v.Bytes() == vs[0].Bytes()[skip..];
    JoinedAppend([v], vs[1..]);
    JoinedAppend([vs[0]], vs[1..]);
    assert [vs[0]] + vs[1..] == vs;
    assert Joined([v]) == v.Bytes() && Joined([vs[0]]) == vs[0].Bytes();
  }

  lemma {:induction false} CutAtJoined(vs: seq<IoVec>, skip: nat)
    requires AllValid(vs) && skip <= |Joined(vs)|
    ensures Joined(CutAt(vs, skip)) == Joined(vs)[skip..]
  {
    if vs != [] {
      if skip < vs[0].len {
        CutFirst(vs, skip);
      } else {
        var n := vs[0].len;
        assert Joined(vs) == vs[0].Bytes() + Joined(vs[1..]);
        CutAtJoined(vs[1..], skip - n);
        assert Joined(vs)[skip..] == Joined(vs[1..])[skip - n..];
      }
    }
  }

  lemma {:induction false} EachTookBound(vs: seq<IoVec>, writes: seq<int>)
    requires AllValid(vs)
    ensures EachTook(vs, writes) <= |Joined(vs)|
  {
    if vs != [] {
      EachTookBound(vs[1..], if writes == [] then [] else writes[1..]);
    }
  }

  /** The outcome of one of the writes; none is made after the last. */
  function Write(writes: seq<int>, i: nat): int {
    if i < |writes| then writes[i] else -1
  }

  /**
   A vector that is written buffer after buffer: up to some buffer each is taken whole, and of
   that one, unless it is past the last, what its write takes, which is less than all of it.
   */
  lemma {:induction false} EachTookIs(vs: seq<IoVec>, writes: seq<int>) returns (i: nat)
    requires AllValid(vs)
    ensures i <= |vs| && forall j :: 0 <= j < i ==> Write(writes, j) >= vs[j].len
    ensures i < |vs| ==> Write(writes, i) < vs[i].len
    ensures EachTook(vs, writes) == |Joined(vs[..i])| + if i < |vs| then Positive(Write(writes, i)) else 0
    ensures EachFails(vs, writes) <==> i < |vs| && Write(writes, i) < 0
    decreases |vs|
  {
    if vs == [] || Write(writes, 0) < vs[0].len {
      return 0;
    }
    var rest := if writes == [] then [] else writes[1..];
    var k := EachTookIs(vs[1..], rest);
    i := k + 1;
    assert vs[..i][1..] == vs[1..][..k];
    assert forall j :: 0 < j <= k ==> Write(writes, j) == Write(rest, j - 1);
  }

  /** A plain socket takes what it is asked to take, if the peer is there, and never more than there is. */
  lemma PlainTakes(vs: seq<IoVec>, written: int, recoverable: bool)
    requires AllValid(vs)
    ensures NetTook(Plain(true, written, recoverable), vs) == -1 && NetFails(Plain(true, written, recoverable), vs)
    ensures 0 <= written <= |Joined(vs)| ==> NetTook(Plain(false, written, recoverable), vs) == written
    ensures written > |Joined(vs)| ==> NetTook(Plain(false, written, recoverable), vs) == |Joined(vs)|
    ensures written < 0 ==> NetTook(Plain(false, written, recoverable), vs) == -1
    ensures NetFails(Plain(false, written, recoverable), vs) <==> written < 0 && !recoverable
  {
  }

  /** Over TLS a call that got nothing out says so, and the connection fails with a write that is refused for good. */
  lemma TlsTakes(vs: seq<IoVec>, writes: seq<int>, fatal: bool)
    requires AllValid(vs)
    ensures NetTook(Tls(writes, fatal), vs) == -1 <==> EachTook(vs, writes) == 0
    ensures NetTook(Tls(writes, fatal), vs) != -1 ==> NetTook(Tls(writes, fatal), vs) == EachTook(vs, writes)
    ensures !NetFails(Tls(writes, false), vs) && NetFails(Tls(writes, true), vs) == EachFails(vs, writes)
  {
  }

  /** A single buffer goes out as a vector of one would. */
  lemma OneBuffer(v: IoVec, net: Net)
    requires v.Valid() && v.len > 0
    ensures Positive(BytesTook(net, v.len)) == Positive(NetTook(net, [v])) && BytesFail(net) == NetFails(net, [v])
  {
    assert [v][1..] == [] && Joined([v]) == v.Bytes();
    assert forall writes :: EachTook([], writes) == 0 && !EachFails([], writes);
    match net
    case Plain(_, _, _) =>
    case Tls(writes, _) =>
      assert EachTook([v], writes) == Positive(Took(Write(writes, 0), v.len));
  }

  /** What one call from `skip` takes. */
  function TookFrom(vs: seq<IoVec>, skip: nat, net: Net): (n: nat)
    requires AllValid(vs) && skip <= |Joined(vs)|
    ensures skip + n <= |Joined(vs)|
  {
    CutAtJoined(vs, skip);
    if net.Tls? then
      EachTookBound(CutAt(vs, skip), net.writes);
      Positive(NetTook(net, CutAt(vs, skip)))
    else
      Positive(NetTook(net, CutAt(vs, skip)))
  }

  /**
   The sum of what a run of calls takes, each from where the one before it stopped. Nothing
   is sent any more once all is sent or the connection is in error.
   */
  function RunTook(vs: seq<IoVec>, skip: nat, nets: seq<Net>): (n: nat)
    requires AllValid(vs) && skip <= |Joined(vs)|
    ensures skip + n <= |Joined(vs)|
    decreases |nets|
  {
    if nets == [] || skip == |Joined(vs)| then 0
    else
      var n := TookFrom(vs, skip, nets[0]);
      n + if NetFails(nets[0], CutAt(vs, skip)) then 0 else RunTook(vs, skip + n, nets[1..])
  }

  /** Some call of the run finds the peer gone in the middle of a buffer. */
  ghost predicate RunCuts(vs: seq<IoVec>, skip: nat, nets: seq<Net>)
    requires AllValid(vs) && skip <= |Joined(vs)|
    decreases |nets|
  {
    && nets != [] && skip != |Joined(vs)|
    && ((nets[0].Plain? && nets[0].gone && !AtBoundary(vs, skip))
        || (!NetFails(nets[0], CutAt(vs, skip)) && RunCuts(vs, skip + TookFrom(vs, skip, nets[0]), nets[1..])))
  }

  lemma RunNext(vs: seq<IoVec>, skip: nat, nets: seq<Net>, i: nat)
    requires AllValid(vs) && skip < |Joined(vs)| && i < |nets|
    ensures
      var n, fails := TookFrom(vs, skip, nets[i]), NetFails(nets[i], CutAt(vs, skip));
      && RunTook(vs, skip, nets[i..]) == n + (if fails then 0 else RunTook(vs, skip + n, nets[i + 1..]))
      && (RunCuts(vs, skip, nets[i..]) <==>
            || (nets[i].Plain? && nets[i].gone && !AtBoundary(vs, skip))
            || (!fails && RunCuts(vs, skip + n, nets[i + 1..])))
  {
    hide Joined, CutAt, NetFails, AtBoundary, TookFrom;
    assert nets[i..][0] == nets[i] && nets[i..][1..] == nets[i + 1..];
  }

  lemma RunOver(vs: seq<IoVec>, skip: nat, nets: seq<Net>)
    requires AllValid(vs) && skip <= |Joined(vs)|
    ensures nets == [] || skip == |Joined(vs)| ==> RunTook(vs, skip, nets) == 0 && !RunCuts(vs, skip, nets)
  {
  }

  /** A network that is there and takes at least a byte. */
  predicate TakesSome(net: Net) {
    match net
    case Plain(gone, written, _) => !gone && written > 0
    case Tls(writes, fatal) => !fatal && writes != [] && writes[0] > 0
  }

  lemma {:induction false} CutAtStarts(vs: seq<IoVec>, skip: nat)
    requires AllValid(vs) && skip < |Joined(vs)|
    ensures CutAt(vs, skip) != [] && CutAt(vs, skip)[0].len > 0
  {
    if skip >= vs[0].len {
      CutAtStarts(vs[1..], skip - vs[0].len);
    }
  }

  lemma TookSome(vs: seq<IoVec>, skip: nat, net: Net)
    requires AllValid(vs) && skip < |Joined(vs)| && TakesSome(net)
    ensures TookFrom(vs, skip, net) > 0 && !NetFails(net, CutAt(vs, skip))
  {
    hide Joined, CutAt;
    CutAtJoined(vs, skip);
    CutAtStarts(vs, skip);
  }

  /** A network that always takes something gets everything. */
  lemma {:induction false} RunCompletes(vs: seq<IoVec>, skip: nat, nets: seq<Net>)
    requires AllValid(vs) && skip <= |Joined(vs)| <= skip + |nets|
    requires forall i :: 0 <= i < |nets| ==> TakesSome(nets[i])
    ensures skip + RunTook(vs, skip, nets) == |Joined(vs)| && !RunCuts(vs, skip, nets)
    decreases |nets|
  {
    hide Joined, CutAt, NetFails, TookFrom, AtBoundary;
    if skip < |Joined(vs)| {
      TookSome(vs, skip, nets[0]);
      assert TakesSome(nets[0]);
      RunCompletes(vs, skip + TookFrom(vs, skip, nets[0]), nets[1..]);
    }
  }

  lemma JoinedTake(s: seq<Byte>, skip: nat, n: nat)
    requires skip + n <= |s|
    ensures s[skip..][..n] == s[skip..skip + n]
  {
  }

  lemma NextTook(vs: seq<IoVec>, writes: seq<int>, i: nat)
    requires i < |vs|
    ensures
      var rest := if i < |writes| then writes[i..] else [];
      var more := if i + 1 < |writes| then writes[i + 1..] else [];
      var v := Took(if i < |writes| then writes[i] else -1, vs[i].len);
      && EachTook(vs[i..], rest) == (if v < vs[i].len then Positive(v) else v + EachTook(vs[i + 1..], more))
      && EachFails(vs[i..], rest) == (v < 0 || (v == vs[i].len && EachFails(vs[i + 1..], more)))
  {
    var rest := if i < |writes| then writes[i..] else [];
    assert vs[i..][1..] == vs[i + 1..];
    if i < |writes| {
      assert rest[1..] == if i + 1 < |writes| then writes[i + 1..] else [];
    }
  }

  /**
   Sends resumed at the number of bytes taken so far put exactly the buffers on the wire,
   in order: after any sequence of short sends the wire has grown by a prefix of them.
   */
  ghost predicate Resumed(joined: seq<Byte>, start: seq<Byte>, wire: seq<Byte>, taken: nat) {
    taken <= |joined| && wire == start + joined[..taken]
  }

  lemma ResumedStep(joined: seq<Byte>, start: seq<Byte>, wire: seq<Byte>, taken: nat, ret: nat)
    requires Resumed(joined, start, wire, taken) && taken + ret <= |joined|
    ensures Resumed(joined, start, wire + joined[taken..taken + ret], taken + ret)
    ensures taken + ret == |joined| ==> wire + joined[taken..taken + ret] == start + joined
  {
    assert joined[..taken + ret] == joined[..taken] + joined[taken..taken + ret];
    assert taken + ret == |joined| ==> joined[..taken + ret] == joined;
  }

  lemma Within(before: seq<Byte>, s: seq<Byte>, after: seq<Byte>, n: nat)
    requires n <= |s|
    ensures (before + s + after)[|before|..|before| + n] == s[..n]
  {
  }

  lemma TakeFrom(vs: seq<IoVec>, i: nat, start: seq<Byte>, wire: seq<Byte>, bytes: nat, v: nat)
    requires AllValid(vs) && i < |vs| && 0 < v <= vs[i].len
    requires bytes == |Joined(vs[..i])| && Resumed(Joined(vs), start, wire, bytes)
    ensures Resumed(Joined(vs), start, wire + vs[i].Bytes()[..v], bytes + v)
  {
    hide Joined, Resumed, IoVec.Bytes;
    SplitAt(vs, i);
    var joined := Joined(vs);
    Within(Joined(vs[..i]), vs[i].Bytes(), Joined(vs[i + 1..]), v);
    ResumedStep(joined, start, wire, bytes, v);
  }

  /** The TLS part of connection_bufs_send: buffer after buffer, until one is not taken whole. */
  method SendEach(con: Connection, vs: seq<IoVec>, writes: seq<int>, fatal: bool) returns (bytes: nat)
    requires AllValid(vs)
    modifies con
    ensures Resumed(Joined(vs), old(con.wire), con.wire, bytes) && bytes == EachTook(vs, writes)
    ensures con.error <==> old(con.error) || (fatal && EachFails(vs, writes))
  {
    bytes := 0;
    assert vs[..0] == [] && vs[..|vs|] == vs;
    var i := 0;
    while i < |vs|
      invariant 0 <= i <= |vs|
      invariant bytes == |Joined(vs[..i])| && Resumed(Joined(vs), old(con.wire), con.wire, bytes)
      invariant EachTook(vs, writes) == bytes + EachTook(vs[i..], if i < |writes| then writes[i..] else [])
      invariant EachFails(vs, writes) == EachFails(vs[i..], if i < |writes| then writes[i..] else [])
      invariant con.error == old(con.error)
    {
      NextTook(vs, writes, i);
      var v := Took(if i < |writes| then writes[i] else -1, vs[i].len);
      if v > 0 {
        TakeFrom(vs, i, old(con.wire), con.wire, bytes, v);
        con.wire := con.wire + vs[i].Bytes()[..v];
        bytes := bytes + v;
      }
      if v < 0 || v < vs[i].len {
        con.error := con.error || (v < 0 && fatal);
        return;
      }
      SplitAt(vs, i);
      i := i + 1;
    }
  }

  /** The writing part of connection_bufs_send; a peer that is gone gets nothing. */
  method Transmit(con: Connection, vs: seq<IoVec>, left: nat, net: Net) returns (ret: int)
    requires AllValid(vs) && left == |Joined(vs)|
    modifies con
    ensures -1 <= ret <= left && ret == NetTook(net, vs)
    ensures con.wire == old(con.wire) + Joined(vs)[..if ret > 0 then ret else 0]
    ensures con.error <==> old(con.error) || NetFails(net, vs)
  {
    match net
    case Plain(gone, written, recoverable) =>
      if gone {
        con.error := true;
        return -1;
      }
      ret := Took(written, left);
      if ret < 0 && !recoverable {
        con.error := true;
      }
      con.wire := con.wire + Joined(vs)[..if ret > 0 then ret else 0];
    case Tls(writes, fatal) =>
      ret := -1;
      var bytes := SendEach(con, vs, writes, fatal);
      if bytes > 0 {
        ret := bytes;
      }
  }

  /** What is left of a vector that is cut at the start of what was not taken. */
  lemma CutVector(vs: seq<IoVec>, i: nat, offset: nat)
    requires AllValid(vs) && i < |vs| && offset < vs[i].len
    ensures
      var cut := vs[i := IoVec(vs[i].buf, vs[i].base + offset, vs[i].len - offset)];
      var skip := |Joined(vs[..i])| + offset;
      AllValid(cut) && skip <= |Joined(vs)| && Joined(cut[i..]) == Joined(vs)[skip..]
  {
    hide Joined;
    var cut := vs[i := IoVec(vs[i].buf, vs[i].base + offset, vs[i].len - offset)];
    JoinedSplit(vs, i);
    JoinedNext(vs, i);
    JoinedNext(cut, i);
    assert cut[i + 1..] == vs[i + 1..];
    assert cut[i].Bytes() == vs[i].Bytes()[offset..];
  }

  lemma Ends(vs: seq<IoVec>)
    requires AllValid(vs)
    ensures AtBoundary(vs, |Joined(vs)|)
  {
    assert vs[..|vs|] == vs;
  }

  lemma Longer(vs: seq<IoVec>, j: nat, k: nat)
    requires AllValid(vs) && j <= k <= |vs|
    ensures |Joined(vs[..j])| <= |Joined(vs[..k])|
  {
    JoinedSplit(vs[..k], j);
    assert vs[..k][..j] == vs[..j];
  }

  lemma Boundary(vs: seq<IoVec>, i: nat, offset: nat)
    requires AllValid(vs) && i < |vs| && offset < vs[i].len
    ensures AtBoundary(vs, |Joined(vs[..i])| + offset) <==> offset == 0
  {
    var skip := |Joined(vs[..i])| + offset;
    JoinedNext(vs, i);
    forall j | 0 <= j <= |vs|
      ensures |Joined(vs[..j])| == skip ==> offset == 0
    {
      if j <= i {
        Longer(vs, j, i);
      } else {
        Longer(vs, i + 1, j);
      }
    }
  }

  class ConnBufs {
    var block: array<IoVec>
    var count: nat
    var total: nat

    ghost predicate Valid()
      reads this, block
    {
      count <= block.Length && AllValid(block[..count]) && total == |Joined(block[..count])|
    }

    ghost function Contents(): seq<IoVec>
      reads this, block
      requires Valid()
    {
      block[..count]
    }

    /** connection_bufs_init */
    constructor (start: nat)
      ensures Valid() && Contents() == [] && fresh(block)
      ensures block.Length == if start < 500 then start else 0
    {
      var max := if start < 500 then start else 0;
      block := new IoVec[max](_ => IoVec([], 0, 0));
      count, total := 0, 0;
      new;
      assert block[..0] == [];
    }

    /** connection_bufs_flush */
    method Flush()
      modifies this`count, this`total
      ensures Valid() && Contents() == []
    {
      count, total := 0, 0;
      assert block[..0] == [];
    }

    method Grow()
      requires count == block.Length
      modifies this`block
      ensures fresh(block) && block.Length == old(block.Length) + 16 && block[..count] == old(block[..count])
    {
      var arr := new IoVec[block.Length + 16](_ => IoVec([], 0, 0));
      forall i | 0 <= i < count {
        arr[i] := block[i];
      }
      block := arr;
    }

    /** connection_bufs_append; `grown` says whether memory was found when the block is full. */
    method Append(v: IoVec, grown: bool) returns (ret: int)
      requires Valid() && v.Valid() && v.len <= 0xFFFFFF
      modifies this, block
      ensures Valid() && (block == old(block) || fresh(block))
      ensures
        if !grown && old(count == block.Length) then ret == -1 && Contents() == old(Contents())
        else ret == total && Contents() == old(Contents()) + [v]
      ensures block.Length == old(block.Length) + if grown && old(count == block.Length) then 16 else 0
    {
      ghost var vs := block[..count];
      if count >= block.Length {
        if !grown {
          return -1;
        }
        Grow();
      }
      block[count] := v;
      count := count + 1;
      assert block[..count] == vs + [v];
      OneMore(vs, v);
      total := total + v.len;
      ret := total;
    }

    /**
     connbufs_locate_start: the buffer that holds the byte at `skip`, cut so that it begins
     there; -1 when everything has been sent.
     */
    method LocateStart(skip: nat) returns (index: int, oldValue: IoVec, offset: nat)
      requires Valid() && skip <= total
      modifies block
      ensures index == -1 <==> skip == total
      ensures index == -1 ==> block[..] == old(block[..])
      ensures index != -1 ==>
        && 0 <= index < count
        && oldValue == old(block[index]) && oldValue.Valid() && offset < oldValue.len
        && block[..] == old(block[..])[index := IoVec(oldValue.buf, oldValue.base + offset, oldValue.len - offset)]
        && skip == |Joined(old(block[..count])[..index])| + offset
    {
      oldValue, offset := IoVec([], 0, 0), 0;
      index := -1;
      if skip >= total {
        return;
      }
      ghost var vs := block[..count];
      assert vs[..count] == vs;
      var sum, i := 0, 0;
      while i < count
        invariant 0 <= i <= count
        invariant sum == |Joined(vs[..i])| && sum <= skip
        invariant block[..] == old(block[..])
      {
        JoinedNext(vs, i);
        if sum + block[i].len > skip {
          offset := skip - sum;
          oldValue := block[i];
          if offset != 0 {
            block[i] := IoVec(oldValue.buf, oldValue.base + offset, oldValue.len - offset);
          }
          return i, oldValue, offset;
        }
        sum := sum + block[i].len;
        i := i + 1;
      }
    }

    /**
     connection_bufs_send: what is taken continues the vector from `skip`, and the vector
     is left as it was, except when the peer is found gone in the middle of a buffer.
     */
    method Send(con: Connection, skip: nat, net: Net) returns (ret: int)
      requires Valid() && skip <= total
      modifies block, con
      ensures -1 <= ret <= total - skip
      ensures ret == if skip == total then -1 else NetTook(net, CutAt(old(block[..count]), skip))
      ensures con.wire == old(con.wire) + old(Joined(block[..count]))[skip..skip + if ret > 0 then ret else 0]
      ensures con.error <==> old(con.error) || (skip != total && NetFails(net, CutAt(old(block[..count]), skip)))
      ensures
        var cut := net.Plain? && net.gone && old(!AtBoundary(block[..count], skip));
        && (block[..] == old(block[..]) <==> !cut)
        && (cut ==> con.error)
        && (cut ==> exists i :: 0 <= i < count && block[i..count] == CutAt(old(block[..count]), skip)
                                && block[..] == old(block[..i]) + block[i..count] + old(block[count..]))
      ensures block[..] == old(block[..]) ==> Valid() && Contents() == old(Contents())
    {
      hide Joined, AtBoundary, NetTook, CutAt, EachFails;
      ghost var vs, before := block[..count], block[..];
      Ends(vs);
      var i, oldValue, offset := LocateStart(skip);
      if i == -1 {
        return -1;
      }
      CutVector(vs, i, offset);
      CutAtIs(vs, i, offset);
      Boundary(vs, i, offset);
      assert block[..count] == vs[i := IoVec(oldValue.buf, oldValue.base + offset, oldValue.len - offset)];
      assert block[i..count] == block[..count][i..] == CutAt(vs, skip);
      assert total - skip == |Joined(block[i..count])|;
      ret := Transmit(con, block[i..count], total - skip, net);
      JoinedTake(Joined(vs), skip, if ret > 0 then ret else 0);
      if net.Plain? && net.gone {
        assert offset == 0 ==> block[..] == before;
        assert offset != 0 ==> block[..][i] != before[i];
        return;
      }
      if offset != 0 {
        block[i] := oldValue;
      }
      assert block[..] == before;
    }

    /**
     A whole vector, by any sequence of short sends: the caller resumes at what was taken,
     and looks at the error mark before it sends again.
     */
    method SendAll(con: Connection, start: nat, nets: seq<Net>) returns (sent: nat)
      requires Valid() && start <= total && !con.error
      modifies block, con
      ensures sent == RunTook(old(Contents()), start, nets) && start + sent <= total
      ensures con.wire == old(con.wire) + old(Joined(Contents()))[start..start + sent]
      ensures con.wire == old(con.wire) + old(Joined(Contents()))[start..] <==> start + sent == total
      ensures block[..] == old(block[..]) <==> !RunCuts(old(Contents()), start, nets)
      ensures block[..] != old(block[..]) ==> con.error
    {
      hide Joined, AtBoundary, NetTook, CutAt, EachFails, NetFails, RunTook, RunCuts;
      ghost var vs, wire := Contents(), con.wire;
      sent := 0;
      var i := 0;
      while i < |nets| && start + sent < total && !con.error
        invariant 0 <= i <= |nets| && start + sent <= total
        invariant con.wire == wire + Joined(vs)[start..start + sent]
        invariant !con.error ==>
          && block[..] == old(block[..])
          && RunTook(vs, start, nets) == sent + RunTook(vs, start + sent, nets[i..])
          && RunCuts(vs, start, nets) == RunCuts(vs, start + sent, nets[i..])
        invariant con.error ==>
          && RunTook(vs, start, nets) == sent
          && (block[..] == old(block[..]) <==> !RunCuts(vs, start, nets))
      {
        RunNext(vs, start + sent, nets, i);
        var ret := Send(con, start + sent, nets[i]);
        if ret > 0 {
          sent := sent + ret;
        }
        i := i + 1;
      }
      RunOver(vs, start + sent, nets[i..]);
    }
  }

  /** client_send_bytes: one buffer, of which some is taken. */
  method SendBytes(con: Connection, data: seq<Byte>, net: Net) returns (ret: int)
    modifies con
    ensures -1 <= ret <= |data| && ret == BytesTook(net, |data|)
    ensures con.wire == old(con.wire) + data[..if ret > 0 then ret else 0]
    ensures con.error <==> old(con.error) || BytesFail(net)
  {
    var failed := false;
    match net {
      case Plain(gone, written, recoverable) =>
        ret := if gone then -1 else Took(written, |data|);
        failed := gone || (ret < 0 && !recoverable);
      case Tls(writes, fatal) =>
        ret := Took(if writes != [] then writes[0] else -1, |data|);
        failed := ret < 0 && fatal;
    }
    con.error := con.error || failed;
    con.wire := con.wire + data[..if ret > 0 then ret else 0];
  }

  /** A peer that goes away after one byte of a buffer: the vector is left without that byte, and with its old total. */
  method VectorIsLeftCut() returns (bufs: ConnBufs, con: Connection)
    ensures bufs.count == 1 <= bufs.block.Length && AllValid(bufs.block[..1])
    ensures Joined(bufs.block[..1]) == [11] && bufs.total == 2 && con.wire == [10] && con.error
  {
    bufs := new ConnBufs(4);
    con := new Connection();
    var _ := bufs.Append(IoVec([10, 11], 0, 2), true);
    assert bufs.Contents() == [IoVec([10, 11], 0, 2)];
    CutAtJoined(bufs.Contents(), 0);
    var _ := bufs.Send(con, 0, Plain(false, 1, true));
    var _ := bufs.Send(con, 1, Plain(true, 0, true));
  }
}
