/**
 Output to an Ogg listener: send_ogg_headers and write_buf_to_client of src/format_ogg.c,
 for any pattern of short writes.
 */
module OggClient {
  import opened Bytes
  import opened Vectors
  import opened Wrappers

  /** A chain of header pages, which does not change once a block refers to it; `id` is its address. */
  datatype HeaderChain = HeaderChain(id: nat, pages: seq<seq<Byte>>)

  /** A page of data, and the headers that it needs. */
  datatype Block = Block(data: seq<Byte>, associated: Option<HeaderChain>)

  function PagesOf(chain: Option<HeaderChain>): seq<seq<Byte>> {
    match chain case None => [] case Some(c) => c.pages
  }

  predicate BlockOk(b: Block) {
    forall i :: 0 <= i < |PagesOf(b.associated)| ==> PagesOf(b.associated)[i] != []
  }

  /** The headers that go before a block: the whole chain, if it is not the last one sent. */
  function HeadersFor(last: Option<HeaderChain>, b: Block): seq<Byte> {
    if b.associated != last then Flatten(PagesOf(b.associated)) else []
  }

  function LastChain(last: Option<HeaderChain>, blocks: seq<Block>): Option<HeaderChain> {
    if blocks == [] then last else blocks[|blocks| - 1].associated
  }

  /** All that a listener is to be sent for some blocks. */
  function Stream(last: Option<HeaderChain>, blocks: seq<Block>): seq<Byte> {
    if blocks == [] then []
    else
      var init, b := blocks[..|blocks| - 1], blocks[|blocks| - 1];
      Stream(last, init) + (HeadersFor(LastChain(last, init), b) + b.data)
  }

  /** The first pages and a part of the next. */
  function PagesSent(pages: seq<seq<Byte>>, page: nat, n: nat): seq<Byte>
    requires page <= |pages| && (page < |pages| ==> n <= |pages[page]|)
  {
    Flatten(pages[..page]) + if page < |pages| then pages[page][..n] else []
  }

  lemma PageDone(pages: seq<seq<Byte>>, page: nat)
    requires page < |pages|
    ensures PagesSent(pages, page, |pages[page]|) == PagesSent(pages, page + 1, 0)
  {
    FlattenSnoc(pages[..page], pages[page]);
    assert pages[..page] + [pages[page]] == pages[..page + 1];
  }

  lemma PageMore(wire: seq<Byte>, pages: seq<seq<Byte>>, page: nat, n: nat, len: nat, ret: nat)
    requires page < |pages| && n + len <= |pages[page]| && ret <= len
    ensures wire + PagesSent(pages, page, n) + pages[page][n..n + len][..ret] == wire + PagesSent(pages, page, n + ret)
  {
    assert pages[page][..n] + pages[page][n..n + len][..ret] == pages[page][..n + ret];
  }

  lemma AllPages(pages: seq<seq<Byte>>)
    ensures PagesSent(pages, |pages|, 0) == Flatten(pages) && PagesSent(pages, 0, 0) == []
  {
    assert pages[..|pages|] == pages;
    assert pages[..0] == [];
    if pages != [] {
      assert pages[0][..0] == [];
    }
  }

  lemma FlattenAt(pages: seq<seq<Byte>>, page: nat)
    requires page < |pages|
    ensures |Flatten(pages)| >= |Flatten(pages[..page])| + |pages[page]|
  {
    FlattenSnoc(pages[..page], pages[page]);
    assert pages[..page] + [pages[page]] == pages[..page + 1];
    assert pages[..page + 1] + pages[page + 1..] == pages;
    FlattenAppend(pages[..page + 1], pages[page + 1..]);
  }

  /** A part of a chain that is neither nothing nor all of it. */
  lemma PartOfChain(pages: seq<seq<Byte>>, page: nat, n: nat)
    requires page < |pages| && n < |pages[page]| && (page > 0 || n > 0)
    requires forall i :: 0 <= i < |pages| ==> pages[i] != []
    ensures 0 < |PagesSent(pages, page, n)| < |Flatten(pages)|
  {
    FlattenAt(pages, page);
    if page > 0 {
      FlattenAt(pages[..page], 0);
      assert pages[..page][..0] == [] && pages[..page][0] == pages[0];
    }
  }

  lemma SameHeaders(last: Option<HeaderChain>, b: Block, c: Block)
    requires b.associated == c.associated
    ensures HeadersFor(last, b) == HeadersFor(last, c)
  {
  }

  lemma StreamMore(base: seq<Byte>, last: Option<HeaderChain>, blocks: seq<Block>, b: Block)
    ensures
      base + Stream(last, blocks) + HeadersFor(LastChain(last, blocks), b) + b.data == base + Stream(last, blocks + [b])
  {
    var all, headers := blocks + [b], HeadersFor(LastChain(last, blocks), b);
    hide HeadersFor, LastChain;
    assert all[..|all| - 1] == blocks;
    assert Stream(last, all) == Stream(last, blocks) + (headers + b.data);
    assert base + Stream(last, blocks) + headers + b.data == base + (Stream(last, blocks) + (headers + b.data));
  }

  /** The last block adds its chain, unless it has none or the block before it has the same, and its data. */
  lemma StreamSnoc(last: Option<HeaderChain>, blocks: seq<Block>)
    requires blocks != []
    ensures
      var i := |blocks| - 1;
      var chain, before := blocks[i].associated, if i == 0 then last else blocks[i - 1].associated;
      var headers := if chain == None || chain == before then [] else Flatten(chain.value.pages);
      Stream(last, blocks) == Stream(last, blocks[..i]) + (headers + blocks[i].data)
  {
  }

  lemma {:induction false} StreamRest(last: Option<HeaderChain>, blocks: seq<Block>, k: nat) returns (rest: seq<Byte>)
    requires k <= |blocks|
    ensures Stream(last, blocks) == Stream(last, blocks[..k]) + rest
    decreases |blocks|
  {
    hide Stream, Flatten;
    if k == |blocks| {
      assert blocks[..k] == blocks;
      rest := [];
    } else {
      StreamSnoc(last, blocks);
      var init := blocks[..|blocks| - 1];
      var more :| Stream(last, blocks) == Stream(last, init) + more;
      rest := StreamRest(last, init, k);
      assert init[..k] == blocks[..k];
      rest := rest + more;
    }
  }

  /**
   In what is to be sent each block comes after the pages of its own chain, in order, unless it
   has no chain, or the block before it has the same.
   */
  lemma StreamAt(last: Option<HeaderChain>, blocks: seq<Block>, i: nat) returns (rest: seq<Byte>)
    requires i < |blocks|
    ensures
      var chain, before := blocks[i].associated, if i == 0 then last else blocks[i - 1].associated;
      var headers := if chain == None || chain == before then [] else Flatten(chain.value.pages);
      Stream(last, blocks) == Stream(last, blocks[..i]) + (headers + blocks[i].data) + rest
  {
    hide Stream, Flatten;
    rest := StreamRest(last, blocks, i + 1);
    assert blocks[..i + 1][..i] == blocks[..i];
    StreamSnoc(last, blocks[..i + 1]);
  }

  /** refbuf_copy_default: a copy of the data, and of all pages of headers but the first. */
  function CopyOf(b: Block, id: nat): Block {
    var pages := PagesOf(b.associated);
    Block(b.data, if |pages| <= 1 then None else Some(HeaderChain(id, pages[1..])))
  }

  lemma CopyNeeds(headers: Option<HeaderChain>, b: Block, id: nat)
    requires BlockOk(b) && (headers == None || headers.value.id != id)
    ensures
      var pages, copy := PagesOf(b.associated), CopyOf(b, id);
      && BlockOk(copy)
      && HeadersFor(headers, copy) == (if |pages| <= 1 then [] else Flatten(pages[1..]))
      && (HeadersFor(headers, copy) == [] <==> |pages| <= 1)
  {
    var pages := PagesOf(b.associated);
    if |pages| > 1 {
      assert pages[1..][0] == pages[1];
    }
  }

  /** A network that takes all of a piece of headers. */
  predicate Willing(net: Net) {
    match net
    case Plain(gone, written, _) => !gone && written >= 8192
    case Tls(writes, _) => writes != [] && writes[0] >= 8192
  }

  predicate AllWilling(nets: seq<Net>) {
    forall i :: 0 <= i < |nets| ==> Willing(nets[i])
  }

  ghost predicate SomeFails(nets: seq<Net>) {
    exists i :: 0 <= i < |nets| && BytesFail(nets[i])
  }

  lemma OneFails(nets: seq<Net>, i: nat)
    requires i < |nets|
    ensures BytesFail(nets[i]) ==> SomeFails(nets)
  {
  }

  lemma DataMore(wire: seq<Byte>, data: seq<Byte>, from: nat, pos: nat, n: nat)
    requires from <= pos && pos + n <= |data|
    ensures wire + data[from..pos] + data[pos..][..n] == wire + data[from..pos + n]
  {
  }

  class Listener {
    const con: Connection
    var refbuf: Block
    var pos: nat
    var headers: Option<HeaderChain>  // the last chain sent whole
    var headerPage: nat               // which page of the chain is being sent
    var headerPos: nat
    var headersSent: bool
    var hasMoved: bool                // CLIENT_HAS_MOVED

    ghost var base: seq<Byte>         // sent when the listener last moved
    ghost var baseLast: Option<HeaderChain>
    ghost var blocks: seq<Block>      // sent whole since then
    ghost var from: nat               // where in its block the listener was when it moved with a copy of it

    /** The headers of this block have still to be sent, or to be finished. */
    ghost predicate HeadersDue()
      reads this
    {
      refbuf.associated != headers
    }

    ghost predicate Valid()
      reads this, con
    {
      && BlockOk(refbuf) && from <= pos <= |refbuf.data|
      && (HeadersDue() ==> pos == from && headers == LastChain(baseLast, blocks))
      && (!HeadersDue() ==> headersSent || hasMoved)
      && var before := base + Stream(baseLast, blocks);
         if HeadersDue() && !headersSent && !hasMoved then
           && headerPage <= |PagesOf(refbuf.associated)|
           && (if headerPage < |PagesOf(refbuf.associated)| then headerPos < |PagesOf(refbuf.associated)[headerPage]|
               else headerPos == 0)
           && con.wire == before + PagesSent(PagesOf(refbuf.associated), headerPage, headerPos)
         else if HeadersDue() then con.wire == before
         else con.wire == before + HeadersFor(LastChain(baseLast, blocks), refbuf) + refbuf.data[from..pos]
    }

    /** What the listener is to be sent of its block since it moved. */
    ghost function Left(): Block
      requires from <= |refbuf.data|
      reads this
    {
      Block(refbuf.data[from..], refbuf.associated)
    }

    /** A chain is being sent, and the listener has not moved since it was begun. */
    ghost predicate Sending()
      reads this
    {
      HeadersDue() && !headersSent && !hasMoved
    }

    /** What was sent for the current block. */
    ghost function Begun(): (r: seq<Byte>)
      requires Valid()
      reads this, con
      ensures con.wire == base + Stream(baseLast, blocks) + r
    {
      if Sending() then PagesSent(PagesOf(refbuf.associated), headerPage, headerPos)
      else if HeadersDue() then []
      else HeadersFor(LastChain(baseLast, blocks), refbuf) + refbuf.data[from..pos]
    }

    /** Nothing was sent for the block, or the headers that it needs, whole, and some of its data. */
    ghost predicate NoPartOfChain()
      requires Valid()
      reads this, con
    {
      || Begun() == []
      || exists n :: from <= n <= |refbuf.data|
                     && Begun() == HeadersFor(LastChain(baseLast, blocks), refbuf) + refbuf.data[from..n]
    }

    /** Of the chain that is being sent some pages or bytes are out, and some are not. */
    ghost predicate WithinChain()
      reads this
    {
      Sending() && (headerPage > 0 || headerPos > 0) && headerPage != |PagesOf(refbuf.associated)|
    }

    /**
     A part of a chain is on the wire exactly while the chain is being sent, after its first
     byte and before its last.
     */
    lemma PartWithinChain()
      requires Valid()
      ensures NoPartOfChain() <==> !WithinChain()
    {
      hide Stream, LastChain, Flatten;
      var pages := PagesOf(refbuf.associated);
      if WithinChain() {
        PartOfChain(pages, headerPage, headerPos);
      } else if Sending() {
        AllPages(pages);
        assert refbuf.data[from..from] == [];
      }
    }

    /** At the end of a block the wire is what all blocks since the last move need, in full. */
    lemma WireIsStream()
      requires Valid() && !HeadersDue() && pos == |refbuf.data|
      ensures con.wire == base + Stream(baseLast, blocks + [Left()])
    {
      assert refbuf.data[from..pos] == Left().data;
      SameHeaders(LastChain(baseLast, blocks), refbuf, Left());
      hide HeadersFor, Stream, LastChain, PagesSent;
      StreamMore(base, baseLast, blocks, Left());
    }

    constructor (first: Block)
      requires BlockOk(first)
      ensures Valid() && fresh(con) && refbuf == first && base == [] && baseLast == None && blocks == []
      ensures con.wire == [] && !con.error && headers == None && headersSent && !hasMoved && from == 0
    {
      con := new Connection();
      refbuf, pos, headers, headerPage, headerPos, headersSent, hasMoved := first, 0, None, 0, 0, true, false;
      base, baseLast, blocks, from := [], None, [], 0;
    }

    /** The queue moves on once a block is sent. */
    method NextBlock(block: Block)
      requires Valid() && !HeadersDue() && pos == |refbuf.data| && BlockOk(block)
      modifies this`refbuf, this`pos, this`blocks, this`from
      ensures Valid() && refbuf == block && from == 0 && blocks == old(blocks) + [old(Left())]
    {
      hide Stream, Flatten, PagesSent;
      WireIsStream();
      blocks := blocks + [Left()];
      refbuf, pos, from := block, 0, 0;
      assert block.data[0..0] == [];
    }

    /**
     The listener goes to another queue, wherever it is in its block. What it was sent
     before ends with a part of a chain exactly if it moves within that chain.
     */
    method Move(block: Block)
      requires Valid() && BlockOk(block)
      modifies this`refbuf, this`pos, this`hasMoved, this`base, this`baseLast, this`blocks, this`from
      ensures Valid() && refbuf == block && from == 0 && blocks == [] && base == con.wire && baseLast == headers
      ensures base == old(base + Stream(baseLast, blocks) + Begun())
      ensures old(NoPartOfChain()) <==> !old(WithinChain())
    {
      PartWithinChain();
      base, baseLast, blocks := con.wire, headers, [];
      refbuf, pos, hasMoved, from := block, 0, true, 0;
      assert base + Stream(baseLast, []) == base && block.data[0..0] == [];
    }

    /**
     The listener goes to another queue with a private copy of its block, to be finished from
     where it is. The copy has a chain of its own, without the first page, at an address that
     the listener has not seen: what that chain has goes out before the rest of the data.
     Nothing does exactly if the block needs no more than one page of headers.
     */
    method MoveWithCopy(id: nat)
      requires Valid() && pos < |refbuf.data| && (headers == None || headers.value.id != id)
      modifies this`refbuf, this`hasMoved, this`base, this`baseLast, this`blocks, this`from
      ensures Valid() && refbuf == CopyOf(old(refbuf), id) && from == pos && blocks == [] && hasMoved
      ensures base == con.wire == old(base + Stream(baseLast, blocks) + Begun()) && baseLast == headers
      ensures
        var pages := PagesOf(old(refbuf).associated);
        && HeadersFor(headers, refbuf) == (if |pages| <= 1 then [] else Flatten(pages[1..]))
        && (HeadersFor(headers, refbuf) == [] <==> |pages| <= 1)
    {
      base, baseLast, blocks := con.wire, headers, [];
      CopyNeeds(headers, refbuf, id);
      refbuf, hasMoved, from := CopyOf(refbuf, id), true, pos;
      assert base + Stream(baseLast, []) == base && refbuf.data[from..pos] == [];
    }

    /** How much the next call offers the network first, of the headers that are due. */
    ghost function FirstPiece(): nat
      requires Valid()
      reads this, con
    {
      var pages := PagesOf(refbuf.associated);
      var page, n := if Sending() then headerPage else 0, if Sending() then headerPos else 0;
      var left := if page < |pages| then |pages[page]| - n else 0;
      if left > 8192 then 8192 else left
    }

    /** One page of headers, or 8192 bytes of it: whether it was taken. */
    method SendPage(net: Net) returns (ret: int, len: nat)
      requires Valid() && HeadersDue() && !headersSent && !hasMoved && headerPage < |PagesOf(refbuf.associated)|
      modifies this`headerPage, this`headerPos, con
      ensures Valid() && HeadersDue() && !headersSent && !hasMoved && 0 < len <= 8192
      ensures ret == if old(con.error) then -1 else BytesTook(net, len)
      ensures |con.wire| == |old(con.wire)| + Positive(ret)
      ensures con.error <==> old(con.error) || BytesFail(net)
      ensures Willing(net) && !old(con.error) ==> !con.error && ret == len
      ensures len == old(FirstPiece()) && (ret < len ==> headerPage == old(headerPage))
    {
      hide Stream, LastChain;
      ghost var pages, before := PagesOf(refbuf.associated), base + Stream(baseLast, blocks);
      var data := PagesOf(refbuf.associated)[headerPage];
      len := |data| - headerPos;
      if len > 8192 {
        len := 8192;
      }
      ret := -1;
      if !con.error {
        ret := SendBytes(con, data[headerPos..headerPos + len], net);
      }
      if ret > 0 {
        PageMore(before, pages, headerPage, headerPos, len, ret);
        headerPos := headerPos + ret;
      }
      if ret < len {
        return;
      }
      if headerPos == |data| {
        PageDone(pages, headerPage);
        headerPage := headerPage + 1;
        headerPos := 0;
      }
    }

    method HeadersDone()
      requires Valid() && HeadersDue() && !headersSent && !hasMoved && headerPage == |PagesOf(refbuf.associated)|
      modifies this`headers, this`headerPage, this`headersSent
      ensures Valid() && !HeadersDue() && headersSent
    {
      AllPages(PagesOf(refbuf.associated));
      headersSent := true;
      headers := refbuf.associated;
      headerPage := 0;  // NULL
      assert refbuf.data[from..from] == [];
    }

    method StartPages()
      requires Valid() && HeadersDue() && headersSent && !hasMoved
      modifies this`headerPage, this`headerPos, this`headersSent
      ensures Valid() && HeadersDue() && !headersSent && !hasMoved && headerPage == headerPos == 0
    {
      AllPages(PagesOf(refbuf.associated));
      headerPage, headerPos, headersSent := 0, 0, false;
    }

    /** send_ogg_headers */
    method SendOggHeaders(nets: seq<Net>) returns (ret: int)
      requires Valid() && HeadersDue() && |nets| == 11
      modifies this`headers, this`headerPage, this`headerPos, this`headersSent, this`hasMoved, con
      ensures Valid() && (headersSent <==> !HeadersDue()) && pos == from && !hasMoved
      ensures |con.wire| == |old(con.wire)| + Positive(ret) && -1 <= ret <= 18192 && (ret == 0 ==> headersSent)
      ensures con.error ==> old(con.error) || SomeFails(nets)
      ensures old(con.error) || (BytesFail(nets[0]) && old(FirstPiece()) > 0) ==> con.error
      ensures AllWilling(nets) && !old(con.error) ==> !con.error && (headersSent || ret >= 11)
      ensures
        var taken := BytesTook(nets[0], old(FirstPiece()));
        !old(con.error) && Positive(taken) < old(FirstPiece()) ==> !headersSent && Positive(ret) == Positive(taken)
    {
      hide Stream, LastChain, BlockOk, Willing, BytesTook, BytesFail, SomeFails, PagesSent, HeadersFor, Flatten;
      ghost var first := FirstPiece();
      if hasMoved {
        headersSent := true;
        hasMoved := false;
      }
      if headersSent {
        StartPages();
      }
      var written, loop := 0, 10;
      while headerPage < |PagesOf(refbuf.associated)|
        invariant Valid() && HeadersDue() && !headersSent && !hasMoved && 0 <= loop <= 10 && written >= 0
        invariant |con.wire| == |old(con.wire)| + written && written <= 10000
        invariant con.error ==> old(con.error) || SomeFails(nets)
        invariant old(con.error) || (BytesFail(nets[0]) && loop < 10) ==> con.error
        invariant AllWilling(nets) && !old(con.error) ==> !con.error && written >= 10 - loop
        invariant
          if loop == 10 then FirstPiece() == first && written == 0 && con.error == old(con.error)
          else old(con.error) || BytesTook(nets[0], first) >= first
        decreases loop, |PagesOf(refbuf.associated)| - headerPage
      {
        OneFails(nets, 10 - loop);
        var sent, len := SendPage(nets[10 - loop]);
        if sent > 0 {
          written := written + sent;
        }
        if sent < len {
          return if written > 0 then written else -1;
        }
        if written > 10000 || loop == 0 {
          return written;
        }
        loop := loop - 1;
      }
      HeadersDone();
      ret := written;
    }

    /** write_buf_to_client */
    method WriteBuf(nets: seq<Net>, net: Net) returns (ret: int)
      requires Valid() && |nets| == 11
      modifies this`pos, this`headers, this`headerPage, this`headerPos, this`headersSent, this`hasMoved, con
      ensures Valid() && (ret == -1 || ret > 0) && |con.wire| == |old(con.wire)| + Positive(ret)
      ensures pos == old(pos) + if HeadersDue() then 0 else Positive(BytesTook(net, |refbuf.data| - old(pos)))
      ensures AllWilling(nets) && !old(con.error) && HeadersDue() ==> ret >= 11
      ensures AllWilling(nets) && !old(con.error) && !BytesFail(net) ==> !con.error
      ensures con.error ==> old(con.error) || (old(HeadersDue()) && SomeFails(nets)) || BytesFail(net)
      ensures old(con.error) || (!HeadersDue() && BytesFail(net)) ==> con.error
      ensures
        var taken := BytesTook(nets[0], old(FirstPiece()));
        old(HeadersDue()) && !old(con.error) && Positive(taken) < old(FirstPiece()) ==>
          HeadersDue() && !hasMoved && !headersSent && Positive(ret) == Positive(taken)
    {
      hide Stream, LastChain, BlockOk, PagesSent, SomeFails, FirstPiece, AllWilling, HeadersFor;
      var written := 0;
      if headers != refbuf.associated {
        ret := SendOggHeaders(nets);
        if ret > 0 {
          written := written + ret;
        }
        if !headersSent {
          return if written > 0 then written else -1;
        }
      }
      ghost var data, at := refbuf.data, pos;
      ret := SendBytes(con, refbuf.data[pos..], net);
      if ret > 0 {
        DataMore(base + Stream(baseLast, blocks) + HeadersFor(LastChain(baseLast, blocks), refbuf), data, from, at,
          ret);
        pos := pos + ret;
        written := written + ret;
      }
      ret := if written > 0 then written else -1;
    }
  }

  /** A listener that was sent one byte of a page of headers of two. */
  method HalfChainIsSent() returns (listener: Listener)
    ensures listener.Valid() && fresh(listener) && fresh(listener.con)
    ensures listener.WithinChain() && !listener.NoPartOfChain() && listener.con.wire == [10]
  {
    listener := new Listener(Block([12], Some(HeaderChain(1, [[10, 11]]))));
    var nets := seq(11, i => Plain(false, 1, true));
    var _ := listener.WriteBuf(nets, Plain(false, 1, true));
    assert listener.con.wire == [10];
    listener.PartWithinChain();
  }

  /** It moves: what it was sent before ends with that part of the chain, and what comes next follows it. */
  method HalfChainIsLeft(next: Block) returns (listener: Listener)
    requires BlockOk(next)
    ensures listener.Valid() && listener.refbuf == next && listener.con.wire == listener.base == [10]
  {
    listener := HalfChainIsSent();
    listener.Move(next);
  }

  lemma TwoPages(page: nat, n: nat)
    ensures Flatten([[10 as Byte], [11]]) == [10, 11] && Flatten([[11 as Byte]]) == [11]
    ensures page <= 2 && (page < 2 ==> n <= 1) ==> |PagesSent([[10], [11]], page, n)| <= 4
    ensures page <= 1 && (page < 1 ==> n <= 1) ==> |PagesSent([[11]], page, n)| <= 4
  {
    var pages: seq<seq<Byte>> := [[10], [11]];
    assert pages[..0] == [] && pages[..1] == [[10]] && pages[..2] == pages && pages[1..] == [[11]];
    assert [[11 as Byte]][..0] == [] && [[11 as Byte]][..1] == [[11]];
  }

  /** A listener that was sent both pages of its headers and one byte of the page [12, 13]. */
  method HalfPageIsSent() returns (listener: Listener)
    ensures fresh(listener) && fresh(listener.con) && listener.Valid() && !listener.con.error
    ensures listener.refbuf == Block([12, 13], Some(HeaderChain(1, [[10], [11]])))
    ensures listener.headers == listener.refbuf.associated && listener.pos == 1 && listener.con.wire == [10, 11, 12]
  {
    listener := new Listener(Block([12, 13], Some(HeaderChain(1, [[10], [11]]))));
    var nets: seq<Net> := seq(11, i => Plain(false, 8192, true));
    var _ := listener.WriteBuf(nets, Plain(false, 1, true));
    TwoPages(listener.headerPage, listener.headerPos);
  }

  /** It moves with a copy of its block, which has the second page of headers. */
  method HalfPageIsCopied() returns (listener: Listener)
    ensures fresh(listener) && fresh(listener.con) && listener.Valid() && !listener.con.error
    ensures listener.refbuf == Block([12, 13], Some(HeaderChain(2, [[11]]))) && listener.HeadersDue()
    ensures listener.hasMoved && listener.pos == listener.from == 1
    ensures listener.base == [10, 11, 12] && listener.blocks == []
    ensures HeadersFor(listener.baseLast, listener.refbuf) == [11]
  {
    hide PagesSent, LastChain;
    listener := HalfPageIsSent();
    listener.MoveWithCopy(2);
    assert listener.refbuf == Block([12, 13], Some(HeaderChain(2, [[11]])));
    assert Flatten([[11 as Byte]]) == [11] by { TwoPages(0, 0); }
  }

  /** The second page of headers is sent in the middle of the page of data. */
  method PageIsCut() returns (listener: Listener)
    ensures listener.Valid() && listener.refbuf.data == [12, 13] && listener.pos == 2
    ensures listener.con.wire == [10, 11, 12] + [11] + [13]
  {
    hide SomeFails, HeadersFor;
    listener := HalfPageIsCopied();
    var nets: seq<Net> := seq(11, i => Plain(false, 8192, true));
    var _ := listener.WriteBuf(nets, Plain(false, 1, true));
    TwoPages(listener.headerPage, listener.headerPos);
    assert !listener.HeadersDue() && listener.pos == 2;
    assert listener.refbuf.data[1..2] == [13];
    assert Stream(listener.baseLast, []) == [] && [10, 11, 12] + [] == [10 as Byte, 11, 12];
  }
}
