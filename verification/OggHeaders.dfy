/**
 The chain of header pages of src/format_ogg.c: pages that begin a logical stream come
 first (section 4 of RFC 3533), however they are interleaved with the others.
 */
module OggHeaders {
  import opened IntrusiveList

  datatype ChainName = HeaderPages

  /** A header page, as it arrives. */
  datatype Arrival = Arrival(page: Node, bos: bool)

  function Pages(arrivals: seq<Arrival>, bos: bool): seq<Node> {
    if arrivals == [] then []
    else
      var last := arrivals[|arrivals| - 1];
      Pages(arrivals[..|arrivals| - 1], bos) + if last.bos == bos then [last.page] else []
  }

  /** The pages that begin a stream in the order in which they came, then the others in theirs. */
  function InOrder(arrivals: seq<Arrival>): seq<Node> {
    Pages(arrivals, true) + Pages(arrivals, false)
  }

  lemma {:induction false} ArrivalsKept(arrivals: seq<Arrival>, c: Node)
    ensures c in InOrder(arrivals) <==> exists i :: 0 <= i < |arrivals| && arrivals[i].page == c
  {
    if arrivals != [] {
      var init := arrivals[..|arrivals| - 1];
      ArrivalsKept(init, c);
      assert forall i :: 0 <= i < |init| ==> arrivals[i] == init[i];
    }
  }

  lemma {:induction false} PageAt(arrivals: seq<Arrival>, i: nat) returns (p: nat)
    requires i < |arrivals|
    ensures
      var pages := Pages(arrivals, arrivals[i].bos);
      p == |Pages(arrivals[..i], arrivals[i].bos)| < |pages| && pages[p] == arrivals[i].page
    decreases |arrivals|
  {
    var init := arrivals[..|arrivals| - 1];
    if i < |init| {
      assert init[..i] == arrivals[..i];
      p := PageAt(init, i);
    } else {
      p := |Pages(init, arrivals[i].bos)|;
    }
  }

  lemma {:induction false} PagesGrow(arrivals: seq<Arrival>, i: nat, bos: bool)
    requires i <= |arrivals|
    ensures |Pages(arrivals[..i], bos)| <= |Pages(arrivals, bos)|
    decreases |arrivals|
  {
    if i == |arrivals| {
      assert arrivals[..i] == arrivals;
    } else {
      assert arrivals[..|arrivals| - 1][..i] == arrivals[..i];
      PagesGrow(arrivals[..|arrivals| - 1], i, bos);
    }
  }

  /** Of two pages the first to come is first in the chain, unless only the other begins a stream. */
  lemma OrderKept(arrivals: seq<Arrival>, i: nat, j: nat) returns (p: nat, q: nat)
    requires i < j < |arrivals|
    ensures p < |InOrder(arrivals)| && q < |InOrder(arrivals)|
    ensures InOrder(arrivals)[p] == arrivals[i].page && InOrder(arrivals)[q] == arrivals[j].page
    ensures p < q <==> arrivals[i].bos || !arrivals[j].bos
  {
    var first := |Pages(arrivals, true)|;
    p := PageAt(arrivals, i);
    q := PageAt(arrivals, j);
    var k := PageAt(arrivals[..j], i);
    assert arrivals[..j][..i] == arrivals[..i];
    PagesGrow(arrivals, j, arrivals[i].bos);
    if !arrivals[i].bos {
      p := p + first;
    }
    if !arrivals[j].bos {
      q := q + first;
    }
  }

  lemma InsertDistinct(s: seq<Node>, k: nat, c: Node)
    requires Distinct(s) && k <= |s| && c !in s
    ensures Distinct(s[..k] + [c] + s[k..])
  {
  }

  /** A node goes in after the first `k`. */
  lemma ChainInsert<L>(m: Memory, name: L, l: List<L>, s: seq<Node>, k: nat, c: Node)
    requires Chain(m, name, l, s, Null, Null) && k <= |s| && c !in s
    ensures
      var link := LinkTo(name, s, k);
      var m' := StoreNext(m[c := Load(m, l, link)], link, To(c));
      var t := s[..k] + [c] + s[k..];
      && Load(m, l, link) == ElementAt(s, k)
      && Chain(m', name, List(if k == 0 then To(c) else l.head, LinkTo(name, t, |t|)), t, Null, Null)
  {
    var link := LinkTo(name, s, k);
    var after := Load(m, l, link);
    var m' := StoreNext(m[c := after], link, To(c));
    var t := s[..k] + [c] + s[k..];
    assert after == ElementAt(s, k) by {
      if k > 0 {
        assert LinkOf(m, s[k - 1], Null, Null) == ElementAt(s, k);
      }
    }
    InsertDistinct(s, k, c);
    forall i | 0 <= i < |t|
      ensures LinkOf(m', t[i], Null, Null) == ElementAt(t, i + 1)
    {
      if i + 1 < k {
        assert LinkOf(m, s[i], Null, Null) == ElementAt(s, i + 1);
        assert s[i] != s[k - 1];
      } else if i > k {
        assert LinkOf(m, s[i - 1], Null, Null) == ElementAt(s, i);
        assert k > 0 ==> s[i - 1] != s[k - 1];
      }
    }
  }

  lemma ChainHead<L>(m: Memory, name: L, l: List<L>, s: seq<Node>)
    requires Chain(m, name, l, s, Null, Null)
    ensures l.head == ElementAt(s, 0) && Distinct(s)
  {
  }

  lemma Placed(arrivals: seq<Arrival>, a: Arrival)
    ensures
      var s, k := InOrder(arrivals), |Pages(arrivals, true)|;
      var all := arrivals + [a];
      && k <= |s|
      && |Pages(all, true)| == k + (if a.bos then 1 else 0)
      && InOrder(all) == if a.bos then s[..k] + [a.page] + s[k..] else s + [a.page]
  {
    var all := arrivals + [a];
    assert all[..|all| - 1] == arrivals && all[|all| - 1] == a;
    var x, y := Pages(arrivals, true), Pages(arrivals, false);
    assert (x + y)[..|x|] == x && (x + y)[|x|..] == y;
  }

  class OggState {
    var associated: Memory           // refbuf->associated
    var headerPages: Ptr
    var headerPagesTail: Ptr
    var bosEnd: Link<ChainName>

    ghost var arrivals: seq<Arrival>

    ghost function Held(): seq<Node>
      reads this
    {
      InOrder(arrivals)
    }

    ghost predicate Valid()
      reads this
    {
      && Chain(associated, HeaderPages, List(headerPages, LinkTo(HeaderPages, Held(), |Held()|)), Held(), Null, Null)
      && bosEnd == LinkTo(HeaderPages, Held(), |Pages(arrivals, true)|)
      && headerPagesTail == if Held() == [] then Null else To(Held()[|Held()| - 1])
    }

    constructor ()
      ensures Valid() && arrivals == []
    {
      associated, headerPages, headerPagesTail, bosEnd := map[], Null, Null, Head(HeaderPages);
      arrivals := [];
    }

    /** format_ogg_free_headers */
    method FreeHeaders()
      modifies this`headerPages, this`headerPagesTail, this`bosEnd, this`arrivals
      ensures Valid() && arrivals == []
    {
      headerPages, headerPagesTail := Null, Null;
      bosEnd := Head(HeaderPages);
      arrivals := [];
    }

    /** `*bos_end` */
    function AtBosEnd(): Ptr
      reads this
    {
      match bosEnd case Head(_) => headerPages case NextOf(p) => if p in associated then associated[p] else Null
    }

    /** add_block_header, for a page that refers to nothing yet */
    method AddBlockHeader(refbuf: Node, bos: bool)
      requires Valid() && refbuf !in Held()
      modifies this
      ensures Valid() && arrivals == old(arrivals) + [Arrival(refbuf, bos)]
    {
      hide InOrder, Chain, Pages;
      ghost var s, k := Held(), |Pages(arrivals, true)|;
      Placed(arrivals, Arrival(refbuf, bos));
      ChainHead(associated, HeaderPages, List(headerPages, LinkTo(HeaderPages, s, |s|)), s);
      ChainInsert(associated, HeaderPages, List(headerPages, LinkTo(HeaderPages, s, |s|)), s, if bos then k else |s|,
        refbuf);
      assert s[..|s|] + [refbuf] + s[|s|..] == s + [refbuf];
      arrivals := arrivals + [Arrival(refbuf, bos)];
      if bos {
        if AtBosEnd() == Null {
          headerPagesTail := To(refbuf);
        }
        associated := associated[refbuf := AtBosEnd()];
        match bosEnd {
          case Head(_) => headerPages := To(refbuf);
          case NextOf(p) => associated := associated[p := To(refbuf)];
        }
        bosEnd := NextOf(refbuf);
        return;
      }
      associated := associated[refbuf := Null];
      if headerPagesTail != Null {
        associated := associated[headerPagesTail.node := To(refbuf)];
      }
      headerPagesTail := To(refbuf);
      if headerPages == Null {
        headerPages := To(refbuf);
      }
    }
  }
}
