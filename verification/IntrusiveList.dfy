/**
 Intrusive singly linked lists closed by a pointer-to-pointer tail, the shape shared by
 the worker lists of src/client.c, the request queue of src/auth.c and the header chain
 of src/format_ogg.c.

 `Memory` holds the link field of every node. A list is a head pointer and the address of
 its terminating link; an address is either a head variable, told apart by its name, or
 the link field of a node.
 */
module IntrusiveList {

  type Node = nat

  datatype Ptr = Null | To(node: Node)

  datatype Link<L> = Head(list: L) | NextOf(node: Node)

  type Memory = map<Node, Ptr>

  datatype List<L> = List(head: Ptr, tailp: Link<L>)

  ghost predicate Distinct(s: seq<Node>) {
    forall i, j :: 0 <= i < j < |s| ==> s[i] != s[j]
  }

  function ElementAt(s: seq<Node>, k: nat): Ptr {
    if k < |s| then To(s[k]) else Null
  }

  /** The address that leads to position `k` of the list `name` holding `s`. */
  function LinkTo<L>(name: L, s: seq<Node>, k: nat): Link<L>
    requires k <= |s|
  {
    if k == 0 then Head(name) else NextOf(s[k - 1])
  }

  /**
   The link that node `c` contributes to a list. A node that has left while the list still
   runs through it is the `hole`: its own field may hold anything, and `after` is the link
   that the list will be closed with.
   */
  function LinkOf(m: Memory, c: Node, hole: Ptr, after: Ptr): Ptr {
    if To(c) == hole then after else if c in m then m[c] else Null
  }

  /** From `l`, exactly the nodes of `s` are reached, then NULL; `tailp` addresses that NULL. */
  ghost predicate Chain<L>(m: Memory, name: L, l: List<L>, s: seq<Node>, hole: Ptr, after: Ptr) {
    && Distinct(s)
    && (forall c :: c in s ==> c in m)
    && l.head == ElementAt(s, 0)
    && l.tailp == LinkTo(name, s, |s|)
    && forall i {:trigger LinkOf(m, s[i], hole, after)} :: 0 <= i < |s|
        ==> LinkOf(m, s[i], hole, after) == ElementAt(s, i + 1)
  }

  /** `*link` */
  function Load<L>(m: Memory, l: List<L>, link: Link<L>): Ptr {
    match link
    case Head(_) => l.head
    case NextOf(c) => if c in m then m[c] else Null
  }

  /** The list part of `*link = v`. */
  function StoreHead<L>(l: List<L>, link: Link<L>, v: Ptr): List<L> {
    if link.Head? then l.(head := v) else l
  }

  /** The memory part of `*link = v`. */
  function StoreNext<L>(m: Memory, link: Link<L>, v: Ptr): Memory {
    match link
    case Head(_) => m
    case NextOf(c) => m[c := v]
  }

  function Without(s: seq<Node>, k: nat): seq<Node>
    requires k < |s|
  {
    s[..k] + s[k + 1..]
  }

  /** A list is untouched by writes to nodes that it does not run through. */
  lemma ChainFrame<L>(m: Memory, m': Memory, name: L, l: List<L>, s: seq<Node>, hole: Ptr, after: Ptr)
    requires Chain(m, name, l, s, hole, after)
    requires forall c :: c in s ==> c in m' && (To(c) != hole ==> m'[c] == m[c])
    ensures Chain(m', name, l, s, hole, after)
  {
    forall i | 0 <= i < |s|
      ensures LinkOf(m', s[i], hole, after) == ElementAt(s, i + 1)
    {
      assert LinkOf(m, s[i], hole, after) == ElementAt(s, i + 1);
    }
  }

  /** `*tailp = c; tailp = &c->next`, with `c->next` already NULL. */
  lemma ChainAppend<L>(m: Memory, name: L, l: List<L>, s: seq<Node>, c: Node)
    requires Chain(m, name, l, s, Null, Null)
    requires c !in s && c in m
    ensures
      var m' := StoreNext(m[c := Null], l.tailp, To(c));
      var l' := StoreHead(l, l.tailp, To(c)).(tailp := NextOf(c));
      Chain(m', name, l', s + [c], Null, Null)
  {
    var m' := StoreNext(m[c := Null], l.tailp, To(c));
    var t := s + [c];
    forall i | 0 <= i < |t|
      ensures LinkOf(m', t[i], Null, Null) == ElementAt(t, i + 1)
    {
      if i < |s| {
        assert LinkOf(m, s[i], Null, Null) == ElementAt(s, i + 1);
      }
    }
  }

  lemma DistinctConcat(s: seq<Node>, t: seq<Node>)
    requires Distinct(s) && Distinct(t) && forall c :: c in s ==> c !in t
    ensures Distinct(s + t)
  {
    var u := s + t;
    forall i, j | 0 <= i < j < |u|
      ensures u[i] != u[j]
    {
      if j >= |s| {
        assert u[j] == t[j - |s|] && u[j] in t;
        assert i < |s| ==> u[i] in s;
      }
    }
  }

  /** `*tailp = other.head; tailp = other.tailp`, for a non-empty other list. */
  lemma ChainConcat<L>(m: Memory, name: L, l: List<L>, s: seq<Node>, other: L, r: List<L>, t: seq<Node>)
    requires Chain(m, name, l, s, Null, Null) && Chain(m, other, r, t, Null, Null)
    requires t != [] && forall c :: c in s ==> c !in t
    ensures
      Chain(StoreNext(m, l.tailp, r.head), name, StoreHead(l, l.tailp, r.head).(tailp := r.tailp), s + t, Null, Null)
  {
    var m' := StoreNext(m, l.tailp, r.head);
    var u := s + t;
    DistinctConcat(s, t);
    assert |s| > 0 ==> m' == m[s[|s| - 1] := To(t[0])];
    assert |s| == 0 ==> m' == m;
    forall i | 0 <= i < |u|
      ensures LinkOf(m', u[i], Null, Null) == ElementAt(u, i + 1)
    {
      if i + 1 == |s| {
      } else if i < |s| {
        assert s[i] != s[|s| - 1] && LinkOf(m, s[i], Null, Null) == ElementAt(s, i + 1);
      } else {
        var j := i - |s|;
        assert u[i] == t[j] && t[j] in t;
        assert LinkOf(m, t[j], Null, Null) == ElementAt(t, j + 1);
      }
    }
  }

  /** A node leaves while the list runs through it: whatever is written to its field. */
  lemma ChainOpen<L>(m: Memory, m': Memory, name: L, l: List<L>, s: seq<Node>, k: nat)
    requires Chain(m, name, l, s, Null, Null) && k < |s|
    requires forall c :: c in s ==> c in m' && (c != s[k] ==> m'[c] == m[c])
    ensures Chain(m', name, l, s, To(s[k]), m[s[k]])
  {
    forall i | 0 <= i < |s|
      ensures LinkOf(m', s[i], To(s[k]), m[s[k]]) == ElementAt(s, i + 1)
    {
      assert LinkOf(m, s[i], Null, Null) == ElementAt(s, i + 1);
    }
  }

  lemma DistinctWithout(s: seq<Node>, k: nat)
    requires Distinct(s) && k < |s|
    ensures Distinct(Without(s, k))
    ensures forall c :: c in Without(s, k) <==> c in s && c != s[k]
  {
    var t := Without(s, k);
    forall c | c in s && c != s[k]
      ensures c in t
    {
      var i :| 0 <= i < |s| && s[i] == c;
      assert t[if i < k then i else i - 1] == c;
    }
  }

  lemma CloseLink(m: Memory, s: seq<Node>, k: nat, after: Ptr, i: nat)
    requires Distinct(s) && k < |s| && i < |s| - 1 && after == ElementAt(s, k + 1) && forall c :: c in s ==> c in m
    requires forall j {:trigger LinkOf(m, s[j], To(s[k]), after)} :: 0 <= j < |s| ==>
      LinkOf(m, s[j], To(s[k]), after) == ElementAt(s, j + 1)
    ensures
      var m' := if k == 0 then m else m[s[k - 1] := after];
      LinkOf(m', Without(s, k)[i], Null, Null) == ElementAt(Without(s, k), i + 1)
  {
    var j := if i < k then i else i + 1;
    assert Without(s, k)[i] == s[j] && s[j] != s[k];
    if j + 1 != k {
      assert k > 0 ==> s[j] != s[k - 1];
      assert LinkOf(m, s[j], To(s[k]), after) == ElementAt(s, j + 1);
    }
  }

  /** `if (after == NULL) tailp = link; *link = after`, where `link` leads to the hole. */
  lemma ChainClose<L>(m: Memory, name: L, l: List<L>, s: seq<Node>, k: nat, after: Ptr)
    requires k < |s| && Chain(m, name, l, s, To(s[k]), after)
    ensures
      var link := LinkTo(name, s, k);
      var l' := StoreHead(l.(tailp := if after == Null then link else l.tailp), link, after);
      Chain(StoreNext(m, link, after), name, l', Without(s, k), Null, Null)
  {
    var link := LinkTo(name, s, k);
    var m' := StoreNext(m, link, after);
    var t := Without(s, k);
    DistinctWithout(s, k);
    assert after == ElementAt(s, k + 1) by {
      assert LinkOf(m, s[k], To(s[k]), after) == ElementAt(s, k + 1);
    }
    assert k > 0 ==> m' == m[s[k - 1] := after];
    assert k == 0 ==> m' == m;
    forall i | 0 <= i < |t|
      ensures LinkOf(m', t[i], Null, Null) == ElementAt(t, i + 1)
    {
      CloseLink(m, s, k, after, i);
    }
  }

  /**
   The node at position `k` of one list goes to the end of another, through the cursor
   `link` that leads to it: append, then fix the old tail, clear the link, and unlink.
   */
  lemma ChainMove<L>(m: Memory, name: L, l: List<L>, s: seq<Node>, k: nat, other: L, r: List<L>, t: seq<Node>)
    requires Chain(m, name, l, s, Null, Null) && Chain(m, other, r, t, Null, Null)
    requires k < |s| && forall c :: c in s ==> c !in t
    ensures
      var c, link := s[k], LinkTo(name, s, k);
      var m' := StoreNext(StoreNext(m, r.tailp, To(c))[c := Null], link, m[c]);
      var r' := StoreHead(r, r.tailp, To(c)).(tailp := NextOf(c));
      var l' := StoreHead(l.(tailp := if m[c] == Null then link else l.tailp), link, m[c]);
      && Chain(m', name, l', Without(s, k), Null, Null)
      && Chain(m', other, r', t + [c], Null, Null)
      && forall d :: d in m && d !in s && d !in t ==> d in m' && m'[d] == m[d]
  {
    var c, link := s[k], LinkTo(name, s, k);
    var mid := StoreNext(m[c := Null], r.tailp, To(c));
    assert c in s && (t != [] ==> t[|t| - 1] in t);
    assert StoreNext(m, r.tailp, To(c))[c := Null] == mid;
    var m' := StoreNext(mid, link, m[c]);
    ChainAppend(m, other, r, t, c);
    ChainOpen(m, mid, name, l, s, k);
    ChainClose(mid, name, l, s, k, m[c]);
    if k > 0 {
      assert s[k - 1] in s && s[k - 1] != c;
    }
    var r' := StoreHead(r, r.tailp, To(c)).(tailp := NextOf(c));
    ChainFrame(mid, m', other, r', t + [c], Null, Null);
  }
}
