/**
 The client scheduler of src/client.c. Every worker thread owns a fast and a normal list
 of clients, and a pending list that other threads fill under the worker's lock. The
 thread walks its own lists with a pointer-to-pointer cursor while it moves clients
 between them, hands clients to other workers, and unlinks them afterwards through a
 link that it saved beforehand.

 A method of `Scheduler` is one locked section or one stretch that only the owning thread
 runs, so any sequence of calls is one interleaving of the threads.
 */
module Workers {
  import opened IntrusiveList
  import opened Wrappers

  datatype ListName = Fast | Normal | Pending

  type WorkerId = nat

  /** worker_t */
  datatype Worker = Worker(
    fast: List<ListName>,     // fast_clients, fast_tailp
    normal: List<ListName>,   // clients, last_p
    pending: List<ListName>,  // pending_clients, pending_tailp
    count: int,
    pendingCount: int,
    timeMs: nat)

  /** Where the thread is in its loop. */
  datatype Phase =
    | Dispatch    // about to pick a client
    | Processing  // running the client at the cursor
    | Unlinking   // that client has left; the list still runs through it
    | PassEnded   // nothing more to pick in this pass
    | Blocked     // in the timed wait

  /** worker_client_t, with the loop's locals. */
  datatype Thread = Thread(
    prevp: Option<Link<ListName>>,
    schedMs: nat,
    wakeupMs: nat,
    maxRun: nat,
    timeRecheck: nat,
    normalClients: bool,  // WKRC_NORMAL_CLIENTS
    normalAfter: bool,    // WKRC_NORMAL_AFTER
    nxc: Ptr,
    phase: Phase)

  /**
   What the three lists hold, the position of the cursor, how many clients were run in this
   pass, and which clients another thread has made due since the cursor passed them.
   */
  datatype View = View(
    fast: seq<Node>,
    normal: seq<Node>,
    pending: seq<Node>,
    cur: nat,
    ran: nat,
    prompted: set<Node>)

  const MAX_RUN: nat := 1000

  // -------------------------------------------------------------------- invariant

  ghost function Walked(t: Thread, v: View): seq<Node> {
    if t.normalClients then v.normal else v.fast
  }

  ghost function WalkedName(t: Thread): ListName {
    if t.normalClients then Normal else Fast
  }

  /** The client that has left while a list of ours still runs through it. */
  ghost function Hole(t: Thread, v: View): Ptr {
    if t.phase == Unlinking then ElementAt(Walked(t, v), v.cur) else Null
  }

  /** The link that the list will be closed with once that client is removed. */
  ghost function After(t: Thread): Ptr {
    if t.phase == Unlinking then t.nxc else Null
  }

  ghost predicate Owns(t: Thread, v: View, c: Node) {
    ((c in v.fast || c in v.normal) && To(c) != Hole(t, v)) || c in v.pending
  }

  ghost predicate ShapeOk(next: Memory, w: Worker, t: Thread, v: View) {
    && Chain(next, Fast, w.fast, v.fast, Hole(t, v), After(t))
    && Chain(next, Normal, w.normal, v.normal, Hole(t, v), After(t))
    && Chain(next, Pending, w.pending, v.pending, Null, Null)
    && (forall c :: c in v.fast ==> c !in v.normal)
    && (forall c :: c in v.pending && To(c) != Hole(t, v) ==> c !in v.fast && c !in v.normal)
    && w.count == |v.fast| + |v.normal|
    && w.pendingCount == |v.pending|
  }

  ghost predicate AtCursor(t: Thread, v: View) {
    && v.cur <= |Walked(t, v)|
    && t.prevp == Some(LinkTo(WalkedName(t), Walked(t, v), v.cur))
  }

  ghost predicate CursorOk(next: Memory, t: Thread, v: View) {
    match t.phase
    case Dispatch =>
      if t.prevp == None then v.fast == v.normal == [] && t.normalClients && t.schedMs == 0
      else AtCursor(t, v)
    case Processing => AtCursor(t, v) && v.cur < |Walked(t, v)| && t.nxc == ElementAt(Walked(t, v), v.cur + 1)
    case Unlinking => AtCursor(t, v) && v.cur < |Walked(t, v)|
    case PassEnded => true
    case Blocked => t.normalClients && v.fast == []
  }

  ghost predicate Walking(t: Thread) {
    t.phase == Dispatch || t.phase == Processing || t.phase == Unlinking
  }

  /** How many of the normal clients the cursor has passed. */
  ghost function PassedCount(t: Thread, v: View): nat {
    if !t.normalClients then 0 else if Walking(t) then v.cur else |v.normal|
  }

  /** The normal clients before the cursor, or all of them once the normal list was gone over. */
  ghost predicate Passed(t: Thread, v: View, c: Node) {
    exists i :: 0 <= i < |v.normal| && i < PassedCount(t, v) && v.normal[i] == c
  }

  /** `wakeupMs` is no later than any of the first `k` normal clients is due, unless it was made due afterwards. */
  ghost predicate Covers(scheduleMs: map<Node, nat>, wakeupMs: nat, v: View, k: nat) {
    forall i :: 0 <= i < k && i < |v.normal| && v.normal[i] !in v.prompted ==>
      v.normal[i] in scheduleMs && wakeupMs <= scheduleMs[v.normal[i]]
  }

  ghost predicate PromptedOk(scheduleMs: map<Node, nat>, t: Thread, v: View) {
    forall c :: c in v.prompted ==> Passed(t, v, c) && c in scheduleMs && scheduleMs[c] == 0
  }

  ghost predicate TimeOk(scheduleMs: map<Node, nat>, w: Worker, t: Thread, v: View) {
    && t.wakeupMs <= w.timeMs + 30000
    && PromptedOk(scheduleMs, t, v)
    && (Walking(t) && t.normalClients ==>
          if t.schedMs == 0 then t.prevp == None || v.cur == 0
          else Covers(scheduleMs, t.wakeupMs, v, v.cur))
    && (t.phase == Processing || t.phase == Unlinking ==> t.schedMs != 0)
    && (!Walking(t) && t.normalClients ==>
          t.wakeupMs <= w.timeMs || Covers(scheduleMs, t.wakeupMs, v, |v.normal|))
  }

  ghost predicate RunOk(t: Thread, v: View) {
    && v.ran <= MAX_RUN
    && (Walking(t) ==> v.ran + t.maxRun == MAX_RUN)
    && t.maxRun < 65536
    && t.timeRecheck <= 50
  }

  ghost predicate WorkerOk(next: Memory, scheduleMs: map<Node, nat>, w: Worker, t: Thread, v: View) {
    && ShapeOk(next, w, t, v)
    && CursorOk(next, t, v)
    && TimeOk(scheduleMs, w, t, v)
    && RunOk(t, v)
  }

  /** What other threads do to clients that a worker does not own leaves the worker as it was. */
  lemma WorkerFrame(next: Memory, next': Memory, sched: map<Node, nat>, sched': map<Node, nat>,
                    w: Worker, t: Thread, v: View)
    requires WorkerOk(next, sched, w, t, v)
    requires next.Keys <= next'.Keys
    requires forall c :: Owns(t, v, c) ==> c in next && next'[c] == next[c]
    requires forall c :: Owns(t, v, c) && c in sched ==> c in sched' && sched'[c] == sched[c]
    ensures WorkerOk(next', sched', w, t, v)
  {
    ChainFrame(next, next', Fast, w.fast, v.fast, Hole(t, v), After(t));
    ChainFrame(next, next', Normal, w.normal, v.normal, Hole(t, v), After(t));
    ChainFrame(next, next', Pending, w.pending, v.pending, Null, Null);
    forall i | 0 <= i < |v.normal| && To(v.normal[i]) != Hole(t, v)
      ensures Owns(t, v, v.normal[i])
    {
    }
  }

  // -------------------------------------------------------------------- the whole server

  /** All of memory that the workers share, with the contents of every list. */
  datatype State = State(
    next: Memory,                        // client_t: next_on_worker
    owner: map<Node, Option<WorkerId>>,  // client_t: worker
    scheduleMs: map<Node, nat>,          // client_t: schedule_ms
    fastCount: map<Node, nat>,           // client_t: fast_count
    workers: seq<Worker>,
    threads: seq<Thread>,
    views: seq<View>)
  {
    ghost predicate Resident(id: int, c: Node) {
      0 <= id < |threads| && id < |views| && Owns(threads[id], views[id], c)
    }

    /** The client is on no list of any worker. */
    ghost predicate Outside(c: Node) {
      forall id :: 0 <= id < |threads| ==> !Resident(id, c)
    }

    ghost predicate Sized() {
      && |threads| == |workers| == |views|
      && owner.Keys == scheduleMs.Keys == fastCount.Keys == next.Keys
    }

    ghost predicate Good(id: nat)
      requires Sized() && id < |workers|
    {
      && WorkerOk(next, scheduleMs, workers[id], threads[id], views[id])
      && forall c :: Owns(threads[id], views[id], c) ==> c in owner && owner[c] == Some(id)
    }

    ghost predicate Inv() {
      && Sized()
      && forall id :: 0 <= id < |workers| ==> Good(id)
    }
  }

  /**
   A step of one thread that changes its own record, and of the clients only those that
   carry its number, keeps the invariant.
   */
  lemma OwnStep(s: State, s': State, id: WorkerId, w: Worker, t: Thread, v: View)
    requires s.Inv() && s'.Sized() && id < |s.workers| && s.next.Keys == s'.next.Keys
    requires s'.workers == s.workers[id := w] && s'.threads == s.threads[id := t] && s'.views == s.views[id := v]
    requires WorkerOk(s'.next, s'.scheduleMs, w, t, v)
    requires s'.owner == s.owner
    requires forall c :: Owns(t, v, c) ==> Owns(s.threads[id], s.views[id], c)
    requires forall c :: c in s.next && s.owner[c] != Some(id) ==>
      s'.next[c] == s.next[c] && s'.scheduleMs[c] == s.scheduleMs[c]
    ensures s'.Inv()
  {
    hide WorkerOk;
    forall j | 0 <= j < |s'.workers|
      ensures s'.Good(j)
    {
      assert s.Good(j);
      if j != id {
        WorkerFrame(s.next, s'.next, s.scheduleMs, s'.scheduleMs, s.workers[j], s.threads[j], s.views[j]);
      }
    }
  }

  /** No other worker owns a client that this one owns. */
  lemma OneOwner(s: State, id: nat, c: Node)
    requires s.Inv() && s.Resident(id, c)
    ensures c in s.owner && s.owner[c] == Some(id)
    ensures forall j :: s.Resident(j, c) ==> j == id
  {
    hide WorkerOk;
    assert s.Good(id);
    forall j | s.Resident(j, c)
      ensures j == id
    {
      assert s.Good(j);
    }
  }

  // -------------------------------------------------------------------- pointer operations

  function ListOf(w: Worker, name: ListName): List<ListName> {
    match name case Fast => w.fast case Normal => w.normal case Pending => w.pending
  }

  function WithList(w: Worker, name: ListName, l: List<ListName>): Worker {
    match name case Fast => w.(fast := l) case Normal => w.(normal := l) case Pending => w.(pending := l)
  }

  /** The worker after `*link = v`. */
  function StoreIn(w: Worker, link: Link<ListName>, v: Ptr): Worker {
    match link
    case NextOf(_) => w
    case Head(name) => WithList(w, name, ListOf(w, name).(head := v))
  }

  /** `*link`, for a link of this worker. */
  function LoadFrom(m: Memory, w: Worker, link: Link<ListName>): Ptr {
    match link
    case NextOf(c) => if c in m then m[c] else Null
    case Head(name) => ListOf(w, name).head
  }

  function SetTail(w: Worker, name: ListName, link: Link<ListName>): Worker {
    WithList(w, name, ListOf(w, name).(tailp := link))
  }

  function Added(w: Worker, c: Node): Worker {
    SetTail(StoreIn(w, w.pending.tailp, To(c)), Pending, NextOf(c)).(pendingCount := w.pendingCount + 1)
  }

  function AddedMemory(m: Memory, w: Worker, c: Node): Memory {
    StoreNext(m[c := Null], w.pending.tailp, To(c))
  }

  lemma AddKeeps(next: Memory, sched: map<Node, nat>, w: Worker, t: Thread, v: View, c: Node)
    requires WorkerOk(next, sched, w, t, v) && c in next && !Owns(t, v, c)
    ensures
      var next', v' := AddedMemory(next, w, c), v.(pending := v.pending + [c]);
      && WorkerOk(next', sched, Added(w, c), t, v')
      && next'.Keys == next.Keys
      && (forall d :: Owns(t, v', d) ==> d == c || Owns(t, v, d))
      && (forall d :: d in next && d != c && !Owns(t, v, d) ==> next'[d] == next[d])
  {
    var next' := AddedMemory(next, w, c);
    ChainAppend(next, Pending, w.pending, v.pending, c);
    ChainFrame(next, next', Fast, w.fast, v.fast, Hole(t, v), After(t));
    ChainFrame(next, next', Normal, w.normal, v.normal, Hole(t, v), After(t));
    assert v.pending != [] ==> v.pending[|v.pending| - 1] in v.pending;
  }

  lemma AddStep(s: State, id: WorkerId, c: Node)
    requires s.Inv() && id < |s.workers| && c in s.next && s.Outside(c)
    ensures
      var w, v := s.workers[id], s.views[id];
      s.(owner := s.owner[c := Some(id)], next := AddedMemory(s.next, w, c), workers := s.workers[id := Added(w, c)],
         views := s.views[id := v.(pending := v.pending + [c])]).Inv()
  {
    hide WorkerOk, Owns, AddedMemory, Added;
    var w, t, v := s.workers[id], s.threads[id], s.views[id];
    var s' := s.(owner := s.owner[c := Some(id)], next := AddedMemory(s.next, w, c),
                 workers := s.workers[id := Added(w, c)], views := s.views[id := v.(pending := v.pending + [c])]);
    assert s.Good(id) && !s.Resident(id, c);
    AddKeeps(s.next, s.scheduleMs, w, t, v, c);
    forall j | 0 <= j < |s'.workers| && j != id
      ensures s'.Good(j)
    {
      assert s.Good(j) && !s.Resident(j, c);
      WorkerFrame(s.next, s'.next, s.scheduleMs, s'.scheduleMs, s.workers[j], s.threads[j], s.views[j]);
    }
  }

  // -------------------------------------------------------------------- moving on to the next client

  function Other(t: Thread): ListName {
    if t.normalClients then Fast else Normal
  }

  function Current(t: Thread): ListName {
    if t.normalClients then Normal else Fast
  }

  /** Memory after the client `c` at `link` went to the end of the other list. */
  function MovedMemory(m: Memory, w: Worker, t: Thread, link: Link<ListName>, c: Node): Memory
    requires c in m
  {
    StoreNext(StoreNext(m, ListOf(w, Other(t)).tailp, To(c))[c := Null], link, m[c])
  }

  function MovedWorker(m: Memory, w: Worker, t: Thread, link: Link<ListName>, c: Node): Worker
    requires c in m
  {
    var appended := SetTail(StoreIn(w, ListOf(w, Other(t)).tailp, To(c)), Other(t), NextOf(c));
    var closed := if m[c] == Null then SetTail(appended, Current(t), link) else appended;
    StoreIn(closed, link, m[c])
  }

  ghost function Moved(t: Thread, v: View): View
    requires v.cur < |Walked(t, v)|
  {
    if t.normalClients then v.(normal := Without(v.normal, v.cur), fast := v.fast + [v.normal[v.cur]])
    else v.(fast := Without(v.fast, v.cur), normal := v.normal + [v.fast[v.cur]])
  }

  lemma MoveOk(next: Memory, w: Worker, t: Thread, v: View, wakeupMs: nat)
    requires ShapeOk(next, w, t, v) && t.phase == Dispatch && AtCursor(t, v) && v.cur < |Walked(t, v)|
    ensures
      var c, link := Walked(t, v)[v.cur], t.prevp.value;
      && c in next
      && ShapeOk(MovedMemory(next, w, t, link, c), MovedWorker(next, w, t, link, c), t.(wakeupMs := wakeupMs),
                 Moved(t, v))
      && MovedWorker(next, w, t, link, c).timeMs == w.timeMs
      && AtCursor(t, Moved(t, v))
  {
    var c, link := Walked(t, v)[v.cur], t.prevp.value;
    var next' := MovedMemory(next, w, t, link, c);
    assert c in Walked(t, v);
    if t.normalClients {
      ChainMove(next, Normal, w.normal, v.normal, v.cur, Fast, w.fast, v.fast);
      DistinctWithout(v.normal, v.cur);
    } else {
      ChainMove(next, Fast, w.fast, v.fast, v.cur, Normal, w.normal, v.normal);
      DistinctWithout(v.fast, v.cur);
    }
    ChainFrame(next, next', Pending, w.pending, v.pending, Null, Null);
  }

  lemma MoveFrame(next: Memory, w: Worker, t: Thread, v: View)
    requires ShapeOk(next, w, t, v) && t.phase == Dispatch && AtCursor(t, v) && v.cur < |Walked(t, v)|
    ensures
      var c, link := Walked(t, v)[v.cur], t.prevp.value;
      && c in next
      && MovedMemory(next, w, t, link, c).Keys == next.Keys
      && forall d :: d in next && d !in v.fast && d !in v.normal ==> MovedMemory(next, w, t, link, c)[d] == next[d]
  {
    var s := Walked(t, v);
    assert s[v.cur] in s && (v.cur > 0 ==> s[v.cur - 1] in s);
    var link := ListOf(w, Other(t)).tailp;
    assert link.NextOf? ==> link.node in next && (link.node in v.fast || link.node in v.normal);
  }

  lemma MovedMembers(t: Thread, v: View, d: Node)
    requires v.cur < |Walked(t, v)| && (d in Moved(t, v).fast || d in Moved(t, v).normal)
    ensures d in v.fast || d in v.normal
  {
    if d != Walked(t, v)[v.cur] {
      assert d in Without(Walked(t, v), v.cur) ==> d in Walked(t, v);
    }
  }

  /** What the cursor has passed stays passed: only the client at the cursor goes to the other list. */
  lemma MovedPassed(t: Thread, v: View, t': Thread, c: Node)
    requires Walking(t) && Walking(t') && t'.normalClients == t.normalClients
    requires v.cur < |Walked(t, v)| && Passed(t, v, c)
    ensures Passed(t', Moved(t, v), c)
  {
    var i :| 0 <= i < |v.normal| && i < PassedCount(t, v) && v.normal[i] == c;
    assert Moved(t, v).normal[i] == c;
  }

  ghost predicate Stepping(t: Thread, v: View) {
    t.phase == Dispatch && t.prevp != None && t.schedMs != 0 && v.cur < |Walked(t, v)|
  }

  lemma MoveKeeps(next: Memory, sched: map<Node, nat>, w: Worker, t: Thread, v: View, wakeupMs: nat)
    requires WorkerOk(next, sched, w, t, v) && Stepping(t, v) && wakeupMs <= t.wakeupMs
    ensures
      var c, link := Walked(t, v)[v.cur], t.prevp.value;
      var next' := MovedMemory(next, w, t, link, c);
      && WorkerOk(next', sched, MovedWorker(next, w, t, link, c), t.(wakeupMs := wakeupMs), Moved(t, v))
      && Owns(t, v, c)
      && next'.Keys == next.Keys
      && (forall d :: Owns(t.(wakeupMs := wakeupMs), Moved(t, v), d) ==> Owns(t, v, d))
      && (forall d :: d in next && !Owns(t, v, d) ==> next'[d] == next[d])
  {
    hide ShapeOk, MovedMemory, MovedWorker;
    assert |Moved(t, v).fast| + |Moved(t, v).normal| == |v.fast| + |v.normal|;
    MoveOk(next, w, t, v, wakeupMs);
    MoveFrame(next, w, t, v);
    forall d | d in Moved(t, v).fast || d in Moved(t, v).normal
      ensures d in v.fast || d in v.normal
    {
      MovedMembers(t, v, d);
    }
    forall d | Passed(t, v, d)
      ensures Passed(t.(wakeupMs := wakeupMs), Moved(t, v), d)
    {
      MovedPassed(t, v, t.(wakeupMs := wakeupMs), d);
    }
    assert Walked(t, v)[v.cur] in Walked(t, v);
  }

  lemma MoveStep(s: State, id: WorkerId, wakeupMs: nat, fastCount: map<Node, nat>)
    requires s.Inv() && id < |s.workers| && Stepping(s.threads[id], s.views[id])
    requires wakeupMs <= s.threads[id].wakeupMs && fastCount.Keys == s.fastCount.Keys
    ensures
      var w, t, v := s.workers[id], s.threads[id], s.views[id];
      var c, link := Walked(t, v)[v.cur], t.prevp.value;
      && c in s.next
      && s.(next := MovedMemory(s.next, w, t, link, c), workers := s.workers[id := MovedWorker(s.next, w, t, link, c)],
            threads := s.threads[id := t.(wakeupMs := wakeupMs)], views := s.views[id := Moved(t, v)],
            fastCount := fastCount).Inv()
  {
    hide WorkerOk, MovedWorker, MovedMemory, Moved, Owns;
    var w, t, v := s.workers[id], s.threads[id], s.views[id];
    var c, link := Walked(t, v)[v.cur], t.prevp.value;
    assert s.Good(id);
    MoveKeeps(s.next, s.scheduleMs, w, t, v, wakeupMs);
    var w', t', v' := MovedWorker(s.next, w, t, link, c), t.(wakeupMs := wakeupMs), Moved(t, v);
    var s' := s.(next := MovedMemory(s.next, w, t, link, c), workers := s.workers[id := w'],
                 threads := s.threads[id := t'], views := s.views[id := v'], fastCount := fastCount);
    OwnStep(s, s', id, w', t', v');
  }

  function Advanced(t: Thread, wakeupMs: nat, c: Node, nxt: Ptr): Thread {
    if nxt == Null then t.(wakeupMs := wakeupMs) else t.(prevp := Some(NextOf(c)), wakeupMs := wakeupMs)
  }

  ghost function AdvancedView(v: View, nxt: Ptr): View {
    if nxt == Null then v else v.(cur := v.cur + 1)
  }

  lemma AdvanceTime(sched: map<Node, nat>, w: Worker, t: Thread, v: View, wakeupMs: nat, nxt: Ptr)
    requires TimeOk(sched, w, t, v) && Stepping(t, v) && wakeupMs <= t.wakeupMs
    requires t.normalClients ==> v.normal[v.cur] in sched && wakeupMs <= sched[v.normal[v.cur]]
    ensures TimeOk(sched, w, Advanced(t, wakeupMs, Walked(t, v)[v.cur], nxt), AdvancedView(v, nxt))
  {
    var t', v' := Advanced(t, wakeupMs, Walked(t, v)[v.cur], nxt), AdvancedView(v, nxt);
    forall c | Passed(t, v, c)
      ensures Passed(t', v', c)
    {
      var i :| 0 <= i < |v.normal| && i < PassedCount(t, v) && v.normal[i] == c;
      assert v'.normal[i] == c;
    }
  }

  lemma AdvanceKeeps(next: Memory, sched: map<Node, nat>, w: Worker, t: Thread, v: View, wakeupMs: nat)
    requires WorkerOk(next, sched, w, t, v) && Stepping(t, v) && wakeupMs <= t.wakeupMs
    requires t.normalClients ==> v.normal[v.cur] in sched && wakeupMs <= sched[v.normal[v.cur]]
    ensures
      var c := Walked(t, v)[v.cur];
      && c in next && next[c] == ElementAt(Walked(t, v), v.cur + 1)
      && WorkerOk(next, sched, w, Advanced(t, wakeupMs, c, next[c]), AdvancedView(v, next[c]))
  {
    hide TimeOk;
    var c := Walked(t, v)[v.cur];
    assert c in Walked(t, v);
    assert LinkOf(next, c, Null, Null) == ElementAt(Walked(t, v), v.cur + 1);
    AdvanceTime(sched, w, t, v, wakeupMs, next[c]);
  }

  lemma AdvanceStep(s: State, id: WorkerId, wakeupMs: nat, fastCount: map<Node, nat>)
    requires s.Inv() && id < |s.workers| && Stepping(s.threads[id], s.views[id])
    requires wakeupMs <= s.threads[id].wakeupMs && fastCount.Keys == s.fastCount.Keys
    requires
      var t, v := s.threads[id], s.views[id];
      t.normalClients ==> v.normal[v.cur] in s.scheduleMs && wakeupMs <= s.scheduleMs[v.normal[v.cur]]
    ensures
      var t, v := s.threads[id], s.views[id];
      var c := Walked(t, v)[v.cur];
      && c in s.next && s.next[c] == ElementAt(Walked(t, v), v.cur + 1)
      && s.(threads := s.threads[id := Advanced(t, wakeupMs, c, s.next[c])],
            views := s.views[id := AdvancedView(v, s.next[c])], fastCount := fastCount).Inv()
  {
    hide WorkerOk;
    var w, t, v := s.workers[id], s.threads[id], s.views[id];
    var c := Walked(t, v)[v.cur];
    assert s.Good(id);
    AdvanceKeeps(s.next, s.scheduleMs, w, t, v, wakeupMs);
    var t', v' := Advanced(t, wakeupMs, c, s.next[c]), AdvancedView(v, s.next[c]);
    var s' := s.(threads := s.threads[id := t'], views := s.views[id := v'], fastCount := fastCount);
    assert s.workers == s.workers[id := w];
    OwnStep(s, s', id, w, t', v');
  }

  lemma StepFacts(s: State, id: WorkerId)
    requires s.Inv() && id < |s.workers| && Stepping(s.threads[id], s.views[id])
    ensures
      var w, t, v := s.workers[id], s.threads[id], s.views[id];
      var c := Walked(t, v)[v.cur];
      && c in s.next && c in s.scheduleMs && c in s.fastCount
      && LoadFrom(s.next, w, t.prevp.value) == To(c)
      && s.next[c] == ElementAt(Walked(t, v), v.cur + 1)
      && (t.normalClients ==> Covers(s.scheduleMs, t.wakeupMs, v, v.cur))
  {
    var w, t, v := s.workers[id], s.threads[id], s.views[id];
    assert s.Good(id);
    var c := Walked(t, v)[v.cur];
    assert c in Walked(t, v);
    assert LinkOf(s.next, c, Null, Null) == ElementAt(Walked(t, v), v.cur + 1);
    if v.cur > 0 {
      var p := Walked(t, v)[v.cur - 1];
      assert p in Walked(t, v) && LinkOf(s.next, p, Null, Null) == ElementAt(Walked(t, v), v.cur);
    }
  }

  ghost function Min(a: nat, b: nat): nat {
    if a < b then a else b
  }

  /** Due within 2 ms and not rescheduled like that too often. */
  predicate Soon(scheduleMs: nat, timeMs: nat, fastCount: nat) {
    scheduleMs < timeMs + 2 && fastCount < 4
  }

  /** What worker_next_client does: the client at the cursor stays, or goes to the other list. */
  ghost function NextState(s: State, id: WorkerId): State
    requires s.Inv() && id < |s.workers| && Stepping(s.threads[id], s.views[id])
  {
    StepFacts(s, id);
    var w, t, v := s.workers[id], s.threads[id], s.views[id];
    var c := Walked(t, v)[v.cur];
    var soon := Soon(s.scheduleMs[c], w.timeMs, s.fastCount[c]);
    var wakeupMs := if soon then t.wakeupMs else Min(t.wakeupMs, s.scheduleMs[c]);
    var fastCount :=
      if !soon then s.fastCount[c := 0]
      else if t.normalClients then s.fastCount
      else s.fastCount[c := s.fastCount[c] + 1];
    if t.normalClients == soon then
      s.(next := MovedMemory(s.next, w, t, t.prevp.value, c),
         workers := s.workers[id := MovedWorker(s.next, w, t, t.prevp.value, c)],
         threads := s.threads[id := t.(wakeupMs := wakeupMs)], views := s.views[id := Moved(t, v)],
         fastCount := fastCount)
    else
      s.(threads := s.threads[id := Advanced(t, wakeupMs, c, s.next[c])],
         views := s.views[id := AdvancedView(v, s.next[c])], fastCount := fastCount)
  }

  ghost predicate SameSize(s: State, s': State) {
    |s'.workers| == |s.workers| && s'.next.Keys == s.next.Keys
  }

  lemma NextStep(s: State, id: WorkerId)
    requires s.Inv() && id < |s.workers| && Stepping(s.threads[id], s.views[id])
    ensures NextState(s, id).Inv() && SameSize(s, NextState(s, id))
  {
    hide WorkerOk;
    StepFacts(s, id);
    var w, t, v := s.workers[id], s.threads[id], s.views[id];
    var c := Walked(t, v)[v.cur];
    var soon := Soon(s.scheduleMs[c], w.timeMs, s.fastCount[c]);
    var wakeupMs := if soon then t.wakeupMs else Min(t.wakeupMs, s.scheduleMs[c]);
    var fastCount := NextState(s, id).fastCount;
    if t.normalClients == soon {
      MoveStep(s, id, wakeupMs, fastCount);
    } else {
      AdvanceStep(s, id, wakeupMs, fastCount);
    }
  }
}
