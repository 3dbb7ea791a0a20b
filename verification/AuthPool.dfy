/**
 The authentication handler pool of src/auth.c: a queue of requests, handlers that are
 started when needed and stop when there is nothing to do, and a reference count shared by
 the mount that owns the authenticator and the handlers that run. Every change is made
 with the authenticator's lock held, so that each locked section is one step.
 */
module AuthPool {
  import opened IntrusiveList
  import opened Wrappers

  datatype QueueName = AuthQueue

  /** A handler: its thread pointer is NULL, it waits for the lock, or it works on a request. */
  datatype Handler = Idle | Waiting | Processing(request: Node)

  datatype State = State(
    mem: Memory,               // auth_client.next
    list: List<QueueName>,     // head, tailp
    pendingCount: int,
    refcount: int,
    handles: seq<Handler>,     // as many as `handlers` says
    owned: bool,               // the mount still refers to the authenticator
    frees: nat,
    queue: seq<Node>,
    accepted: seq<Node>,       // requests that were queued, in order of arrival
    taken: seq<Node>,          // those that left the queue, in the order in which they did
    done: seq<Node>,
    rejected: seq<Node>)

  // -------------------------------------------------------------------- what always holds

  function Running(handles: seq<Handler>): nat {
    if handles == [] then 0 else (if handles[0].Idle? then 0 else 1) + Running(handles[1..])
  }

  /** A handler works on the request. */
  predicate InProcess(handles: seq<Handler>, c: Node) {
    exists i :: 0 <= i < |handles| && handles[i] == Processing(c)
  }

  ghost predicate QueueOk(s: State) {
    && Chain(s.mem, AuthQueue, s.list, s.queue, Null, Null)
    && s.pendingCount == |s.queue|
  }

  ghost predicate CountOk(s: State) {
    && 1 <= |s.handles| <= 100
    && s.refcount == (if s.owned then 1 else 0) + Running(s.handles)
    && s.frees == (if s.refcount == 0 then 1 else 0)
    && (s.queue != [] ==> Running(s.handles) > 0)
  }

  /** Requests leave in the order in which they came, and none is in two places. */
  ghost predicate OnceOk(s: State) {
    && s.accepted == s.taken + s.queue
    && Distinct(s.accepted + s.rejected)
    && (forall c :: c in s.taken <==> InProcess(s.handles, c) || c in s.done)
    && (forall c :: InProcess(s.handles, c) ==> c !in s.done)
    && (forall i, j :: 0 <= i < j < |s.handles| && s.handles[i].Processing? ==> s.handles[i] != s.handles[j])
    && Distinct(s.done)
  }

  ghost predicate PoolOk(s: State) {
    QueueOk(s) && CountOk(s) && OnceOk(s)
  }

  // -------------------------------------------------------------------- what each step does

  function FirstIdle(handles: seq<Handler>): (r: Option<nat>)
    ensures r == None <==> forall i :: 0 <= i < |handles| ==> !handles[i].Idle?
    ensures
      r != None ==>
        r.value < |handles| && handles[r.value].Idle? && forall i :: 0 <= i < r.value ==> !handles[i].Idle?
  {
    if handles == [] then None
    else if handles[0].Idle? then Some(0)
    else
      match FirstIdle(handles[1..])
      case None => None
      case Some(i) => Some(i + 1)
  }

  function Appended(s: State, c: Node): State {
    s.(mem := StoreNext(s.mem[c := Null], s.list.tailp, To(c)),
       list := StoreHead(s.list, s.list.tailp, To(c)).(tailp := NextOf(c)),
       pendingCount := s.pendingCount + 1, queue := s.queue + [c], accepted := s.accepted + [c])
  }

  /** queue_auth_client; `started` says whether a thread could be created if one was needed. */
  function Enqueued(s: State, c: Node, started: bool): State {
    var s1 := Appended(s, c);
    if s.refcount > |s.handles| then s1
    else
      match FirstIdle(s.handles)
      case None => s1
      case Some(i) =>
        if started then s1.(refcount := s.refcount + 1, handles := s.handles[i := Waiting])
        else
          s.(mem := StoreNext(s1.mem, s.list.tailp, Null),
             list := StoreHead(s1.list, s.list.tailp, Null).(tailp := s.list.tailp),
             rejected := s.rejected + [c])
  }

  /** A handler takes the request at the head of the queue. */
  function Taken(s: State, i: nat): State
    requires i < |s.handles| && s.list.head.To?
  {
    var c := s.list.head.node;
    var next := if c in s.mem then s.mem[c] else Null;
    s.(list := List(next, if next == Null then Head(AuthQueue) else s.list.tailp),
       pendingCount := s.pendingCount - 1, handles := s.handles[i := Processing(c)],
       queue := if s.queue == [] then [] else s.queue[1..], taken := s.taken + [c])
  }

  /** Outside the lock: the link is cleared, the request is processed and freed. */
  function Finished(s: State, i: nat): State
    requires i < |s.handles| && s.handles[i].Processing?
  {
    var c := s.handles[i].request;
    s.(mem := s.mem[c := Null], handles := s.handles[i := Waiting], done := s.done + [c])
  }

  /** auth_release */
  function Released(s: State): State {
    s.(refcount := s.refcount - 1, frees := if s.refcount == 1 then s.frees + 1 else s.frees)
  }

  /** A handler finds nothing to do: its thread pointer is cleared and its reference released. */
  function Stopped(s: State, i: nat): State
    requires i < |s.handles|
  {
    Released(s.(handles := s.handles[i := Idle]))
  }

  function Disowned(s: State): State {
    Released(s.(owned := false))
  }

  // -------------------------------------------------------------------- runs

  datatype Event = Enqueue(c: Node, started: bool) | Take(i: nat) | Finish(i: nat) | Stop(i: nat) | Disown

  /** A request can be queued only through the mount that owns the authenticator. */
  ghost predicate Enabled(s: State, e: Event) {
    match e
    case Enqueue(c, _) => s.owned && c !in s.accepted && c !in s.rejected
    case Take(i) => i < |s.handles| && s.handles[i].Waiting? && s.list.head != Null
    case Finish(i) => i < |s.handles| && s.handles[i].Processing?
    case Stop(i) => i < |s.handles| && s.handles[i].Waiting? && s.list.head == Null
    case Disown => s.owned
  }

  function Next(s: State, e: Event): State
    requires Enabled(s, e)
  {
    match e
    case Enqueue(c, started) => Enqueued(s, c, started)
    case Take(i) => Taken(s, i)
    case Finish(i) => Finished(s, i)
    case Stop(i) => Stopped(s, i)
    case Disown => Disowned(s)
  }

  ghost predicate Run(s: State, es: seq<Event>, t: State)
    decreases |es|
  {
    if es == [] then t == s else Enabled(s, es[0]) && Run(Next(s, es[0]), es[1..], t)
  }

  // -------------------------------------------------------------------- counting handlers

  lemma {:induction false} RunningSet(handles: seq<Handler>, i: nat, h: Handler)
    requires i < |handles|
    ensures Running(handles[i := h]) == Running(handles) - (if handles[i].Idle? then 0 else 1)
        + (if h.Idle? then 0 else 1)
  {
    if i > 0 {
      RunningSet(handles[1..], i - 1, h);
      assert handles[i := h][1..] == handles[1..][i - 1 := h];
    } else {
      assert handles[i := h][1..] == handles[1..];
    }
  }

  lemma InProcessSet(handles: seq<Handler>, i: nat, h: Handler)
    requires i < |handles|
    requires forall i, j :: 0 <= i < j < |handles| && handles[i].Processing? ==> handles[i] != handles[j]
    ensures
      forall c :: InProcess(handles[i := h], c) <==>
        h == Processing(c) || (InProcess(handles, c) && handles[i] != Processing(c))
  {
    forall c
      ensures
        InProcess(handles[i := h], c)
        <==> h == Processing(c) || (InProcess(handles, c) && handles[i] != Processing(c))
    {
      var after := handles[i := h];
      if InProcess(after, c) {
        var k :| 0 <= k < |after| && after[k] == Processing(c);
        assert k != i ==> handles[k] == Processing(c) && handles[i] != Processing(c);
      }
      if h == Processing(c) {
        assert after[i] == Processing(c);
      }
      if InProcess(handles, c) && handles[i] != Processing(c) {
        var k :| 0 <= k < |handles| && handles[k] == Processing(c);
        assert after[k] == Processing(c);
      }
    }
  }

  lemma {:induction false} RunningBound(handles: seq<Handler>)
    ensures Running(handles) <= |handles|
    ensures Running(handles) == |handles| <==> forall i :: 0 <= i < |handles| ==> !handles[i].Idle?
    ensures Running(handles) == 0 <==> forall i :: 0 <= i < |handles| ==> handles[i].Idle?
  {
    if handles != [] {
      RunningBound(handles[1..]);
      assert forall i :: 0 < i < |handles| ==> handles[i] == handles[1..][i - 1];
    }
  }

  // -------------------------------------------------------------------- every step keeps what always holds

  lemma QueueHead(s: State)
    requires QueueOk(s)
    ensures s.list.head == Null <==> s.queue == []
    ensures s.queue != [] ==> s.list.head == To(s.queue[0])
  {
  }

  lemma InQueue(s: State, c: Node)
    requires OnceOk(s)
    ensures c in s.queue ==> c in s.accepted
  {
  }

  lemma AppendedQueue(s: State, c: Node)
    requires QueueOk(s) && c !in s.queue
    ensures QueueOk(Appended(s, c))
  {
    assert c in s.mem[c := Null] && s.mem[c := Null][c := Null] == s.mem[c := Null];
    ChainFrame(s.mem, s.mem[c := Null], AuthQueue, s.list, s.queue, Null, Null);
    ChainAppend(s.mem[c := Null], AuthQueue, s.list, s.queue, c);
  }

  /** Taking back what was just appended leaves the queue as it was. */
  lemma QueueRestored(s: State, c: Node)
    requires QueueOk(s) && c !in s.queue
    ensures
      var s1 := Appended(s, c);
      && StoreHead(s1.list, s.list.tailp, Null).(tailp := s.list.tailp) == s.list
      && var mem := StoreNext(s1.mem, s.list.tailp, Null);
      && Chain(mem, AuthQueue, s.list, s.queue, Null, Null)
      && (forall d :: d in s.mem && d != c ==> d in mem && mem[d] == s.mem[d])
  {
    var q := s.queue;
    var mem := StoreNext(Appended(s, c).mem, s.list.tailp, Null);
    if q != [] {
      assert LinkOf(s.mem, q[|q| - 1], Null, Null) == ElementAt(q, |q|);
      assert q[|q| - 1] in q;
    }
    ChainFrame(s.mem, mem, AuthQueue, s.list, q, Null, Null);
  }

  lemma DistinctSnoc(s: seq<Node>, t: seq<Node>, c: Node)
    requires Distinct(s + t) && c !in s && c !in t
    ensures Distinct(s + [c] + t) && Distinct(s + (t + [c]))
  {
    var u := s + [c] + t;
    var was := (i: nat) => if i < |s| then i else i - 1;
    forall i, j | 0 <= i < j < |u|
      ensures u[i] != u[j]
    {
      if i != |s| && j != |s| {
        assert (s + t)[was(i)] == u[i] && (s + t)[was(j)] == u[j];
      }
    }
    var v := s + (t + [c]);
    forall i, j | 0 <= i < j < |v|
      ensures v[i] != v[j]
    {
      assert v[i] == (s + t)[i];
      if j < |s + t| {
        assert v[j] == (s + t)[j];
      }
    }
  }

  lemma EnqueuedOnce(s: State, c: Node, started: bool)
    requires OnceOk(s) && Enabled(s, Enqueue(c, started))
    ensures OnceOk(Enqueued(s, c, started))
  {
    DistinctSnoc(s.accepted, s.rejected, c);
    assert s.accepted + [c] == s.taken + (s.queue + [c]);
    match FirstIdle(s.handles)
    case None =>
    case Some(i) => InProcessSet(s.handles, i, Waiting);
  }

  lemma EnqueuedKeeps(s: State, c: Node, started: bool)
    requires PoolOk(s) && Enabled(s, Enqueue(c, started))
    ensures PoolOk(Enqueued(s, c, started))
  {
    EnqueuedOnce(s, c, started);
    InQueue(s, c);
    AppendedQueue(s, c);
    QueueRestored(s, c);
    RunningBound(s.handles);
    hide Chain, OnceOk, InProcess;
    match FirstIdle(s.handles)
    case None =>
    case Some(i) => RunningSet(s.handles, i, Waiting);
  }

  /** What has left the queue is no longer in it. */
  lemma NotQueued(s: State, c: Node)
    requires OnceOk(s) && c in s.taken
    ensures c !in s.queue
  {
    var k :| 0 <= k < |s.taken| && s.taken[k] == c;
    forall j | 0 <= j < |s.queue|
      ensures s.queue[j] != c
    {
      var all := s.accepted + s.rejected;
      assert all[k] == c && all[|s.taken| + j] == s.queue[j];
    }
  }

  lemma TakenOnce(s: State, i: nat)
    requires OnceOk(s) && i < |s.handles| && s.handles[i].Waiting? && s.queue != [] && s.list.head == To(s.queue[0])
    ensures OnceOk(Taken(s, i))
  {
    var c := s.queue[0];
    if c in s.taken {
      NotQueued(s, c);
    }
    InProcessSet(s.handles, i, Processing(c));
    assert forall j :: 0 <= j < |s.handles| && s.handles[j].Processing? ==> InProcess(s.handles, s.handles[j].request);
    assert s.queue == [c] + s.queue[1..];
    assert s.taken + s.queue == s.taken + [c] + s.queue[1..];
  }

  lemma QueueAdvanced(s: State)
    requires QueueOk(s) && s.queue != []
    ensures
      var c := s.queue[0];
      && c in s.mem
      && Chain(s.mem, AuthQueue, List(s.mem[c], if s.mem[c] == Null then Head(AuthQueue) else s.list.tailp),
               s.queue[1..], Null, Null)
  {
    var q := s.queue;
    assert LinkOf(s.mem, q[0], Null, Null) == ElementAt(q, 1);
    forall i | 0 <= i < |q[1..]|
      ensures LinkOf(s.mem, q[1..][i], Null, Null) == ElementAt(q[1..], i + 1)
    {
      assert LinkOf(s.mem, q[i + 1], Null, Null) == ElementAt(q, i + 2);
    }
  }

  lemma TakenKeeps(s: State, i: nat)
    requires PoolOk(s) && Enabled(s, Take(i))
    ensures PoolOk(Taken(s, i)) && Taken(s, i).taken == s.taken + [s.queue[0]]
  {
    QueueHead(s);
    TakenOnce(s, i);
    QueueAdvanced(s);
    hide Chain, OnceOk;
    RunningSet(s.handles, i, Processing(s.queue[0]));
  }

  lemma FinishedOnce(s: State, i: nat)
    requires OnceOk(s) && i < |s.handles| && s.handles[i].Processing?
    ensures OnceOk(Finished(s, i))
  {
    InProcessSet(s.handles, i, Waiting);
    assert InProcess(s.handles, s.handles[i].request);
  }

  lemma FinishedKeeps(s: State, i: nat)
    requires PoolOk(s) && Enabled(s, Finish(i))
    ensures PoolOk(Finished(s, i))
  {
    var c := s.handles[i].request;
    RunningSet(s.handles, i, Waiting);
    assert InProcess(s.handles, c);
    NotQueued(s, c);
    FinishedOnce(s, i);
    hide OnceOk;
    ChainFrame(s.mem, s.mem[c := Null], AuthQueue, s.list, s.queue, Null, Null);
  }

  lemma StoppedOnce(s: State, i: nat)
    requires OnceOk(s) && i < |s.handles| && s.handles[i].Waiting?
    ensures OnceOk(Stopped(s, i))
  {
    InProcessSet(s.handles, i, Idle);
  }

  lemma StoppedKeeps(s: State, i: nat)
    requires PoolOk(s) && Enabled(s, Stop(i))
    ensures PoolOk(Stopped(s, i))
  {
    QueueHead(s);
    RunningSet(s.handles, i, Idle);
    StoppedOnce(s, i);
    hide OnceOk, Chain;
  }

  lemma DisownedKeeps(s: State)
    requires PoolOk(s) && Enabled(s, Disown)
    ensures PoolOk(Disowned(s))
  {
  }

  lemma StepKeeps(s: State, e: Event)
    requires PoolOk(s) && Enabled(s, e)
    ensures PoolOk(Next(s, e))
  {
    hide PoolOk, Enqueued, Taken, Finished, Stopped, Disowned;
    match e
    case Enqueue(c, started) => EnqueuedKeeps(s, c, started);
    case Take(i) => TakenKeeps(s, i);
    case Finish(i) => FinishedKeeps(s, i);
    case Stop(i) => StoppedKeeps(s, i);
    case Disown => DisownedKeeps(s);
  }

  /** Over every run, whatever the interleaving. */
  lemma {:induction false} RunKeeps(s: State, es: seq<Event>, t: State)
    requires PoolOk(s) && Run(s, es, t)
    ensures PoolOk(t)
    decreases |es|
  {
    if es != [] {
      StepKeeps(s, es[0]);
      RunKeeps(Next(s, es[0]), es[1..], t);
    }
  }

  // -------------------------------------------------------------------- what follows for requests and the pool

  /** A request that was ever made is in exactly one of four places. */
  lemma ExactlyOnePlace(s: State, c: Node)
    requires PoolOk(s) && (c in s.accepted || c in s.rejected)
    ensures c in s.queue <==> !InProcess(s.handles, c) && c !in s.done && c !in s.rejected
    ensures InProcess(s.handles, c) ==> c !in s.done && c !in s.rejected
    ensures c in s.done ==> c !in s.rejected
  {
    if c in s.taken {
      NotQueued(s, c);
    }
    if c in s.accepted {
      var i :| 0 <= i < |s.accepted| && s.accepted[i] == c;
      var all := s.accepted + s.rejected;
      forall j | 0 <= j < |s.rejected|
        ensures s.rejected[j] != c
      {
        assert all[i] == c && all[|s.accepted| + j] == s.rejected[j];
      }
    }
  }

  lemma StepIsFifo(s: State, e: Event)
    requires PoolOk(s) && Enabled(s, e)
    ensures s.accepted <= Next(s, e).accepted && s.taken <= Next(s, e).taken
    ensures s.done <= Next(s, e).done && s.rejected <= Next(s, e).rejected
  {
  }

  /** Over every run requests leave the queue in the order in which they were accepted, and stay where they end. */
  lemma {:induction false} RunIsFifo(s: State, es: seq<Event>, t: State)
    requires PoolOk(s) && Run(s, es, t)
    ensures s.accepted <= t.accepted && s.taken <= t.taken && s.done <= t.done && s.rejected <= t.rejected
    ensures t.taken <= t.accepted && |t.taken| + |t.queue| == |t.accepted|
    decreases |es|
  {
    if es != [] {
      StepKeeps(s, es[0]);
      StepIsFifo(s, es[0]);
      hide PoolOk, Enabled, Next;
      RunIsFifo(Next(s, es[0]), es[1..], t);
    }
  }

  /** A handler is started exactly if one is idle; otherwise all of them run. */
  lemma PoolBound(s: State)
    requires PoolOk(s)
    ensures s.refcount <= |s.handles| + 1
    ensures s.owned ==> (s.refcount > |s.handles| <==> FirstIdle(s.handles) == None)
    ensures s.queue != [] ==> exists i :: 0 <= i < |s.handles| && !s.handles[i].Idle?
  {
    RunningBound(s.handles);
  }

  /** When a thread cannot be started the request is rejected, and all else is as it was. */
  lemma FailedStart(s: State, c: Node)
    requires PoolOk(s) && Enabled(s, Enqueue(c, false)) && FirstIdle(s.handles) != None
    ensures
      var t := Enqueued(s, c, false);
      && t == s.(mem := t.mem, rejected := s.rejected + [c])
      && forall d :: d in s.mem && d != c ==> d in t.mem && t.mem[d] == s.mem[d]
  {
    PoolBound(s);
    InQueue(s, c);
    QueueRestored(s, c);
  }

  /**
   A request that comes while a handler is idle starts the first of those, or is refused and
   leaves all as it was; when all run it waits for one of them.
   */
  lemma EnqueueStarts(s: State, c: Node, started: bool)
    requires PoolOk(s) && Enabled(s, Enqueue(c, started))
    ensures
      var t, running, all := Enqueued(s, c, started), Running(s.handles), |s.handles|;
      && |t.handles| == all
      && (running < all && !started ==>
            t.handles == s.handles && t.queue == s.queue && t.accepted == s.accepted
            && t.rejected == s.rejected + [c])
      && (running == all || started ==>
            && t.queue == s.queue + [c] && t.accepted == s.accepted + [c] && t.rejected == s.rejected
            && Running(t.handles) == if running < all then running + 1 else all)
      && (forall i :: 0 <= i < all && !s.handles[i].Idle? ==> t.handles[i] == s.handles[i])
      && (running < all && started ==>
            exists i :: 0 <= i < all && s.handles[i].Idle? && t.handles[i] == Waiting
                        && forall k :: 0 <= k < i ==> !s.handles[k].Idle?)
  {
    hide QueueOk, OnceOk;
    RunningBound(s.handles);
    PoolBound(s);
    var first := FirstIdle(s.handles);
    if first != None {
      RunningSet(s.handles, first.value, Waiting);
      assert s.handles[first.value].Idle?;
    }
  }

  function Enqueues(es: seq<Event>): nat {
    if es == [] then 0 else (if es[0].Enqueue? then 1 else 0) + Enqueues(es[1..])
  }

  /** No handler stops for want of work, and every thread that is needed can be created. */
  predicate OnlyStarts(e: Event) {
    !e.Stop? && (e.Enqueue? ==> e.started)
  }

  lemma StepStarts(s: State, e: Event)
    requires PoolOk(s) && Enabled(s, e) && OnlyStarts(e)
    ensures |Next(s, e).handles| == |s.handles|
    ensures
      Running(Next(s, e).handles)
      == if e.Enqueue? && Running(s.handles) < |s.handles| then Running(s.handles) + 1 else Running(s.handles)
  {
    RunningBound(s.handles);
    match e
    case Enqueue(c, started) => EnqueueStarts(s, c, started);
    case Take(i) => RunningSet(s.handles, i, Processing(s.list.head.node));
    case Finish(i) => RunningSet(s.handles, i, Waiting);
    case Disown =>
  }

  /** One more handler for each request, up to as many as there are, whatever else happens in between. */
  lemma {:induction false} RunStarts(s: State, es: seq<Event>, t: State)
    requires PoolOk(s) && Run(s, es, t) && forall i :: 0 <= i < |es| ==> OnlyStarts(es[i])
    ensures |t.handles| == |s.handles|
    ensures
      Running(t.handles)
      == if Running(s.handles) + Enqueues(es) < |s.handles| then Running(s.handles) + Enqueues(es) else |s.handles|
    decreases |es|
  {
    RunningBound(s.handles);
    if es != [] {
      assert OnlyStarts(es[0]);
      StepKeeps(s, es[0]);
      StepStarts(s, es[0]);
      hide PoolOk, Enabled, Next, OnlyStarts;
      RunStarts(Next(s, es[0]), es[1..], t);
    }
  }

  /** Once the authenticator is freed nothing is queued or runs, and no step can follow. */
  lemma NothingAfterFree(s: State, e: Event)
    requires PoolOk(s) && s.frees > 0
    ensures s.frees == 1 && s.queue == [] && !s.owned && !Enabled(s, e)
    ensures forall i :: 0 <= i < |s.handles| ==> s.handles[i].Idle?
  {
    RunningBound(s.handles);
  }

  // -------------------------------------------------------------------- draining

  function Phase(h: Handler): nat {
    match h case Idle => 0 case Waiting => 1 case Processing(_) => 2
  }

  function Phases(handles: seq<Handler>): nat {
    if handles == [] then 0 else Phase(handles[0]) + Phases(handles[1..])
  }

  /** The steps that are left, at most, once nothing more is queued. */
  function StepsLeft(s: State): nat {
    2 * |s.queue| + Phases(s.handles)
  }

  lemma {:induction false} PhasesSet(handles: seq<Handler>, i: nat, h: Handler)
    requires i < |handles|
    ensures Phases(handles[i := h]) == Phases(handles) - Phase(handles[i]) + Phase(h)
  {
    if i > 0 {
      PhasesSet(handles[1..], i - 1, h);
      assert handles[i := h][1..] == handles[1..][i - 1 := h];
    } else {
      assert handles[i := h][1..] == handles[1..];
    }
  }

  lemma StepDrains(s: State, e: Event)
    requires PoolOk(s) && Enabled(s, e) && !s.owned
    ensures StepsLeft(Next(s, e)) < StepsLeft(s) && !Next(s, e).owned
  {
    hide Chain, OnceOk;
    match e
    case Take(i) =>
      QueueHead(s);
      PhasesSet(s.handles, i, Processing(s.queue[0]));
    case Finish(i) => PhasesSet(s.handles, i, Waiting);
    case Stop(i) => PhasesSet(s.handles, i, Idle);
  }

  /** Until the authenticator is freed, some handler can go on. */
  lemma CanGoOn(s: State) returns (e: Event)
    requires PoolOk(s) && !s.owned && s.frees == 0
    ensures Enabled(s, e)
  {
    RunningBound(s.handles);
    var i :| 0 <= i < |s.handles| && !s.handles[i].Idle?;
    if s.handles[i].Processing? {
      e := Finish(i);
    } else if s.list.head == Null {
      e := Stop(i);
    } else {
      e := Take(i);
    }
  }

  /**
   From the moment the owner has let go, a run has at most `StepsLeft` steps, and one that
   cannot be continued has freed the authenticator, once, with every accepted request done.
   */
  lemma {:induction false} Drains(s: State, es: seq<Event>, t: State)
    requires PoolOk(s) && !s.owned && Run(s, es, t)
    ensures |es| + StepsLeft(t) <= StepsLeft(s)
    ensures (forall e :: !Enabled(t, e)) <==> t.frees == 1
    ensures t.frees == 1 ==> t.queue == [] && t.taken == t.accepted && forall c :: c in t.accepted ==> c in t.done
    decreases |es|
  {
    if es != [] {
      StepKeeps(s, es[0]);
      StepDrains(s, es[0]);
      Drains(Next(s, es[0]), es[1..], t);
    } else if s.frees == 0 {
      var e := CanGoOn(s);
    } else {
      forall e
        ensures !Enabled(s, e)
      {
        NothingAfterFree(s, e);
      }
      NothingAfterFree(s, Disown);
    }
  }

  // -------------------------------------------------------------------- the code

  /** The number of handlers for a configured value. */
  function HandlerCount(configured: int): nat {
    if configured < 1 then 3 else if configured > 100 then 100 else configured
  }

  function Initial(n: nat): State {
    State(map[], List(Null, Head(AuthQueue)), 0, 1, seq(n, _ => Idle), true, 0, [], [], [], [], [])
  }

  lemma {:induction false} NoneRunning(n: nat)
    ensures Running(seq(n, _ => Idle)) == 0
  {
    RunningBound(seq(n, _ => Idle));
  }

  /** A pool has the configured number of handlers, up to 100, or 3 if none is given. */
  lemma InitialOk(configured: int)
    ensures PoolOk(Initial(HandlerCount(configured)))
    ensures
      var n := |Initial(HandlerCount(configured)).handles|;
      && (1 <= configured <= 100 ==> n == configured) && (configured < 1 ==> n == 3) && (configured > 100 ==> n == 100)
  {
    NoneRunning(HandlerCount(configured));
  }

  class Auth {
    var next: Memory              // the links of the queued requests
    var list: List<QueueName>     // head, tailp
    var pendingCount: int
    var refcount: int
    const handles: array<Handler>

    ghost var owned: bool
    ghost var frees: nat
    ghost var queue: seq<Node>
    ghost var accepted: seq<Node>
    ghost var taken: seq<Node>
    ghost var done: seq<Node>
    ghost var rejected: seq<Node>

    ghost function Now(): State
      reads this, handles
    {
      State(next, list, pendingCount, refcount, handles[..], owned, frees, queue, accepted, taken, done, rejected)
    }

    /** auth_get_authenticator */
    constructor (configured: int)
      ensures Now() == Initial(HandlerCount(configured)) && PoolOk(Now()) && fresh(handles)
    {
      next, list := map[], List(Null, Head(AuthQueue));
      pendingCount, refcount := 0, 1;
      handles := new Handler[HandlerCount(configured)](_ => Idle);
      owned, frees, queue, accepted, taken, done, rejected := true, 0, [], [], [], [], [];
      new;
      assert handles[..] == Initial(HandlerCount(configured)).handles;
      InitialOk(configured);
    }

    /** The first handler whose thread pointer is NULL. */
    method FindIdle() returns (i: nat)
      ensures if FirstIdle(handles[..]) == None then i == handles.Length else Some(i) == FirstIdle(handles[..])
    {
      i := 0;
      while i < handles.Length && handles[i] != Idle
        invariant i <= handles.Length && forall k :: 0 <= k < i ==> handles[k] != Idle
      {
        i := i + 1;
      }
      var first := FirstIdle(handles[..]);
    }

    method Append(c: Node)
      modifies this`next, this`list, this`pendingCount, this`queue, this`accepted
      ensures Now() == Appended(old(Now()), c)
    {
      next := next[c := Null];
      next, list := StoreNext(next, list.tailp, To(c)), StoreHead(list, list.tailp, To(c)).(tailp := NextOf(c));
      pendingCount := pendingCount + 1;
      queue, accepted := queue + [c], accepted + [c];
    }

    /** What was appended last is taken back. */
    method TakeBack(c: Node, oldTail: Link<QueueName>, ghost before: State)
      requires Now() == Appended(before, c).(refcount := refcount)
      modifies this`next, this`list, this`pendingCount, this`queue, this`accepted, this`rejected
      ensures list == StoreHead(old(list), oldTail, Null).(tailp := oldTail)
      ensures next == StoreNext(old(next), oldTail, Null)
      ensures pendingCount == before.pendingCount && queue == before.queue && accepted == before.accepted
      ensures rejected == before.rejected + [c]
    {
      list := list.(tailp := oldTail);
      next, list := StoreNext(next, oldTail, Null), StoreHead(list, oldTail, Null);
      pendingCount := pendingCount - 1;
      queue, accepted, rejected := before.queue, before.accepted, rejected + [c];
    }

    /** The locked part of queue_auth_client; `started` is the outcome of thread_create, if it is called. */
    method QueueAuthClient(c: Node, started: bool) returns (failed: bool)
      requires PoolOk(Now()) && Enabled(Now(), Enqueue(c, started))
      modifies this, handles
      ensures Now() == Enqueued(old(Now()), c, started) && PoolOk(Now())
      ensures failed <==> !started && FirstIdle(old(handles[..])) != None
      ensures !failed ==> queue == old(queue) + [c] && pendingCount == old(pendingCount) + 1
      ensures
        var running := old(Running(handles[..]));
        Running(handles[..]) == if running < handles.Length && started then running + 1 else running
    {
      hide PoolOk, StoreNext, StoreHead, Running, FirstIdle;
      ghost var before := Now();
      StepKeeps(before, Enqueue(c, started));
      PoolBound(before);
      EnqueueStarts(before, c, started);
      RunningBound(before.handles);
      failed := false;
      var oldTail := list.tailp;
      Append(c);
      if !(refcount > handles.Length) {
        var i := FindIdle();
        if i < handles.Length {
          refcount := refcount + 1;
          if started {
            handles[i] := Waiting;
          } else {
            TakeBack(c, oldTail, before);
            refcount := refcount - 1;
            failed := true;
          }
        }
      }
    }

    method AuthRelease()
      modifies this`refcount, this`frees
      ensures Now() == Released(old(Now()))
    {
      refcount := refcount - 1;
      if refcount == 0 {
        frees := frees + 1;
      }
    }

    /** One turn of auth_run_thread for the handler at `i`, up to where it lets go of the lock. */
    method RunThread(i: nat) returns (request: Ptr)
      requires PoolOk(Now()) && i < handles.Length && handles[i] == Waiting
      modifies this, handles
      ensures PoolOk(Now()) && request == old(list.head)
      ensures Now() == if old(list.head) != Null then Taken(old(Now()), i) else Stopped(old(Now()), i)
    {
      hide PoolOk;
      StepKeeps(Now(), if list.head != Null then Take(i) else Stop(i));
      request := list.head;
      if request != Null {
        var authUser := request.node;
        list := list.(head := if authUser in next then next[authUser] else Null);
        if list.head == Null {
          list := list.(tailp := Head(AuthQueue));
        }
        pendingCount := pendingCount - 1;
        handles[i] := Processing(authUser);
        queue, taken := if queue == [] then [] else queue[1..], taken + [authUser];
      } else {
        handles[i] := Idle;
        AuthRelease();
      }
    }

    /** What follows outside the lock: the request is processed and freed. */
    method ProcessRequest(i: nat)
      requires PoolOk(Now()) && i < handles.Length && handles[i].Processing?
      modifies this, handles
      ensures Now() == Finished(old(Now()), i) && PoolOk(Now())
    {
      hide PoolOk;
      StepKeeps(Now(), Finish(i));
      var authUser := handles[i].request;
      next := next[authUser := Null];
      done := done + [authUser];
      handles[i] := Waiting;
    }

    /** The mount lets go of the authenticator. */
    method Disown()
      requires PoolOk(Now()) && owned
      modifies this
      ensures Now() == Disowned(old(Now())) && PoolOk(Now())
    {
      hide PoolOk;
      StepKeeps(Now(), Event.Disown);
      owned := false;
      AuthRelease();
    }
  }
}
