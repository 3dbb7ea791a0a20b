/**
 The pipe that a worker is woken through: whoever delivers a client writes a byte after
 unlocking, and a worker in its timed wait adopts what is pending once it has read one.
 */
module WorkerWakeups {
  import opened IntrusiveList
  import opened Wrappers
  import opened Workers
  import opened WorkerPicking
  import opened WorkerTurns
  import opened WorkerRuns

  /** For each worker the bytes in its pipe, and the threads that have delivered a client and not written yet. */
  datatype Server = Server(s: State, pipe: seq<nat>, owed: seq<nat>)

  datatype Move =
    | Act(e: Event)
    | Write(id: WorkerId, full: bool)  // worker_wakeup by one of those threads; a full pipe takes nothing
    | Nudge(id: WorkerId)              // worker_wakeup by any other thread

  const READ: nat := 150

  /** A client that is pending has been announced to its worker, or is about to be. */
  ghost predicate Announced(v: Server) {
    && v.s.Inv() && |v.pipe| == |v.owed| == |v.s.workers|
    && forall id :: 0 <= id < |v.s.workers| && v.s.views[id].pending != [] ==> v.pipe[id] + v.owed[id] > 0
  }

  ghost predicate Allowed(v: Server, m: Move)
    requires Announced(v)
  {
    match m
    case Act(e) => Enabled(v.s, e) && (e.Wake? && e.woken ==> v.pipe[e.id] > 0)
    case Write(id, full) => id < |v.owed| && v.owed[id] > 0 && (full ==> v.pipe[id] > 0)
    case Nudge(id) => id < |v.pipe|
  }

  /** The wait ends by a byte in the pipe if there is one, and otherwise by its timeout. */
  ghost predicate SeesPipe(v: Server, m: Move)
    requires Announced(v) && Allowed(v, m)
  {
    m.Act? && m.e.Wake? ==> (m.e.woken <==> v.pipe[m.e.id] > 0)
  }

  function More(ns: seq<nat>, id: nat): seq<nat>
    requires id < |ns|
  {
    ns[id := ns[id] + 1]
  }

  function Less(ns: seq<nat>, id: nat, n: nat): seq<nat>
    requires id < |ns|
  {
    ns[id := if ns[id] > n then ns[id] - n else 0]
  }

  ghost function After(v: Server, m: Move): Server
    requires Announced(v) && Allowed(v, m)
  {
    match m
    case Act(e) =>
      var s := Step(v.s, e);
      if e.Deliver? || e.HandOff? then Server(s, v.pipe, More(v.owed, e.dest))
      else if e.Wake? && e.woken then Server(s, Less(v.pipe, e.id, READ), v.owed)
      else v.(s := s)
    case Write(id, full) => v.(pipe := if full then v.pipe else More(v.pipe, id), owed := Less(v.owed, id, 1))
    case Nudge(id) => v.(pipe := More(v.pipe, id))
  }

  /**
   Bytes in the pipe and bytes owed: a delivery owes one, the deliverer writes it unless the
   pipe is full, any other thread may add one, and a wake-up reads up to 150.
   */
  lemma PipeBytes(v: Server, m: Move, id: WorkerId)
    requires Announced(v) && Allowed(v, m) && id < |v.pipe|
    ensures |After(v, m).pipe| == |v.pipe| == |After(v, m).owed|
    ensures
      var w := After(v, m);
      match m
      case Write(j, full) =>
        && w.owed[id] == v.owed[id] - (if j == id then 1 else 0)
        && w.pipe[id] == v.pipe[id] + (if j == id && !full then 1 else 0)
      case Nudge(j) => w.owed[id] == v.owed[id] && w.pipe[id] == v.pipe[id] + (if j == id then 1 else 0)
      case Act(e) =>
        && w.owed[id] == v.owed[id] + (if (e.Deliver? || e.HandOff?) && e.dest == id then 1 else 0)
        && if e.Wake? && e.woken && e.id == id then
             w.pipe[id] == (if v.pipe[id] <= 150 then 0 else v.pipe[id] - 150) < v.pipe[id]
           else w.pipe[id] == v.pipe[id]
  {
    hide Step;
  }

  // -------------------------------------------------------------------- what is pending

  lemma NextPending(s: State, id: WorkerId, j: nat)
    requires s.Inv() && id < |s.workers| && j < |s.workers| && Stepping(s.threads[id], s.views[id])
    ensures |NextState(s, id).views| == |s.views| && NextState(s, id).views[j].pending == s.views[j].pending
  {
    hide WorkerOk, MovedMemory, MovedWorker;
    StepFacts(s, id);
  }

  lemma {:induction false} ScanPending(s: State, id: WorkerId, client: Ptr, j: nat)
    requires Scanning(s, id, client) && j < |s.workers|
    ensures
      var s' := Scan(s, id, client).0;
      |s'.views| == |s.views| && s'.views[j].pending == s.views[j].pending
    decreases
      if s.threads[id].normalAfter then 1 else 0,
      if client == Null then 0 else |Walked(s.threads[id], s.views[id])| - s.views[id].cur
  {
    hide WorkerOk, MovedMemory, MovedWorker, NextState;
    match client
    case Null =>
      if s.threads[id].normalAfter {
        NormalFromStartStep(s, id);
        var s' := NormalFromStart(s, id);
        ScanPending(s', id, ElementAt(s'.views[id].normal, 0), j);
      }
    case To(c) =>
      FoundStep(s, id, c);
      if s.threads[id].normalClients && s.scheduleMs[c] >= s.threads[id].schedMs {
        ScanNext(s, id, c);
        NextPending(s, id, j);
        ScanPending(NextState(s, id), id, ElementAt(Walked(s.threads[id], s.views[id]), s.views[id].cur + 1), j);
      }
  }

  lemma PickPending(s: State, id: WorkerId, now: nat, j: nat)
    requires Picking(s, id, now) && j < |s.workers|
    ensures
      var s' := Pick(s, id, now).0;
      |s'.views| == |s.views| && s'.views[j].pending == s.views[j].pending
  {
    hide WorkerOk, Scan, State.Good, Scanning;
    if s.threads[id].maxRun > 0 {
      PickStart(s, id, now);
      var s' := Resynced(Rechecked(s, id, now), id);
      if s.threads[id].prevp != None {
        ScanPending(s', id, LoadFrom(s'.next, s'.workers[id], s.threads[id].prevp.value), j);
      }
    }
  }

  /** What is pending on a worker grows at its end by deliveries, and goes whole when the worker is woken. */
  ghost function PendingAfter(s: State, e: Event, j: nat): seq<Node>
    requires s.Inv() && Enabled(s, e) && j < |s.views|
  {
    var pending := s.views[j].pending;
    match e
    case Deliver(c, dest) => if dest == j then pending + [c] else pending
    case HandOff(id, dest) => if dest == j then pending + [Running(s, id)] else pending
    case Wake(id, woken) => if id == j && woken then [] else pending
    case _ => pending
  }

  lemma PendingStep(s: State, e: Event, j: nat)
    requires s.Inv() && Enabled(s, e) && j < |s.workers|
    ensures |Step(s, e).views| == |s.views| && Step(s, e).views[j].pending == PendingAfter(s, e, j)
    ensures e.Wake? && e.woken && e.id == j ==> Step(s, e).views[j].fast == s.views[j].fast + s.views[j].pending
  {
    hide WorkerOk, Pick, NextState;
    match e
    case PickNext(id, now) => PickPending(s, id, now, j);
    case Keep(id, sched) =>
      KeptStep(s, id, sched);
      NextPending(Kept(s, id, sched), id, j);
    case HandOff(id, dest) => LeftStep(s, id, Null);
    case _ =>
  }

  // -------------------------------------------------------------------- nobody is stranded

  lemma PendingCases(s: State, e: Event, j: nat)
    requires s.Inv() && Enabled(s, e) && j < |s.views|
    ensures PendingAfter(s, e, j) != [] ==>
      s.views[j].pending != [] || ((e.Deliver? || e.HandOff?) && e.dest == j)
    ensures e.Wake? && e.woken && e.id == j ==> PendingAfter(s, e, j) == []
    ensures (e.Deliver? || e.HandOff?) ==> e.dest < |s.workers|
    ensures forall c :: c in s.views[j].pending && !(e.Wake? && e.woken && e.id == j) ==> c in PendingAfter(s, e, j)
  {
  }

  /** Every step, of workers and of those that wake them, leaves every pending client announced. */
  lemma AfterKeeps(v: Server, m: Move)
    requires Announced(v) && Allowed(v, m)
    ensures Announced(After(v, m)) && |After(v, m).s.workers| == |v.s.workers|
  {
    hide WorkerOk, State.Good, Step, PendingAfter;
    if m.Act? {
      StepKeeps(v.s, m.e);
      forall id | 0 <= id < |v.s.workers|
        ensures
          var w := After(v, m);
          w.s.views[id].pending != [] ==> w.pipe[id] + w.owed[id] > 0
      {
        PendingStep(v.s, m.e, id);
        PendingCases(v.s, m.e, id);
      }
    }
  }

  ghost predicate Moves(v: Server, ms: seq<Move>, w: Server)
    decreases |ms|
  {
    Announced(v) && if ms == [] then w == v else Allowed(v, ms[0]) && Moves(After(v, ms[0]), ms[1..], w)
  }

  lemma {:induction false} MovesKeep(v: Server, ms: seq<Move>, w: Server)
    requires Moves(v, ms, w)
    ensures Announced(w) && |w.s.workers| == |v.s.workers|
    decreases |ms|
  {
    if ms != [] {
      AfterKeeps(v, ms[0]);
      MovesKeep(After(v, ms[0]), ms[1..], w);
    }
  }

  /** A server without clients. */
  lemma NobodyPending(workerCount: nat, clients: set<Node>)
    ensures Announced(Server(Initial(workerCount, clients), seq(workerCount, _ => 0), seq(workerCount, _ => 0)))
  {
    InitialOk(workerCount, clients);
  }

  /** A pending client stays pending until its worker is woken, which puts it on the fast list. */
  lemma PendingUntilWoken(v: Server, m: Move, id: WorkerId, c: Node)
    requires Announced(v) && Allowed(v, m) && id < |v.s.workers| && c in v.s.views[id].pending
    ensures id < |After(v, m).s.views|
    ensures
      if m.Act? && m.e.Wake? && m.e.woken && m.e.id == id then c in After(v, m).s.views[id].fast
      else c in After(v, m).s.views[id].pending
  {
    hide WorkerOk, State.Good, Step, PendingAfter;
    if m.Act? {
      PendingStep(v.s, m.e, id);
      PendingCases(v.s, m.e, id);
    }
  }

  /** Over any run in which its worker is not woken a pending client is where it was. */
  lemma {:induction false} StaysPending(v: Server, ms: seq<Move>, w: Server, id: WorkerId, c: Node)
    requires Moves(v, ms, w) && id < |v.s.workers| && c in v.s.views[id].pending
    requires forall i :: 0 <= i < |ms| ==> ms[i] != Act(Wake(id, true))
    ensures id < |w.s.views| && c in w.s.views[id].pending
    ensures id < |w.pipe| == |w.owed| && w.pipe[id] + w.owed[id] > 0
    decreases |ms|
  {
    if ms != [] {
      assert ms[0] != Act(Wake(id, true));
      AfterKeeps(v, ms[0]);
      PendingUntilWoken(v, ms[0], id, c);
      StaysPending(After(v, ms[0]), ms[1..], w, id, c);
    }
  }

  /**
   A worker in its timed wait with a client pending is not stranded: a deliverer has still
   to write, or the wait is over and, as it sees the pipe, ends by adopting the client.
   */
  lemma NotStranded(v: Server, id: WorkerId)
    requires Announced(v) && id < |v.s.workers| && v.s.threads[id].phase == Blocked && v.s.views[id].pending != []
    ensures Allowed(v, Write(id, false)) || Allowed(v, Act(Wake(id, true)))
    ensures
      v.owed[id] == 0 ==>
        forall woken :: Allowed(v, Act(Wake(id, woken))) && SeesPipe(v, Act(Wake(id, woken))) ==>
          && woken
          && After(v, Act(Wake(id, woken))).s.views[id].pending == []
          && After(v, Act(Wake(id, woken))).s.views[id].fast == v.s.views[id].fast + v.s.views[id].pending
  {
    hide WorkerOk, State.Good;
    if v.owed[id] == 0 {
      PendingStep(v.s, Wake(id, true), id);
    }
  }
}
