/** Runs of all workers together: every interleaving of their steps. */
module WorkerRuns {
  import opened IntrusiveList
  import opened Wrappers
  import opened Workers
  import opened WorkerPicking
  import opened WorkerTurns

  /** One step of one thread; every interleaving of the threads is a sequence of these. */
  datatype Event =
    | Deliver(c: Node, dest: WorkerId)         // client_add_worker, client_add_incoming
    | PickNext(id: WorkerId, now: nat)         // worker_pick_client, up to running the client
    | Keep(id: WorkerId, sched: nat)           // process returned 0
    | HandOff(id: WorkerId, dest: WorkerId)    // process called client_change_worker
    | Leave(id: WorkerId, link: Ptr)           // the client was released or is held elsewhere
    | Unlink(id: WorkerId)                     // worker_removed_client
    | Wait(id: WorkerId, now: nat)             // worker_wait, up to the timed wait
    | Wake(id: WorkerId, woken: bool)          // the rest of worker_wait
    | MakeDue(id: WorkerId, c: Node)           // source_listeners_wakeup and others set schedule_ms to 0

  ghost predicate Enabled(s: State, e: Event)
    requires s.Inv()
  {
    match e
    case Deliver(c, dest) => dest < |s.workers| && c in s.next && s.Outside(c)
    case PickNext(id, now) => Picking(s, id, now)
    case Keep(id, _) => Ran(s, id)
    case HandOff(id, dest) => Ran(s, id) && dest < |s.workers|
    case Leave(id, _) => Ran(s, id)
    case Unlink(id) => Leaving(s, id)
    case Wait(id, now) => id < |s.workers| && s.threads[id].phase == PassEnded && now >= s.workers[id].timeMs
    case Wake(id, _) => id < |s.workers| && s.threads[id].phase == Blocked
    case MakeDue(id, c) => id < |s.workers| && c in s.next && (s.Resident(id, c) || s.Outside(c))
  }

  ghost function Delivered(s: State, c: Node, dest: WorkerId): State
    requires dest < |s.workers| == |s.views|
  {
    var w, v := s.workers[dest], s.views[dest];
    s.(owner := s.owner[c := Some(dest)], next := AddedMemory(s.next, w, c), workers := s.workers[dest := Added(w, c)],
       views := s.views[dest := v.(pending := v.pending + [c])])
  }

  /** Another thread sets the client's schedule_ms to 0; the thread that runs it is not told. */
  ghost function MadeDue(s: State, id: WorkerId, c: Node): State
    requires id < |s.workers| == |s.threads| == |s.views|
  {
    var v := s.views[id];
    var prompted := if Passed(s.threads[id], v, c) then v.prompted + {c} else v.prompted;
    s.(scheduleMs := s.scheduleMs[c := 0], views := s.views[id := v.(prompted := prompted)])
  }

  lemma MadeDueTime(sched: map<Node, nat>, w: Worker, t: Thread, v: View, c: Node, prompted: set<Node>)
    requires TimeOk(sched, w, t, v)
    requires prompted == if Passed(t, v, c) then v.prompted + {c} else v.prompted
    ensures TimeOk(sched[c := 0], w, t, v.(prompted := prompted))
  {
    var v' := v.(prompted := prompted);
    assert forall d :: Passed(t, v', d) <==> Passed(t, v, d);
    assert forall i :: 0 <= i < PassedCount(t, v) && i < |v.normal| ==> Passed(t, v, v.normal[i]);
  }

  lemma MadeDueOk(next: Memory, sched: map<Node, nat>, w: Worker, t: Thread, v: View, c: Node, prompted: set<Node>)
    requires WorkerOk(next, sched, w, t, v)
    requires prompted == if Passed(t, v, c) then v.prompted + {c} else v.prompted
    ensures WorkerOk(next, sched[c := 0], w, t, v.(prompted := prompted))
  {
    hide TimeOk, Chain;
    MadeDueTime(sched, w, t, v, c, prompted);
  }

  /** Wherever the client is, and whatever its thread is doing, the invariant is kept and nobody moves. */
  lemma MadeDueStep(s: State, id: WorkerId, c: Node)
    requires s.Inv() && id < |s.workers| && c in s.next && (s.Resident(id, c) || s.Outside(c))
    ensures MadeDue(s, id, c).Inv() && SameResidents(s, MadeDue(s, id, c)) && SameSize(s, MadeDue(s, id, c))
  {
    hide WorkerOk;
    var s' := MadeDue(s, id, c);
    if s.Resident(id, c) {
      OneOwner(s, id, c);
    }
    forall j | 0 <= j < |s'.workers|
      ensures s'.Good(j)
    {
      assert s.Good(j);
      if j == id {
        MadeDueOk(s.next, s.scheduleMs, s.workers[id], s.threads[id], s.views[id], c, s'.views[id].prompted);
      } else {
        assert !s.Resident(j, c);
        WorkerFrame(s.next, s'.next, s.scheduleMs, s'.scheduleMs, s.workers[j], s.threads[j], s.views[j]);
      }
    }
  }

  /** An event that is not possible leaves the state alone. */
  ghost function Step(s: State, e: Event): State
    requires s.Inv()
  {
    if !Enabled(s, e) then s
    else
      match e
      case Deliver(c, dest) => Delivered(s, c, dest)
      case PickNext(id, now) => Pick(s, id, now).0
      case Keep(id, sched) => KeptStep(s, id, sched); NextState(Kept(s, id, sched), id)
      case HandOff(id, dest) => LeftStep(s, id, Null); Delivered(Left(s, id, Null), Running(s, id), dest)
      case Leave(id, link) => Left(s, id, link)
      case Unlink(id) => Unlinked(s, id)
      case Wait(id, now) => Turned(s, id, now)
      case Wake(id, woken) => Resumed(s, id, woken)
      case MakeDue(id, c) => MadeDue(s, id, c)
  }

  /** The client that the event takes from, or brings to, the workers. */
  ghost predicate Takes(s: State, e: Event, c: Node)
    requires s.Inv()
  {
    Enabled(s, e) && e.Leave? && Running(s, e.id) == c
  }

  ghost predicate Brings(s: State, e: Event, c: Node)
    requires s.Inv()
  {
    Enabled(s, e) && e.Deliver? && e.c == c
  }

  ghost predicate Moves(s: State, e: Event, c: Node)
    requires s.Inv()
  {
    Enabled(s, e) && e.HandOff? && Running(s, e.id) == c
  }

  lemma DeliveredStep(s: State, c: Node, dest: WorkerId)
    requires s.Inv() && dest < |s.workers| && c in s.next && s.Outside(c)
    ensures Delivered(s, c, dest).Inv() && SameSize(s, Delivered(s, c, dest))
    ensures forall j, d :: Delivered(s, c, dest).Resident(j, d) <==> s.Resident(j, d) || (j == dest && d == c)
  {
    hide WorkerOk, AddedMemory, Added;
    AddStep(s, dest, c);
    assert s.Good(dest);
  }

  /**
   Every step of every thread keeps the invariant, and a client is where it was before,
   unless the step itself delivers it, hands it over or takes it away.
   */
  lemma StepKeeps(s: State, e: Event)
    requires s.Inv()
    ensures Step(s, e).Inv() && SameSize(s, Step(s, e))
    ensures forall j, d :: !Takes(s, e, d) && !Brings(s, e, d) && !Moves(s, e, d) ==>
      (Step(s, e).Resident(j, d) <==> s.Resident(j, d))
    ensures forall j, d :: Takes(s, e, d) ==> !Step(s, e).Resident(j, d)
    ensures forall j, d :: Brings(s, e, d) || Moves(s, e, d) ==> (Step(s, e).Resident(j, d) <==> j == e.dest)
  {
    hide WorkerOk, Scan, Pick, Delivered, Left, Unlinked, Turned, Resumed, MadeDue, NextState, Kept, Owns;
    if Enabled(s, e) {
      match e
      case Deliver(c, dest) => DeliveredStep(s, c, dest);
      case PickNext(id, now) => PickKeeps(s, id, now);
      case Keep(id, sched) =>
        KeptStep(s, id, sched);
        NextStep(Kept(s, id, sched), id);
        NextResidents(Kept(s, id, sched), id);
      case HandOff(id, dest) =>
        LeftStep(s, id, Null);
        DeliveredStep(Left(s, id, Null), Running(s, id), dest);
      case Leave(id, link) => LeftStep(s, id, link);
      case Unlink(id) => UnlinkedStep(s, id);
      case Wait(id, now) => TurnedStep(s, id, now);
      case Wake(id, woken) => ResumedStep(s, id, woken);
      case MakeDue(id, c) => MadeDueStep(s, id, c);
    }
  }

  ghost function Run(s: State, es: seq<Event>): State
    requires s.Inv()
    decreases |es|
  {
    if es == [] then s else StepKeeps(s, es[0]); Run(Step(s, es[0]), es[1..])
  }

  /** Some step of the run takes the client away from the workers. */
  ghost predicate TakenIn(s: State, es: seq<Event>, c: Node)
    requires s.Inv()
    decreases |es|
  {
    es != [] && (Takes(s, es[0], c) || (StepKeeps(s, es[0]); TakenIn(Step(s, es[0]), es[1..], c)))
  }

  /** A step leaves a client outside exactly if it was and is not delivered, or if it is taken. */
  lemma StepOutside(s: State, e: Event, c: Node)
    requires s.Inv()
    ensures Step(s, e).Outside(c) <==> Takes(s, e, c) || (s.Outside(c) && !Brings(s, e, c))
  {
    hide WorkerOk, State.Good, Step;
    StepKeeps(s, e);
    var s' := Step(s, e);
    if Moves(s, e, c) {
      assert s'.Resident(e.dest, c);
      RunningOwned(s, e.id);
      assert s.Resident(e.id, c);
    } else if Brings(s, e, c) {
      assert s'.Resident(e.dest, c);
    } else if Takes(s, e, c) {
    } else {
      assert forall j :: s'.Resident(j, c) <==> s.Resident(j, c);
      assert forall j :: s.Resident(j, c) ==> 0 <= j < |s.threads|;
      assert forall j :: s'.Resident(j, c) ==> 0 <= j < |s'.threads|;
    }
  }

  /**
   In every interleaving, of any length, all lists keep their shape, and a client that is
   on a worker stays on one until it is taken away.
   */
  lemma {:induction false} RunKeeps(s: State, es: seq<Event>)
    requires s.Inv()
    ensures Run(s, es).Inv() && SameSize(s, Run(s, es))
    ensures forall c :: !s.Outside(c) && !TakenIn(s, es, c) ==> !Run(s, es).Outside(c)
    decreases |es|
  {
    hide State.Inv, Takes, Brings, Moves, Step;
    if es != [] {
      StepKeeps(s, es[0]);
      var s' := Step(s, es[0]);
      RunKeeps(s', es[1..]);
      forall c | !s.Outside(c) && !Takes(s, es[0], c)
        ensures !s'.Outside(c)
      {
        StepOutside(s, es[0], c);
      }
    }
  }

  /** The server before any client was accepted. */
  ghost function Initial(workerCount: nat, clients: set<Node>): State {
    State(
      map c | c in clients :: Null,
      map c | c in clients :: None,
      map c | c in clients :: 0,
      map c | c in clients :: 0,
      seq(workerCount,
        _ => Worker(List(Null, Head(Fast)), List(Null, Head(Normal)), List(Null, Head(Pending)), 0, 0, 0)),
      seq(workerCount, _ => Thread(None, 0, 0, MAX_RUN, 0, true, false, Null, Dispatch)),
      seq(workerCount, _ => View([], [], [], 0, 0, {})))
  }

  lemma InitialOk(workerCount: nat, clients: set<Node>)
    ensures Initial(workerCount, clients).Inv()
    ensures forall c :: Initial(workerCount, clients).Outside(c)
  {
  }

  ghost function Held(v: View, list: ListName): seq<Node> {
    match list case Fast => v.fast case Normal => v.normal case Pending => v.pending
  }

  /** Position `i` of a list of worker `id` holds `c`, and not only as a link to be removed. */
  ghost predicate At(s: State, c: Node, id: int, list: ListName, i: int) {
    && 0 <= id < |s.threads| && id < |s.views|
    && 0 <= i < |Held(s.views[id], list)| && Held(s.views[id], list)[i] == c
    && (list == Pending || To(c) != Hole(s.threads[id], s.views[id]))
  }

  lemma OnePosition(s: State, c: Node, id: nat, list: ListName, i: int, list': ListName, i': int)
    requires s.Inv() && At(s, c, id, list, i) && At(s, c, id, list', i')
    ensures list == list' && i == i'
  {
    assert s.Good(id);
    assert c in Held(s.views[id], list) && c in Held(s.views[id], list');
  }

  /** A client that is not outside is at exactly one position of one list of one worker. */
  lemma OnePlace(s: State, c: Node)
    requires s.Inv() && !s.Outside(c)
    ensures exists id, list, i :: At(s, c, id, list, i)
    ensures forall id, list, i, id', list', i' ::
      At(s, c, id, list, i) && At(s, c, id', list', i') ==> id == id' && list == list' && i == i'
  {
    hide WorkerOk;
    var id: nat :| id < |s.threads| && s.Resident(id, c);
    var v := s.views[id];
    if c in v.pending {
      var i :| 0 <= i < |v.pending| && v.pending[i] == c;
      assert At(s, c, id, Pending, i);
    } else if c in v.fast {
      var i :| 0 <= i < |v.fast| && v.fast[i] == c;
      assert At(s, c, id, Fast, i);
    } else {
      var i :| 0 <= i < |v.normal| && v.normal[i] == c;
      assert At(s, c, id, Normal, i);
    }
    forall id, list, i, id', list', i' | At(s, c, id, list, i) && At(s, c, id', list', i')
      ensures id == id' && list == list' && i == i'
    {
      assert s.Resident(id, c) && s.Resident(id', c);
      OneOwner(s, id, c);
      OnePosition(s, c, id, list, i, list', i');
    }
  }

  /**
   A hand-over puts the client at the end of the destination's pending list and nowhere
   else, although the list of the source still runs through it until the later Unlink.
   */
  lemma HandOffLands(s: State, id: WorkerId, dest: WorkerId)
    requires Ran(s, id) && dest < |s.workers|
    ensures
      var s', c := Step(s, HandOff(id, dest)), Running(s, id);
      && At(s', c, dest, Pending, |s.views[dest].pending|)
      && (forall j, list, i :: At(s', c, j, list, i) ==> j == dest && list == Pending && i == |s.views[dest].pending|)
      && Hole(s'.threads[id], s'.views[id]) == To(c)
  {
    var s', c := Step(s, HandOff(id, dest)), Running(s, id);
    assert s.Good(id);
    LeftStep(s, id, Null);
    assert s'.views[dest].pending == s.views[dest].pending + [c];
    StepKeeps(s, HandOff(id, dest));
    assert At(s', c, dest, Pending, |s.views[dest].pending|);
    assert s'.Resident(dest, c);
    OnePlace(s', c);
  }

  lemma NextRest(s: State, id: WorkerId)
    requires s.Inv() && id < |s.workers| && Stepping(s.threads[id], s.views[id]) && s.threads[id].normalClients
    ensures
      var v, s' := s.views[id], NextState(s, id);
      && s'.scheduleMs == s.scheduleMs
      && s'.threads[id].schedMs == s.threads[id].schedMs && s'.threads[id].normalClients
      && (v.cur + 1 < |v.normal| ==>
            && s'.views[id].cur <= |s'.views[id].normal|
            && s'.views[id].normal[s'.views[id].cur..] == v.normal[v.cur + 1..])
  {
    hide WorkerOk, MovedMemory, MovedWorker;
    StepFacts(s, id);
    var t, v, v' := s.threads[id], s.views[id], NextState(s, id).views[id];
    if v' == Moved(t, v) {
      assert v'.normal == v.normal[..v.cur] + v.normal[v.cur + 1..];
    }
  }

  /** The first client of the list that is due before `bound`. */
  ghost function FirstDue(scheduleMs: map<Node, nat>, rest: seq<Node>, bound: nat): Ptr {
    if rest == [] then Null
    else if rest[0] in scheduleMs && scheduleMs[rest[0]] < bound then To(rest[0])
    else FirstDue(scheduleMs, rest[1..], bound)
  }

  /** On the normal list the search takes the first client that is due, and skips none that is. */
  lemma {:induction false} ScanTakesFirstDue(s: State, id: WorkerId, client: Ptr)
    requires Scanning(s, id, client) && s.threads[id].normalClients && !s.threads[id].normalAfter
    ensures
      var rest := if client == Null then [] else s.views[id].normal[s.views[id].cur..];
      Scan(s, id, client).1 == FirstDue(s.scheduleMs, rest, s.threads[id].schedMs)
    decreases if client == Null then 0 else |Walked(s.threads[id], s.views[id])| - s.views[id].cur
  {
    hide WorkerOk, NextState;
    if client != Null {
      var c, t, v := client.node, s.threads[id], s.views[id];
      FoundStep(s, id, c);
      var rest := v.normal[v.cur..];
      assert rest[0] == c && rest[1..] == v.normal[v.cur + 1..];
      if s.scheduleMs[c] >= t.schedMs {
        ScanNext(s, id, c);
        NextRest(s, id);
        ScanTakesFirstDue(NextState(s, id), id, ElementAt(v.normal, v.cur + 1));
      }
    }
  }
}
