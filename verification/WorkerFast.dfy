/** The fast list: which clients get onto it, how often, and that none of them is slept over. */
module WorkerFast {
  import opened IntrusiveList
  import opened Wrappers
  import opened Workers
  import opened WorkerPicking
  import opened WorkerTurns
  import opened WorkerRuns

  lemma ListsDistinct(s: State, id: WorkerId)
    requires s.Inv() && id < |s.workers|
    ensures Distinct(s.views[id].fast) && Distinct(s.views[id].normal)
    ensures forall c :: c in s.views[id].fast ==> c !in s.views[id].normal
  {
    assert s.Good(id);
  }

  /**
   worker_next_client in fields: a client that is due within 2 ms and was rescheduled like
   that fewer than four times in a row is on the fast list afterwards, any other on the
   normal list, from which its due time bounds the wake-up time. Nobody else changes lists.
   */
  lemma NextLands(s: State, id: WorkerId)
    requires s.Inv() && id < |s.workers| && Stepping(s.threads[id], s.views[id])
    ensures
      var c, s' := Walked(s.threads[id], s.views[id])[s.views[id].cur], NextState(s, id);
      var t, v, t', v' := s.threads[id], s.views[id], s'.threads[id], s'.views[id];
      && c in s.scheduleMs && c in s.fastCount && c in s'.fastCount && t'.phase == t.phase
      && s'.scheduleMs == s.scheduleMs
      && (if s.scheduleMs[c] < s.workers[id].timeMs + 2 && s.fastCount[c] < 4 then
            && v'.fast == (if t.normalClients then v.fast + [c] else v.fast) && c in v'.fast && c !in v'.normal
            && s'.fastCount[c] == (if t.normalClients then s.fastCount[c] else s.fastCount[c] + 1)
            && t'.wakeupMs == t.wakeupMs
          else
            && v'.normal == (if t.normalClients then v.normal else v.normal + [c]) && c in v'.normal && c !in v'.fast
            && s'.fastCount[c] == 0
            && t'.wakeupMs <= s.scheduleMs[c] && t'.wakeupMs <= t.wakeupMs
            && (t'.wakeupMs == s.scheduleMs[c] || t'.wakeupMs == t.wakeupMs))
      && (forall d :: d != c ==> (d in v'.fast <==> d in v.fast) && (d in v'.normal <==> d in v.normal))
      && (forall d :: d in s.fastCount && d != c ==> d in s'.fastCount && s'.fastCount[d] == s.fastCount[d])
  {
    hide WorkerOk, MovedMemory, MovedWorker;
    StepFacts(s, id);
    assert s.Good(id);
    var t, v, v' := s.threads[id], s.views[id], NextState(s, id).views[id];
    var list, c := Walked(t, v), Walked(t, v)[v.cur];
    ListsDistinct(s, id);
    if v' == Moved(t, v) {
      DistinctWithout(list, v.cur);
    }
  }

  /** The same for a client that was run and stays. */
  lemma KeptLands(s: State, id: WorkerId, sched: nat)
    requires Ran(s, id)
    ensures
      var c, s' := Running(s, id), Step(s, Keep(id, sched));
      var v' := s'.views[id];
      && c in s.fastCount && c in s'.fastCount && c in s'.scheduleMs && s'.scheduleMs[c] == sched
      && s'.threads[id].phase == Dispatch
      && (if sched < s.workers[id].timeMs + 2 && s.fastCount[c] < 4 then
            && c in v'.fast && c !in v'.normal
            && s'.fastCount[c] == (if s.threads[id].normalClients then s.fastCount[c] else s.fastCount[c] + 1)
          else c in v'.normal && c !in v'.fast && s'.fastCount[c] == 0 && s'.threads[id].wakeupMs <= sched)
      && (forall d :: d != c ==>
            (d in v'.fast <==> d in s.views[id].fast) && (d in v'.normal <==> d in s.views[id].normal))
      && (forall d :: d in s.fastCount && d != c ==> d in s'.fastCount && s'.fastCount[d] == s.fastCount[d])
  {
    hide WorkerOk, NextState;
    KeptStep(s, id, sched);
    NextLands(Kept(s, id, sched), id);
  }

  // -------------------------------------------------------------------- how often

  ghost predicate CountsOk(s: State) {
    forall c :: c in s.fastCount ==> s.fastCount[c] <= 4
  }

  lemma NextCounts(s: State, id: WorkerId)
    requires s.Inv() && id < |s.workers| && Stepping(s.threads[id], s.views[id]) && CountsOk(s)
    ensures CountsOk(NextState(s, id))
  {
    hide WorkerOk, MovedMemory, MovedWorker;
    StepFacts(s, id);
  }

  /** What a search leaves alone: the other workers, and whoever is on the fast list. */
  ghost predicate SearchKeeps(s: State, s': State, id: WorkerId) {
    && |s'.views| == |s.views| == |s'.threads| == |s.threads| && id < |s.views|
    && (forall j :: 0 <= j < |s.views| && j != id ==> s'.views[j] == s.views[j] && s'.threads[j] == s.threads[j])
    && (forall c :: c in s.views[id].fast ==> c in s'.views[id].fast)
    && (CountsOk(s) ==> CountsOk(s'))
  }

  lemma NextSearch(s: State, id: WorkerId)
    requires s.Inv() && id < |s.workers| && Stepping(s.threads[id], s.views[id]) && s.threads[id].normalClients
    ensures SearchKeeps(s, NextState(s, id), id)
  {
    hide WorkerOk, MovedMemory, MovedWorker;
    StepFacts(s, id);
    if CountsOk(s) {
      NextCounts(s, id);
    }
  }

  lemma {:induction false} ScanSearch(s: State, id: WorkerId, client: Ptr)
    requires Scanning(s, id, client)
    ensures SearchKeeps(s, Scan(s, id, client).0, id)
    decreases
      if s.threads[id].normalAfter then 1 else 0,
      if client == Null then 0 else |Walked(s.threads[id], s.views[id])| - s.views[id].cur
  {
    hide WorkerOk, MovedMemory, MovedWorker, NextState;
    match client
    case Null =>
      if s.threads[id].normalAfter {
        NormalFromStartStep(s, id);
        var s' := NormalFromStart(s, id);
        ScanSearch(s', id, ElementAt(s'.views[id].normal, 0));
      }
    case To(c) =>
      FoundStep(s, id, c);
      if s.threads[id].normalClients && s.scheduleMs[c] >= s.threads[id].schedMs {
        ScanNext(s, id, c);
        NextSearch(s, id);
        ScanSearch(NextState(s, id), id, ElementAt(Walked(s.threads[id], s.views[id]), s.views[id].cur + 1));
      }
  }

  lemma PickSearch(s: State, id: WorkerId, now: nat)
    requires Picking(s, id, now)
    ensures SearchKeeps(s, Pick(s, id, now).0, id)
  {
    hide WorkerOk, Scan, State.Good, Scanning;
    if s.threads[id].maxRun > 0 {
      PickStart(s, id, now);
      var s' := Resynced(Rechecked(s, id, now), id);
      if s.threads[id].prevp != None {
        ScanSearch(s', id, LoadFrom(s'.next, s'.workers[id], s.threads[id].prevp.value));
      }
    }
  }

  lemma StepCounts(s: State, e: Event)
    requires s.Inv() && CountsOk(s)
    ensures CountsOk(Step(s, e))
  {
    hide WorkerOk, Pick, NextState;
    if Enabled(s, e) {
      match e
      case PickNext(id, now) => PickSearch(s, id, now);
      case Keep(id, sched) =>
        KeptStep(s, id, sched);
        NextCounts(Kept(s, id, sched), id);
      case HandOff(id, dest) => LeftStep(s, id, Null);
      case _ =>
    }
  }

  /** No client is ever rescheduled on the fast list more than four times in a row. */
  lemma {:induction false} RunCounts(s: State, es: seq<Event>)
    requires s.Inv() && CountsOk(s)
    ensures CountsOk(Run(s, es))
    decreases |es|
  {
    hide State.Inv, Step, CountsOk;
    if es != [] {
      StepKeeps(s, es[0]);
      StepCounts(s, es[0]);
      RunCounts(Step(s, es[0]), es[1..]);
    }
  }

  // -------------------------------------------------------------------- nobody due is slept over

  ghost predicate OnFastList(s: State, id: WorkerId, c: Node) {
    id < |s.views| == |s.threads| && c in s.views[id].fast && To(c) != Hole(s.threads[id], s.views[id])
  }

  /** The client was run, and is rescheduled, handed over or gone. */
  ghost predicate EndsTurn(s: State, e: Event, c: Node)
    requires s.Inv()
  {
    Enabled(s, e) && (e.Keep? || e.HandOff? || e.Leave?) && Running(s, e.id) == c
  }

  lemma OthersKept(s: State, j: WorkerId, sched: nat, id: nat)
    requires Ran(s, j) && id < |s.workers| && id != j
    ensures |Step(s, Keep(j, sched)).views| == |s.views| == |Step(s, Keep(j, sched)).threads|
    ensures Step(s, Keep(j, sched)).views[id] == s.views[id] && Step(s, Keep(j, sched)).threads[id] == s.threads[id]
  {
    hide WorkerOk, MovedMemory, MovedWorker;
    KeptStep(s, j, sched);
  }

  lemma UnlinkedOthers(s: State, id: WorkerId, c: Node)
    requires Leaving(s, id) && c in s.views[id].fast && To(c) != Hole(s.threads[id], s.views[id])
    ensures c in Unlinked(s, id).views[id].fast
  {
    assert s.Good(id);
    DistinctWithout(Walked(s.threads[id], s.views[id]), s.views[id].cur);
  }

  lemma PickStays(s: State, j: WorkerId, now: nat, id: WorkerId, c: Node)
    requires s.Inv() && OnFastList(s, id, c) && Picking(s, j, now)
    ensures OnFastList(Step(s, PickNext(j, now)), id, c)
  {
    hide WorkerOk, Pick, NextState, State.Good;
    PickSearch(s, j, now);
    PickKeeps(s, j, now);
  }

  lemma KeepStays(s: State, j: WorkerId, sched: nat, id: WorkerId, c: Node)
    requires s.Inv() && OnFastList(s, id, c) && Ran(s, j) && Running(s, j) != c
    ensures OnFastList(Step(s, Keep(j, sched)), id, c)
  {
    hide WorkerOk, NextState, State.Good;
    KeptLands(s, j, sched);
    StepKeeps(s, Keep(j, sched));
    if j != id {
      OthersKept(s, j, sched, id);
    }
  }

  lemma HandOffStays(s: State, j: WorkerId, dest: WorkerId, id: WorkerId, c: Node)
    requires s.Inv() && OnFastList(s, id, c) && Ran(s, j) && dest < |s.workers| && Running(s, j) != c
    ensures OnFastList(Step(s, HandOff(j, dest)), id, c)
  {
    hide WorkerOk;
    LeftStep(s, j, Null);
  }

  lemma NotEnabled(s: State, e: Event)
    requires s.Inv() && !Enabled(s, e)
    ensures Step(s, e) == s
  {
  }

  lemma UnlinkStays(s: State, j: WorkerId, id: WorkerId, c: Node)
    requires s.Inv() && OnFastList(s, id, c) && Leaving(s, j)
    ensures OnFastList(Step(s, Unlink(j)), id, c)
  {
    hide WorkerOk;
    if j == id {
      UnlinkedOthers(s, j, c);
    }
  }

  lemma OtherStays(s: State, e: Event, id: WorkerId, c: Node)
    requires s.Inv() && OnFastList(s, id, c) && Enabled(s, e) && (e.Deliver? || e.Wait? || e.Wake? || e.MakeDue?)
    ensures OnFastList(Step(s, e), id, c)
  {
    hide WorkerOk, Rearmed, AdoptedMemory, AdoptedWorker, Duration;
  }

  lemma LeaveStays(s: State, j: WorkerId, link: Ptr, id: WorkerId, c: Node)
    requires s.Inv() && OnFastList(s, id, c) && Ran(s, j) && Running(s, j) != c
    ensures OnFastList(Step(s, Leave(j, link)), id, c)
  {
    hide WorkerOk;
  }

  /** No step of any thread takes a client off a fast list but the end of its turn. */
  lemma FastStays(s: State, e: Event, id: WorkerId, c: Node)
    requires s.Inv() && OnFastList(s, id, c) && !EndsTurn(s, e, c)
    ensures OnFastList(Step(s, e), id, c)
  {
    hide State.Inv, OnFastList, Step, Running;
    if Enabled(s, e) {
      match e {
        case PickNext(j, now) => PickStays(s, j, now, id, c);
        case Keep(j, sched) => KeepStays(s, j, sched, id, c);
        case HandOff(j, dest) => HandOffStays(s, j, dest, id, c);
        case Leave(j, link) => LeaveStays(s, j, link, id, c);
        case Unlink(j) => UnlinkStays(s, j, id, c);
        case _ => OtherStays(s, e, id, c);
      }
    } else {
      NotEnabled(s, e);
    }
  }

  /** Some step of the run ends a turn of the client. */
  ghost predicate EndsTurnIn(s: State, es: seq<Event>, c: Node)
    requires s.Inv()
    decreases |es|
  {
    es != [] && (EndsTurn(s, es[0], c) || (StepKeeps(s, es[0]); EndsTurnIn(Step(s, es[0]), es[1..], c)))
  }

  lemma FastIsAwake(s: State, id: WorkerId)
    requires s.Inv() && id < |s.workers| && s.views[id].fast != []
    ensures s.threads[id].phase != Blocked
  {
    assert s.Good(id);
  }

  lemma {:induction false} FastRun(s: State, es: seq<Event>, id: WorkerId, c: Node)
    requires s.Inv() && OnFastList(s, id, c) && !EndsTurnIn(s, es, c)
    ensures OnFastList(Run(s, es), id, c) && Run(s, es).threads[id].phase != Blocked
    decreases |es|
  {
    hide Step, State.Good, EndsTurn;
    if es == [] {
      FastIsAwake(s, id);
    } else {
      StepKeeps(s, es[0]);
      FastStays(s, es[0], id, c);
      FastRun(Step(s, es[0]), es[1..], id, c);
    }
  }

  /**
   In no interleaving does a worker go into the timed wait between keeping a client that is
   due within 2 ms, and was rescheduled like that fewer than four times, and running it again.
   */
  lemma NeverSleepsOverDue(s: State, id: WorkerId, sched: nat, es: seq<Event>)
    requires Ran(s, id) && Running(s, id) in s.fastCount
    requires sched < s.workers[id].timeMs + 2 && s.fastCount[Running(s, id)] < 4
    ensures Step(s, Keep(id, sched)).Inv()
    ensures
      var s' := Step(s, Keep(id, sched));
      !EndsTurnIn(s', es, Running(s, id)) ==> id < |Run(s', es).threads| && Run(s', es).threads[id].phase != Blocked
  {
    hide Step, State.Good;
    StepKeeps(s, Keep(id, sched));
    KeptLands(s, id, sched);
    var s' := Step(s, Keep(id, sched));
    if !EndsTurnIn(s', es, Running(s, id)) {
      FastRun(s', es, id, Running(s, id));
    }
  }
}
