/** How a worker goes from pass to pass: the clock readings, the list that comes next, and how long it waits. */
module WorkerPasses {
  import opened IntrusiveList
  import opened Wrappers
  import opened Workers
  import opened WorkerPicking
  import opened WorkerTurns
  import opened WorkerRuns

  // -------------------------------------------------------------------- picking, by the clock

  /** Stepping over a client changes no time but the wake-up time, and that to when the client is due. */
  lemma NextClock(s: State, id: WorkerId)
    requires s.Inv() && id < |s.workers| && Stepping(s.threads[id], s.views[id])
    ensures
      var s' := NextState(s, id);
      && |s'.workers| == |s.workers| == |s'.threads| && s'.scheduleMs == s.scheduleMs
      && s'.workers[id].timeMs == s.workers[id].timeMs && s'.threads[id].schedMs == s.threads[id].schedMs
      && (s'.threads[id].wakeupMs == s.threads[id].wakeupMs
          || exists c :: c in s.scheduleMs && s'.threads[id].wakeupMs == s.scheduleMs[c])
  {
    hide WorkerOk, MovedMemory;
    StepFacts(s, id);
  }

  /** The search reads no clock; a client that it finds was due, and is stamped with the time of the worker. */
  lemma {:induction false} ScanClock(s: State, id: WorkerId, client: Ptr)
    requires Scanning(s, id, client)
    ensures
      var (s', r) := Scan(s, id, client);
      && |s'.workers| == |s.workers| == |s'.threads|
      && s'.workers[id].timeMs == s.workers[id].timeMs && s'.threads[id].schedMs == s.threads[id].schedMs
      && (r == Null ==> s'.scheduleMs == s.scheduleMs)
      && (r != Null ==>
            && r.node in s.scheduleMs && s'.scheduleMs == s.scheduleMs[r.node := s.workers[id].timeMs]
            && (s'.threads[id].normalClients ==> s.scheduleMs[r.node] < s.threads[id].schedMs))
      && (s'.threads[id].wakeupMs == s.threads[id].wakeupMs
          || exists c :: c in s.scheduleMs && s'.threads[id].wakeupMs == s.scheduleMs[c])
    decreases
      if s.threads[id].normalAfter then 1 else 0,
      if client == Null then 0 else |Walked(s.threads[id], s.views[id])| - s.views[id].cur
  {
    hide WorkerOk, MovedMemory, MovedWorker, NextState;
    match client
    case Null =>
      if s.threads[id].normalAfter {
        NormalFromStartStep(s, id);
        var s' := NormalFromStart(s, id);
        ScanClock(s', id, ElementAt(s'.views[id].normal, 0));
      }
    case To(c) =>
      FoundStep(s, id, c);
      if s.threads[id].normalClients && s.scheduleMs[c] >= s.threads[id].schedMs {
        ScanNext(s, id, c);
        NextClock(s, id);
        ScanClock(NextState(s, id), id, ElementAt(Walked(s.threads[id], s.views[id]), s.views[id].cur + 1));
      }
  }

  /**
   worker_pick_client and the clock: it is read every 50 clients; a pass takes from the normal
   list what is due less than 2 ms after its start; and the wake-up time is 30 seconds after
   the start, or when some client is due.
   */
  lemma PickClock(s: State, id: WorkerId, now: nat)
    requires Picking(s, id, now) && s.threads[id].maxRun > 0
    ensures
      var (s', r) := Pick(s, id, now);
      var t, time := s.threads[id], if s.threads[id].timeRecheck == 0 then now else s.workers[id].timeMs;
      var sched := if t.schedMs == 0 then time + 2 else t.schedMs;
      && |s'.workers| == |s.workers| == |s'.threads|
      && s'.workers[id].timeMs == time && s'.threads[id].schedMs == sched
      && (r != Null ==>
            && r.node in s.scheduleMs && s'.scheduleMs == s.scheduleMs[r.node := time]
            && (s'.threads[id].normalClients ==> s.scheduleMs[r.node] < sched))
      && (s'.threads[id].wakeupMs == (if t.schedMs == 0 then time + 30000 else t.wakeupMs)
          || exists c :: c in s.scheduleMs && s'.threads[id].wakeupMs == s.scheduleMs[c])
  {
    hide WorkerOk, Scan, State.Good, Scanning;
    PickStart(s, id, now);
    var s1 := Resynced(Rechecked(s, id, now), id);
    if s.threads[id].prevp != None {
      ScanClock(s1, id, LoadFrom(s1.next, s1.workers[id], s.threads[id].prevp.value));
    }
  }

  /** A pass that was cut short is followed by the shortest wait there is, and by the normal list again. */
  lemma CutPassHurries(s: State, id: WorkerId, now: nat, later: nat)
    requires Picking(s, id, now) && s.threads[id].maxRun == 0 && later >= s.workers[id].timeMs
    ensures
      var (s', r) := Pick(s, id, now);
      && r == Null && s'.Inv() && id < |s'.threads| == |s'.workers|
      && s'.threads[id].phase == PassEnded && s'.threads[id].schedMs == 0
      && Duration(s'.threads[id].wakeupMs, later) == 1
      && s'.views == s.views && s'.scheduleMs == s.scheduleMs && s'.workers == s.workers
  {
    hide WorkerOk;
    PickKeeps(s, id, now);
  }

  // -------------------------------------------------------------------- from pass to pass

  /** A new pass: over the fast list if there is anybody on it, with fresh counters, and the clock to be read. */
  ghost predicate Begins(s: State, id: WorkerId, fast: seq<Node>) {
    && id < |s.threads| == |s.views| && s.views[id].fast == fast
    && var t, v := s.threads[id], s.views[id];
    && t.phase == Dispatch && t.maxRun == 1000 && t.timeRecheck == 0
    && v.cur == v.ran == 0 && v.prompted == {}
    && t.normalClients == (fast == []) && t.prevp == Some(Head(if fast == [] then Normal else Fast))
  }

  lemma FastIsEmpty(s: State, id: WorkerId)
    requires s.Inv() && id < |s.workers|
    ensures s.workers[id].fast.head == Null <==> s.views[id].fast == []
    ensures s.workers[id].pending.head == Null <==> s.views[id].pending == []
  {
    assert s.Good(id);
  }

  /**
   worker_wait before the timed wait. After a pass over the fast list alone the next pass
   begins at once. After the normal list it is the turn of the fast list, if anybody is on it,
   and, if some client is due within 5 ms, of the normal list in the same pass; if nobody is,
   the worker blocks.
   */
  lemma TurnsTo(s: State, id: WorkerId, now: nat)
    requires s.Inv() && id < |s.workers| && s.threads[id].phase == PassEnded && now >= s.workers[id].timeMs
    ensures
      var s', t, v := Turned(s, id, now), s.threads[id], s.views[id];
      && |s'.threads| == |s.threads| && |s'.views| == |s.views| && s'.workers == s.workers && s'.next == s.next
      && var t' := s'.threads[id];
      && (!t.normalClients ==>
            && Begins(s', id, v.fast) && t'.schedMs == 0 && t'.normalAfter == (t.normalAfter && v.fast != []))
      && (t.normalClients && v.fast != [] ==>
            && Begins(s', id, v.fast) && t'.schedMs == t.schedMs
            && t'.normalAfter == (t.normalAfter || t.wakeupMs < now + 5))
      && (t.normalClients && v.fast == [] ==>
            && s' == s.(threads := s'.threads) && t' == t.(phase := Blocked, normalAfter := t'.normalAfter)
            && t'.normalAfter == (t.normalAfter || t.wakeupMs < now + 5))
  {
    assert s.Good(id);
    assert s.workers[id := s.workers[id]] == s.workers;
    hide WorkerOk;
    FastIsEmpty(s, id);
  }

  /** How long the worker blocks: until the wake-up time, but at least 1 ms and at most a minute. */
  lemma WaitsFor(wakeupMs: nat, now: nat)
    ensures Duration(wakeupMs, now) == 1 <==> wakeupMs <= now + 1
    ensures now < wakeupMs <= now + 60000 ==> now + Duration(wakeupMs, now) == wakeupMs
    ensures wakeupMs >= now + 60000 ==> Duration(wakeupMs, now) == 60000
  {
  }

  /**
   worker_wait after the timed wait: with what was pending on the fast list, if the worker was
   woken, and none of it otherwise, the next pass begins.
   */
  lemma WakesTo(s: State, id: WorkerId, woken: bool)
    requires s.Inv() && id < |s.workers| && s.threads[id].phase == Blocked
    ensures
      var s', v := Resumed(s, id, woken), s.views[id];
      var fast := if woken then v.fast + v.pending else v.fast;
      && |s'.threads| == |s.threads| && |s'.views| == |s.views| && Begins(s', id, fast)
      && s'.views[id].pending == (if woken then [] else v.pending) && s'.views[id].normal == v.normal
      && s'.threads[id].schedMs == 0 && s'.scheduleMs == s.scheduleMs
      && s'.threads[id].normalAfter == (s.threads[id].normalAfter && fast != [])
  {
    ResumedStep(s, id, woken);
    hide WorkerOk, AdoptedMemory, AdoptedWorker;
    FastIsEmpty(Resumed(s, id, woken), id);
  }
}
