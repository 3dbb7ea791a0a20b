/** How a worker picks its next client: worker_pick_client and the dispatch loop of src/client.c. */
module WorkerPicking {
  import opened IntrusiveList
  import opened Wrappers
  import opened Workers

  ghost function WithThread(s: State, id: WorkerId, t: Thread): State
    requires id < |s.threads|
  {
    s.(threads := s.threads[id := t])
  }

  /** A step that touches nothing but the thread's own record, the clock and client times. */
  lemma RecordStep(s: State, s': State, id: WorkerId, w: Worker, t: Thread, v: View)
    requires s.Inv() && id < |s.workers|
    requires s' == s.(workers := s.workers[id := w], threads := s.threads[id := t], views := s.views[id := v],
                      scheduleMs := s'.scheduleMs)
    requires s'.scheduleMs.Keys == s.scheduleMs.Keys
    requires forall c :: c in s.next && s.owner[c] != Some(id) ==> s'.scheduleMs[c] == s.scheduleMs[c]
    requires WorkerOk(s.next, s'.scheduleMs, w, t, v)
    requires forall c :: Owns(t, v, c) ==> Owns(s.threads[id], s.views[id], c)
    ensures s'.Inv()
  {
    hide WorkerOk;
    OwnStep(s, s', id, w, t, v);
  }

  /** The walk may go on: `client` is the one at the cursor, or the list has been gone over. */
  ghost predicate Scanning(s: State, id: WorkerId, client: Ptr) {
    && s.Inv() && id < |s.workers|
    && var t, v := s.threads[id], s.views[id];
    && t.phase == Dispatch && t.prevp != None && t.schedMs != 0 && t.maxRun > 0 && t.timeRecheck > 0
    && v.cur <= |Walked(t, v)|
    && match client
       case To(c) => client == ElementAt(Walked(t, v), v.cur)
       case Null => t.normalClients ==> Covers(s.scheduleMs, t.wakeupMs, v, |v.normal|)
  }

  ghost function Found(s: State, id: WorkerId, c: Node): State
    requires id < |s.workers| && |s.workers| == |s.threads| == |s.views| && c in s.next
    requires s.threads[id].maxRun > 0 && s.threads[id].timeRecheck > 0
  {
    var t, v := s.threads[id], s.views[id];
    s.(threads := s.threads[id := t.(maxRun := t.maxRun - 1, timeRecheck := t.timeRecheck - 1, phase := Processing,
                                     nxc := s.next[c])],
       views := s.views[id := v.(ran := v.ran + 1)],
       scheduleMs := s.scheduleMs[c := s.workers[id].timeMs])
  }

  ghost function NormalFromStart(s: State, id: WorkerId): State
    requires id < |s.threads| == |s.views|
  {
    var t := s.threads[id].(normalClients := true, normalAfter := false, prevp := Some(Head(Normal)));
    s.(threads := s.threads[id := t], views := s.views[id := s.views[id].(cur := 0, prompted := {})])
  }

  lemma FoundKeeps(next: Memory, sched: map<Node, nat>, w: Worker, t: Thread, v: View)
    requires WorkerOk(next, sched, w, t, v) && Stepping(t, v) && t.maxRun > 0 && t.timeRecheck > 0
    ensures
      var c := Walked(t, v)[v.cur];
      && c in next && next[c] == ElementAt(Walked(t, v), v.cur + 1)
      && WorkerOk(next, sched[c := w.timeMs], w,
                  t.(maxRun := t.maxRun - 1, timeRecheck := t.timeRecheck - 1, phase := Processing, nxc := next[c]),
                  v.(ran := v.ran + 1))
  {
    var c := Walked(t, v)[v.cur];
    assert c in Walked(t, v);
    assert LinkOf(next, c, Null, Null) == ElementAt(Walked(t, v), v.cur + 1);
  }

  lemma FoundStep(s: State, id: WorkerId, c: Node)
    requires Scanning(s, id, To(c))
    ensures c in s.next && Found(s, id, c).Inv()
  {
    hide WorkerOk;
    var w, t, v := s.workers[id], s.threads[id], s.views[id];
    assert Stepping(t, v);
    StepFacts(s, id);
    assert s.Good(id);
    var s' := Found(s, id, c);
    FoundKeeps(s.next, s.scheduleMs, w, t, v);
    assert Owns(t, v, c) by { assert c in Walked(t, v); }
    assert s.workers[id := w] == s.workers;
    RecordStep(s, s', id, w, s'.threads[id], s'.views[id]);
  }

  lemma NormalFromStartStep(s: State, id: WorkerId)
    requires Scanning(s, id, Null)
    ensures var s' := NormalFromStart(s, id); s'.Inv() && Scanning(s', id, ElementAt(s'.views[id].normal, 0))
  {
    var w, t, v := s.workers[id], s.threads[id], s.views[id];
    assert s.Good(id);
    var s' := NormalFromStart(s, id);
    assert WorkerOk(s.next, s.scheduleMs, w, s'.threads[id], s'.views[id]);
    assert s.workers[id := w] == s.workers;
    hide WorkerOk;
    RecordStep(s, s', id, w, s'.threads[id], s'.views[id]);
  }

  /** Stepping over the last client leaves the wake-up time no later than all of them are due. */
  lemma NextCovers(s: State, id: WorkerId)
    requires s.Inv() && id < |s.workers| && Stepping(s.threads[id], s.views[id])
    requires s.threads[id].normalClients && s.views[id].cur + 1 == |s.views[id].normal|
    ensures
      var t', v' := NextState(s, id).threads[id], NextState(s, id).views[id];
      Covers(s.scheduleMs, t'.wakeupMs, v', |v'.normal|)
  {
    hide WorkerOk, MovedMemory, MovedWorker;
    StepFacts(s, id);
  }

  lemma ScanNext(s: State, id: WorkerId, c: Node)
    requires Scanning(s, id, To(c))
    ensures Stepping(s.threads[id], s.views[id])
    ensures
      var nxt := ElementAt(Walked(s.threads[id], s.views[id]), s.views[id].cur + 1);
      && Scanning(NextState(s, id), id, nxt)
      && (var t', v' := NextState(s, id).threads[id], NextState(s, id).views[id];
          && t'.normalAfter == s.threads[id].normalAfter
          && (nxt != Null ==> |Walked(t', v')| - v'.cur < |Walked(s.threads[id], s.views[id])| - s.views[id].cur))
  {
    hide WorkerOk, MovedMemory, MovedWorker, Covers;
    StepFacts(s, id);
    NextStep(s, id);
    var t, v := s.threads[id], s.views[id];
    var nxt := ElementAt(Walked(t, v), v.cur + 1);
    var s' := NextState(s, id);
    var t', v' := s'.threads[id], s'.views[id];
    if v' == Moved(t, v) {
      assert Walked(t', v') == Without(Walked(t, v), v.cur);
    } else {
      assert v' == AdvancedView(v, nxt);
    }
    assert nxt != Null ==> ElementAt(Walked(t', v'), v'.cur) == nxt;
    if t.normalClients && nxt == Null {
      NextCovers(s, id);
    }
  }

  ghost function PassEnd(s: State, id: WorkerId): State
    requires id < |s.threads|
  {
    WithThread(s, id, s.threads[id].(phase := PassEnded))
  }

  /**
   The search of worker_pick_client: on the fast list the client at the cursor is taken as
   it is; on the normal list those that are not due yet are left behind, and a pass that
   has to do both lists goes on from the start of the normal one.
   */
  ghost function Scan(s: State, id: WorkerId, client: Ptr): (State, Ptr)
    requires Scanning(s, id, client)
    decreases
      if s.threads[id].normalAfter then 1 else 0,
      if client == Null then 0 else |Walked(s.threads[id], s.views[id])| - s.views[id].cur
  {
    match client
    case Null =>
      if s.threads[id].normalAfter then
        NormalFromStartStep(s, id);
        var s' := NormalFromStart(s, id);
        Scan(s', id, ElementAt(s'.views[id].normal, 0))
      else
        (PassEnd(s, id), Null)
    case To(c) =>
      FoundStep(s, id, c);
      if !s.threads[id].normalClients || s.scheduleMs[c] < s.threads[id].schedMs then
        (Found(s, id, c), client)
      else
        ScanNext(s, id, c);
        Scan(NextState(s, id), id, ElementAt(Walked(s.threads[id], s.views[id]), s.views[id].cur + 1))
  }

  ghost predicate SameResidents(s: State, s': State) {
    forall id, c :: s'.Resident(id, c) <==> s.Resident(id, c)
  }

  lemma MovedResidents(t: Thread, v: View, c: Node)
    requires v.cur < |Walked(t, v)|
    ensures c in Moved(t, v).fast || c in Moved(t, v).normal <==> c in v.fast || c in v.normal
  {
    var s := Walked(t, v);
    var r := Without(s, v.cur);
    if c in s && c != s[v.cur] {
      var i :| 0 <= i < |s| && s[i] == c;
      assert r[if i < v.cur then i else i - 1] == c;
    }
    if c in r {
      var i :| 0 <= i < |r| && r[i] == c;
      assert s[if i < v.cur then i else i + 1] == c;
    }
  }

  lemma NextResidents(s: State, id: WorkerId)
    requires s.Inv() && id < |s.workers| && Stepping(s.threads[id], s.views[id])
    ensures SameResidents(s, NextState(s, id))
  {
    hide WorkerOk, MovedMemory, MovedWorker;
    var s', t, v := NextState(s, id), s.threads[id], s.views[id];
    assert s.Good(id);
    forall j, c
      ensures s'.Resident(j, c) <==> s.Resident(j, c)
    {
      if j == id && s'.views[id] == Moved(t, v) {
        MovedResidents(t, v, c);
      }
    }
  }

  lemma PassEndStep(s: State, id: WorkerId)
    requires Scanning(s, id, Null)
    ensures PassEnd(s, id).Inv() && SameResidents(s, PassEnd(s, id))
  {
    var s', w, v := PassEnd(s, id), s.workers[id], s.views[id];
    assert s.Good(id);
    assert WorkerOk(s.next, s.scheduleMs, w, s'.threads[id], v);
    assert s.workers[id := w] == s.workers && s.views[id := v] == s.views;
    hide WorkerOk;
    RecordStep(s, s', id, w, s'.threads[id], v);
  }

  /** The search keeps the invariant and loses nobody; it ends the pass or starts a client. */
  lemma {:induction false} ScanKeeps(s: State, id: WorkerId, client: Ptr)
    requires Scanning(s, id, client)
    ensures
      var (s', r) := Scan(s, id, client);
      && s'.Inv() && SameResidents(s, s') && SameSize(s, s')
      && var t', v' := s'.threads[id], s'.views[id];
      && (r == Null ==> t'.phase == PassEnded)
      && (r != Null ==> t'.phase == Processing && v'.cur < |Walked(t', v')| && r == To(Walked(t', v')[v'.cur]))
    decreases
      if s.threads[id].normalAfter then 1 else 0,
      if client == Null then 0 else |Walked(s.threads[id], s.views[id])| - s.views[id].cur
  {
    hide WorkerOk, MovedMemory, MovedWorker;
    match client
    case Null =>
      if s.threads[id].normalAfter {
        NormalFromStartStep(s, id);
        var s' := NormalFromStart(s, id);
        ScanKeeps(s', id, ElementAt(s'.views[id].normal, 0));
        assert s.Good(id);
      } else {
        PassEndStep(s, id);
      }
    case To(c) =>
      FoundStep(s, id, c);
      if s.threads[id].normalClients && s.scheduleMs[c] >= s.threads[id].schedMs {
        ScanNext(s, id, c);
        NextResidents(s, id);
        ScanKeeps(NextState(s, id), id, ElementAt(Walked(s.threads[id], s.views[id]), s.views[id].cur + 1));
      }
  }

  ghost function PassCut(s: State, id: WorkerId): State
    requires id < |s.workers| == |s.threads|
  {
    var w, t := s.workers[id], s.threads[id];
    WithThread(s, id, t.(maxRun := (w.count + 200) % 65536, schedMs := 0, wakeupMs := w.timeMs, phase := PassEnded))
  }

  /** The clock is read again after 50 clients. */
  ghost function Rechecked(s: State, id: WorkerId, now: nat): State
    requires id < |s.workers| == |s.threads|
  {
    var w, t := s.workers[id], s.threads[id];
    if t.timeRecheck != 0 then s
    else s.(workers := s.workers[id := w.(timeMs := now)], threads := s.threads[id := t.(timeRecheck := 50)])
  }

  ghost function Resynced(s: State, id: WorkerId): State
    requires id < |s.workers| == |s.threads|
  {
    var w, t := s.workers[id], s.threads[id];
    if t.schedMs != 0 then s
    else WithThread(s, id, t.(wakeupMs := w.timeMs + 30000, schedMs := w.timeMs + 2))
  }

  ghost predicate Picking(s: State, id: WorkerId, now: nat) {
    s.Inv() && id < |s.workers| && s.threads[id].phase == Dispatch && now >= s.workers[id].timeMs
  }

  /** Fresh clock readings do not disturb a walk: the wake-up time is raised only at its start. */
  lemma ResyncOk(next: Memory, sched: map<Node, nat>, w: Worker, t: Thread, v: View, timeMs: nat, recheck: nat)
    requires WorkerOk(next, sched, w, t, v) && t.phase == Dispatch && timeMs >= w.timeMs
    requires recheck == t.timeRecheck || recheck == 50
    ensures
      var t1 := t.(timeRecheck := recheck);
      var t2 := if t.schedMs != 0 then t1 else t1.(wakeupMs := timeMs + 30000, schedMs := timeMs + 2);
      && (t.prevp == None ==> WorkerOk(next, sched, w.(timeMs := timeMs), t2.(phase := PassEnded), v))
      && (t.prevp != None ==> WorkerOk(next, sched, w.(timeMs := timeMs), t2, v))
  {
  }

  lemma PickedNone(s: State, id: WorkerId)
    requires s.Inv() && id < |s.workers| && s.threads[id].phase == Dispatch && s.threads[id].prevp == None
    ensures s.threads[id].schedMs == 0
  {
    assert s.Good(id);
  }

  lemma CursorInRange(s: State, id: WorkerId)
    requires s.Inv() && id < |s.workers| && s.threads[id].phase == Dispatch && s.threads[id].prevp != None
    requires s.threads[id].schedMs != 0
    ensures s.views[id].cur <= |Walked(s.threads[id], s.views[id])|
    ensures s.threads[id].normalClients ==> Covers(s.scheduleMs, s.threads[id].wakeupMs, s.views[id], s.views[id].cur)
  {
    assert s.Good(id);
  }

  /** Dereferencing the cursor gives the client at its position, or NULL at the end of the list. */
  lemma CursorLoads(s: State, id: WorkerId)
    requires s.Inv() && id < |s.workers| && s.threads[id].prevp != None && s.threads[id].phase == Dispatch
    ensures
      LoadFrom(s.next, s.workers[id], s.threads[id].prevp.value)
        == ElementAt(Walked(s.threads[id], s.views[id]), s.views[id].cur)
  {
    assert s.Good(id);
    var t, v := s.threads[id], s.views[id];
    if v.cur > 0 {
      var p := Walked(t, v)[v.cur - 1];
      assert p in Walked(t, v) && LinkOf(s.next, p, Null, Null) == ElementAt(Walked(t, v), v.cur);
    }
  }

  lemma ResyncedInv(s: State, id: WorkerId, now: nat)
    requires Picking(s, id, now) && s.threads[id].maxRun > 0
    ensures
      var s' := Resynced(Rechecked(s, id, now), id);
      if s.threads[id].prevp == None then PassEnd(s', id).Inv() else s'.Inv()
  {
    hide WorkerOk;
    assert s.Good(id);
    var w, t, v := s.workers[id], s.threads[id], s.views[id];
    var s2 := Resynced(Rechecked(s, id, now), id);
    var w', t' := s2.workers[id], s2.threads[id];
    ResyncOk(s.next, s.scheduleMs, w, t, v, w'.timeMs, t'.timeRecheck);
    assert w' == w.(timeMs := w'.timeMs);
    assert s2.workers == s.workers[id := w'] && s2.threads == s.threads[id := t'] && s.views[id := v] == s.views;
    if t.prevp == None {
      var s3 := PassEnd(s2, id);
      assert s3.threads[id] == t'.(phase := PassEnded);
      assert t.schedMs == 0 by { PickedNone(s, id); }
      assert s3.threads == s.threads[id := s3.threads[id]];
      RecordStep(s, s3, id, w', s3.threads[id], v);
    } else {
      RecordStep(s, s2, id, w', t', v);
    }
  }

  lemma PickStart(s: State, id: WorkerId, now: nat)
    requires Picking(s, id, now) && s.threads[id].maxRun > 0
    ensures
      var s' := Resynced(Rechecked(s, id, now), id);
      if s.threads[id].prevp == None then PassEnd(s', id).Inv()
      else Scanning(s', id, LoadFrom(s'.next, s'.workers[id], s.threads[id].prevp.value))
  {
    hide State.Good, LoadFrom, Covers;
    ResyncedInv(s, id, now);
    var s' := Resynced(Rechecked(s, id, now), id);
    if s.threads[id].prevp != None {
      CursorLoads(s', id);
      CursorInRange(s', id);
    }
  }

  /** worker_pick_client at clock reading `now`; the client picked is started as in the worker loop. */
  ghost function Pick(s: State, id: WorkerId, now: nat): (State, Ptr)
    requires Picking(s, id, now)
  {
    if s.threads[id].maxRun == 0 then (PassCut(s, id), Null)
    else
      PickStart(s, id, now);
      var s' := Resynced(Rechecked(s, id, now), id);
      if s.threads[id].prevp == None then (PassEnd(s', id), Null)
      else Scan(s', id, LoadFrom(s'.next, s'.workers[id], s.threads[id].prevp.value))
  }

  lemma CutKeeps(s: State, id: WorkerId)
    requires s.Inv() && id < |s.workers| && s.threads[id].phase == Dispatch
    ensures PassCut(s, id).Inv()
  {
    assert s.Good(id);
    var w, t, v := s.workers[id], PassCut(s, id).threads[id], s.views[id];
    assert WorkerOk(s.next, s.scheduleMs, w, t, v);
    assert s.workers[id := w] == s.workers && s.views[id := v] == s.views;
    hide WorkerOk;
    RecordStep(s, PassCut(s, id), id, w, t, v);
  }

  /** worker_pick_client keeps the invariant, moves nobody, and never runs a counter below zero. */
  lemma PickKeeps(s: State, id: WorkerId, now: nat)
    requires Picking(s, id, now)
    ensures
      var (s', r) := Pick(s, id, now);
      && s'.Inv() && SameResidents(s, s') && SameSize(s, s')
      && var t', v' := s'.threads[id], s'.views[id];
      && (r == Null ==> t'.phase == PassEnded)
      && (r != Null ==> t'.phase == Processing && v'.cur < |Walked(t', v')| && r == To(Walked(t', v')[v'.cur]))
  {
    hide WorkerOk, Scan, State.Good, Scanning;
    if s.threads[id].maxRun == 0 {
      CutKeeps(s, id);
    } else {
      PickStart(s, id, now);
      var s' := Resynced(Rechecked(s, id, now), id);
      if s.threads[id].prevp != None {
        ScanKeeps(s', id, LoadFrom(s'.next, s'.workers[id], s.threads[id].prevp.value));
        assert SameResidents(s, s');
      }
    }
  }

  lemma {:induction false} ScanCounts(s: State, id: WorkerId, client: Ptr)
    requires Scanning(s, id, client)
    ensures
      var (s', r) := Scan(s, id, client);
      r != Null ==>
        && id < |s'.threads| && id < |s'.views|
        && s'.views[id].ran == s.views[id].ran + 1 && s'.threads[id].maxRun + 1 == s.threads[id].maxRun
        && s'.threads[id].timeRecheck + 1 == s.threads[id].timeRecheck
    decreases
      if s.threads[id].normalAfter then 1 else 0,
      if client == Null then 0 else |Walked(s.threads[id], s.views[id])| - s.views[id].cur
  {
    hide WorkerOk, MovedMemory, MovedWorker;
    match client
    case Null =>
      if s.threads[id].normalAfter {
        NormalFromStartStep(s, id);
        var s' := NormalFromStart(s, id);
        ScanCounts(s', id, ElementAt(s'.views[id].normal, 0));
      }
    case To(c) =>
      FoundStep(s, id, c);
      if s.threads[id].normalClients && s.scheduleMs[c] >= s.threads[id].schedMs {
        ScanNext(s, id, c);
        ScanCounts(NextState(s, id), id, ElementAt(Walked(s.threads[id], s.views[id]), s.views[id].cur + 1));
      }
  }

  /** A pass runs at most 1000 clients, and neither counter is ever taken below zero. */
  lemma PickCounts(s: State, id: WorkerId, now: nat)
    requires Picking(s, id, now)
    ensures
      var (s', r) := Pick(s, id, now);
      r != Null ==>
        && id < |s'.threads| && id < |s'.views|
        && s'.views[id].ran == s.views[id].ran + 1 <= MAX_RUN
        && s.threads[id].maxRun > 0 && s'.threads[id].maxRun == s.threads[id].maxRun - 1
        && s'.threads[id].timeRecheck == (if s.threads[id].timeRecheck == 0 then 50 else s.threads[id].timeRecheck) - 1
  {
    hide Scan, ShapeOk, CursorOk, TimeOk;
    if s.threads[id].maxRun > 0 {
      assert s.Good(id);
      PickStart(s, id, now);
      if s.threads[id].prevp != None {
        var s' := Resynced(Rechecked(s, id, now), id);
        ScanCounts(s', id, LoadFrom(s'.next, s'.workers[id], s.threads[id].prevp.value));
      }
    }
  }
}
