/** What a worker does after a client was run and between passes, down to the timed wait, of src/client.c. */
module WorkerTurns {
  import opened IntrusiveList
  import opened Wrappers
  import opened Workers
  import opened WorkerPicking

  // -------------------------------------------------------------------- after a client was run

  ghost predicate Ran(s: State, id: WorkerId) {
    s.Inv() && id < |s.workers| && s.threads[id].phase == Processing
  }

  ghost function Running(s: State, id: WorkerId): Node
    requires Ran(s, id)
  {
    assert s.Good(id);
    Walked(s.threads[id], s.views[id])[s.views[id].cur]
  }

  /** The client asked to be run again at `sched`. */
  ghost function Kept(s: State, id: WorkerId, sched: nat): State
    requires Ran(s, id)
  {
    s.(scheduleMs := s.scheduleMs[Running(s, id) := sched],
       threads := s.threads[id := s.threads[id].(phase := Dispatch)])
  }

  lemma KeptOk(next: Memory, sched: map<Node, nat>, w: Worker, t: Thread, v: View, ms: nat)
    requires WorkerOk(next, sched, w, t, v) && t.phase == Processing
    ensures
      var c, t' := Walked(t, v)[v.cur], t.(phase := Dispatch);
      c in next && WorkerOk(next, sched[c := ms], w, t', v) && Stepping(t', v)
  {
    var c := Walked(t, v)[v.cur];
    assert c in Walked(t, v);
    assert forall d :: Passed(t, v, d) ==> d != c;
  }

  lemma KeptStep(s: State, id: WorkerId, sched: nat)
    requires Ran(s, id)
    ensures
      var s' := Kept(s, id, sched);
      && s'.Inv() && SameResidents(s, s') && SameSize(s, s') && Stepping(s'.threads[id], s'.views[id])
      && Running(s, id) in s.next
  {
    assert s.Good(id);
    var w, v, s' := s.workers[id], s.views[id], Kept(s, id, sched);
    var c := Running(s, id);
    KeptOk(s.next, s.scheduleMs, w, s.threads[id], v, sched);
    hide WorkerOk;
    assert Owns(s.threads[id], v, c) by { assert c in Walked(s.threads[id], v); }
    assert s.workers[id := w] == s.workers && s.views[id := v] == s.views;
    RecordStep(s, s', id, w, s'.threads[id], v);
  }

  /**
   The client has left for good or for another worker: nothing of it is ours any more,
   and its link field may hold anything.
   */
  ghost function Left(s: State, id: WorkerId, link: Ptr): State
    requires Ran(s, id)
  {
    var c := Running(s, id);
    s.(next := s.next[c := link], owner := s.owner[c := None],
       threads := s.threads[id := s.threads[id].(phase := Unlinking)])
  }

  /** A hole outside the list does not concern it. */
  lemma FrameOpen(m: Memory, m': Memory, name: ListName, l: List<ListName>, s: seq<Node>, hole: Ptr, after: Ptr)
    requires Chain(m, name, l, s, Null, Null) && hole.To? && hole.node !in s
    requires forall c :: c in s ==> c in m' && m'[c] == m[c]
    ensures Chain(m', name, l, s, hole, after)
  {
    forall i | 0 <= i < |s|
      ensures LinkOf(m', s[i], hole, after) == ElementAt(s, i + 1)
    {
      assert LinkOf(m, s[i], Null, Null) == ElementAt(s, i + 1);
    }
  }

  lemma LeftOk(next: Memory, sched: map<Node, nat>, w: Worker, t: Thread, v: View, link: Ptr)
    requires WorkerOk(next, sched, w, t, v) && t.phase == Processing
    ensures
      var c, t' := Walked(t, v)[v.cur], t.(phase := Unlinking);
      && c in next && WorkerOk(next[c := link], sched, w, t', v)
      && forall d :: Owns(t', v, d) <==> Owns(t, v, d) && d != c
  {
    var c := Walked(t, v)[v.cur];
    var next' := next[c := link];
    assert c in Walked(t, v) && To(c) == Hole(t.(phase := Unlinking), v);
    assert t.nxc == next[c] by {
      assert LinkOf(next, c, Null, Null) == ElementAt(Walked(t, v), v.cur + 1);
    }
    if t.normalClients {
      ChainOpen(next, next', Normal, w.normal, v.normal, v.cur);
      FrameOpen(next, next', Fast, w.fast, v.fast, To(c), t.nxc);
    } else {
      ChainOpen(next, next', Fast, w.fast, v.fast, v.cur);
      FrameOpen(next, next', Normal, w.normal, v.normal, To(c), t.nxc);
    }
    ChainFrame(next, next', Pending, w.pending, v.pending, Null, Null);
  }

  lemma RunningOwned(s: State, id: WorkerId)
    requires Ran(s, id)
    ensures Owns(s.threads[id], s.views[id], Running(s, id))
  {
    assert s.Good(id);
    assert Running(s, id) in Walked(s.threads[id], s.views[id]);
  }

  lemma LeftStep(s: State, id: WorkerId, link: Ptr)
    requires Ran(s, id)
    ensures
      var s', c := Left(s, id, link), Running(s, id);
      && s'.Inv() && SameSize(s, s') && c in s.next && s.Resident(id, c) && s'.Outside(c)
      && c in s'.owner && s'.owner[c] == None
      && forall j, d :: s'.Resident(j, d) <==> s.Resident(j, d) && d != c
  {
    hide WorkerOk;
    assert s.Good(id);
    var s', c, t, v := Left(s, id, link), Running(s, id), s.threads[id], s.views[id];
    LeftOk(s.next, s.scheduleMs, s.workers[id], t, v, link);
    assert s.Resident(id, c) by { RunningOwned(s, id); }
    OneOwner(s, id, c);
    forall j | 0 <= j < |s.workers|
      ensures s'.Good(j)
    {
      assert s.Good(j);
      if j != id {
        assert !s.Resident(j, c);
        WorkerFrame(s.next, s'.next, s.scheduleMs, s'.scheduleMs, s.workers[j], s.threads[j], s.views[j]);
      }
    }
    forall j, d
      ensures s'.Resident(j, d) <==> s.Resident(j, d) && d != c
    {
      assert j != id ==> !s.Resident(j, c);
    }
  }

  ghost predicate Leaving(s: State, id: WorkerId) {
    s.Inv() && id < |s.workers| && s.threads[id].phase == Unlinking
  }

  function UnlinkedWorker(w: Worker, t: Thread): Worker
    requires t.prevp != None
  {
    var link := t.prevp.value;
    StoreIn(if t.nxc == Null then SetTail(w, Current(t), link) else w, link, t.nxc).(count := w.count - 1)
  }

  ghost function UnlinkedView(t: Thread, v: View): View
    requires v.cur < |Walked(t, v)|
  {
    if t.normalClients then v.(normal := Without(v.normal, v.cur)) else v.(fast := Without(v.fast, v.cur))
  }

  /** worker_removed_client, with the link saved before the client was run. */
  ghost function Unlinked(s: State, id: WorkerId): State
    requires Leaving(s, id)
  {
    assert s.Good(id);
    var w, t, v := s.workers[id], s.threads[id], s.views[id];
    s.(next := StoreNext(s.next, t.prevp.value, t.nxc), workers := s.workers[id := UnlinkedWorker(w, t)],
       threads := s.threads[id := t.(phase := Dispatch)], views := s.views[id := UnlinkedView(t, v)])
  }

  lemma CloseElsewhere(m: Memory, m': Memory, name: ListName, l: List<ListName>, s: seq<Node>, hole: Ptr, after: Ptr)
    requires Chain(m, name, l, s, hole, after) && hole.To? && hole.node !in s
    requires forall c :: c in s ==> c in m' && m'[c] == m[c]
    ensures Chain(m', name, l, s, Null, Null)
  {
    forall i | 0 <= i < |s|
      ensures LinkOf(m', s[i], Null, Null) == ElementAt(s, i + 1)
    {
      assert LinkOf(m, s[i], hole, after) == ElementAt(s, i + 1);
    }
  }

  lemma UnlinkedShape(next: Memory, w: Worker, t: Thread, v: View)
    requires ShapeOk(next, w, t, v) && t.phase == Unlinking && AtCursor(t, v) && v.cur < |Walked(t, v)|
    ensures
      var next' := StoreNext(next, t.prevp.value, t.nxc);
      && ShapeOk(next', UnlinkedWorker(w, t), t.(phase := Dispatch), UnlinkedView(t, v))
      && next'.Keys == next.Keys
      && (forall d :: d in next && !Owns(t, v, d) ==> next'[d] == next[d])
  {
    var s, link := Walked(t, v), t.prevp.value;
    var next' := StoreNext(next, link, t.nxc);
    DistinctWithout(s, v.cur);
    assert v.cur > 0 ==> s[v.cur - 1] in s && s[v.cur - 1] != s[v.cur] && Owns(t, v, s[v.cur - 1]);
    if t.normalClients {
      ChainClose(next, Normal, w.normal, v.normal, v.cur, t.nxc);
      CloseElsewhere(next, next', Fast, w.fast, v.fast, Hole(t, v), t.nxc);
    } else {
      ChainClose(next, Fast, w.fast, v.fast, v.cur, t.nxc);
      CloseElsewhere(next, next', Normal, w.normal, v.normal, Hole(t, v), t.nxc);
    }
    ChainFrame(next, next', Pending, w.pending, v.pending, Null, Null);
  }

  lemma UnlinkedTime(sched: map<Node, nat>, w: Worker, w': Worker, t: Thread, v: View)
    requires TimeOk(sched, w, t, v) && t.phase == Unlinking && v.cur < |Walked(t, v)| && w'.timeMs == w.timeMs
    ensures TimeOk(sched, w', t.(phase := Dispatch), UnlinkedView(t, v))
  {
    var t', v' := t.(phase := Dispatch), UnlinkedView(t, v);
    forall c | Passed(t, v, c)
      ensures Passed(t', v', c)
    {
      var i :| 0 <= i < |v.normal| && i < PassedCount(t, v) && v.normal[i] == c;
      assert v'.normal[i] == c;
    }
  }

  lemma UnlinkedMembers(t: Thread, v: View, next: Memory, w: Worker)
    requires ShapeOk(next, w, t, v) && t.phase == Unlinking && v.cur < |Walked(t, v)|
    ensures forall d :: Owns(t.(phase := Dispatch), UnlinkedView(t, v), d) <==> Owns(t, v, d)
  {
    DistinctWithout(Walked(t, v), v.cur);
    assert Walked(t, v)[v.cur] in Walked(t, v);
  }

  lemma UnlinkedOk(next: Memory, sched: map<Node, nat>, w: Worker, t: Thread, v: View)
    requires WorkerOk(next, sched, w, t, v) && t.phase == Unlinking
    ensures
      var next', t', v' := StoreNext(next, t.prevp.value, t.nxc), t.(phase := Dispatch), UnlinkedView(t, v);
      && WorkerOk(next', sched, UnlinkedWorker(w, t), t', v')
      && next'.Keys == next.Keys
      && (forall d :: Owns(t', v', d) <==> Owns(t, v, d))
      && (forall d :: d in next && !Owns(t, v, d) ==> next'[d] == next[d])
  {
    hide ShapeOk, TimeOk;
    UnlinkedShape(next, w, t, v);
    UnlinkedTime(sched, w, UnlinkedWorker(w, t), t, v);
    UnlinkedMembers(t, v, next, w);
  }

  lemma UnlinkedStep(s: State, id: WorkerId)
    requires Leaving(s, id)
    ensures Unlinked(s, id).Inv() && SameResidents(s, Unlinked(s, id)) && SameSize(s, Unlinked(s, id))
  {
    hide WorkerOk;
    assert s.Good(id);
    var w, t, v, s' := s.workers[id], s.threads[id], s.views[id], Unlinked(s, id);
    UnlinkedOk(s.next, s.scheduleMs, w, t, v);
    OwnStep(s, s', id, s'.workers[id], s'.threads[id], s'.views[id]);
  }

  // -------------------------------------------------------------------- between passes

  /** The counters that the worker loop sets before each pass. */
  function NewPass(t: Thread): Thread {
    t.(phase := Dispatch, maxRun := MAX_RUN, timeRecheck := 0)
  }

  function OnFast(t: Thread): Thread {
    t.(normalClients := false, prevp := Some(Head(Fast)))
  }

  function AdoptedMemory(m: Memory, w: Worker): Memory {
    if w.pending.head == Null then m else StoreNext(m, w.fast.tailp, w.pending.head)
  }

  function AdoptedWorker(w: Worker): Worker {
    if w.pending.head == Null then w
    else
      StoreIn(w, w.fast.tailp, w.pending.head).(
        fast := StoreIn(w, w.fast.tailp, w.pending.head).fast.(tailp := w.pending.tailp),
        count := w.count + w.pendingCount, pending := List(Null, Head(Pending)), pendingCount := 0)
  }

  ghost function AdoptedView(v: View): View {
    v.(fast := v.fast + v.pending, pending := [])
  }

  /** The end of worker_wait: adopt what is pending if there was a wake-up, then choose a list. */
  function Rearmed(w: Worker, t: Thread): Thread {
    if w.fast.head != Null then OnFast(t).(schedMs := 0)
    else t.(normalClients := true, normalAfter := false, prevp := Some(Head(Normal)), schedMs := 0)
  }

  ghost predicate Ending(s: State, id: WorkerId) {
    s.Inv() && id < |s.workers| && (s.threads[id].phase == PassEnded || s.threads[id].phase == Blocked)
  }

  ghost function Resumed(s: State, id: WorkerId, woken: bool): State
    requires id < |s.workers| == |s.threads| == |s.views|
  {
    var w, v := s.workers[id], s.views[id];
    var w' := if woken then AdoptedWorker(w) else w;
    var v' := if woken then AdoptedView(v) else v;
    s.(next := if woken then AdoptedMemory(s.next, w) else s.next, workers := s.workers[id := w'],
       threads := s.threads[id := NewPass(Rearmed(w', s.threads[id]))],
       views := s.views[id := v'.(cur := 0, ran := 0, prompted := {})])
  }

  lemma ResumedOk(next: Memory, sched: map<Node, nat>, w: Worker, t: Thread, v: View)
    requires WorkerOk(next, sched, w, t, v) && (t.phase == PassEnded || t.phase == Blocked)
    ensures WorkerOk(next, sched, w, NewPass(Rearmed(w, t)), v.(cur := 0, ran := 0, prompted := {}))
  {
  }

  lemma AdoptedOk(next: Memory, sched: map<Node, nat>, w: Worker, t: Thread, v: View)
    requires WorkerOk(next, sched, w, t, v) && t.phase == Blocked
    ensures
      var next', w', v' := AdoptedMemory(next, w), AdoptedWorker(w), AdoptedView(v).(prompted := {});
      && WorkerOk(next', sched, w', t.(phase := PassEnded, normalClients := false), v')
      && next'.Keys == next.Keys
      && (forall d :: d in next && !Owns(t, v, d) ==> next'[d] == next[d])
  {
    var next' := AdoptedMemory(next, w);
    if w.pending.head == Null {
      assert v.pending == [] && v.fast + v.pending == v.fast;
    } else {
      ChainConcat(next, Fast, w.fast, v.fast, Pending, w.pending, v.pending);
      ChainFrame(next, next', Normal, w.normal, v.normal, Null, Null);
      assert v.fast == [];
    }
  }

  lemma ResumedStep(s: State, id: WorkerId, woken: bool)
    requires Ending(s, id) && (woken ==> s.threads[id].phase == Blocked)
    ensures Resumed(s, id, woken).Inv() && SameResidents(s, Resumed(s, id, woken)) && SameSize(s, Resumed(s, id, woken))
  {
    hide WorkerOk, AdoptedMemory, AdoptedWorker;
    assert s.Good(id);
    var s', w, t, v := Resumed(s, id, woken), s.workers[id], s.threads[id], s.views[id];
    if woken {
      AdoptedOk(s.next, s.scheduleMs, w, t, v);
      var t1 := t.(phase := PassEnded, normalClients := false);
      ResumedOk(s'.next, s.scheduleMs, s'.workers[id], t1, AdoptedView(v).(prompted := {}));
      assert NewPass(Rearmed(s'.workers[id], t1)) == NewPass(Rearmed(s'.workers[id], t));
    } else {
      ResumedOk(s.next, s.scheduleMs, w, t, v);
    }
    OwnStep(s, s', id, s'.workers[id], s'.threads[id], s'.views[id]);
  }

  /** How long worker_wait sleeps, in milliseconds. */
  function Duration(wakeupMs: nat, now: nat): (d: nat)
    ensures 1 <= d <= 60000
  {
    var d := if wakeupMs > now then wakeupMs - now else 1;
    if d > 60000 then 60000 else d
  }

  /** worker_wait up to the timed wait; a pass of the fast list alone does not wait. */
  ghost function Turned(s: State, id: WorkerId, now: nat): State
    requires id < |s.workers| == |s.threads| == |s.views|
  {
    var w, t, v := s.workers[id], s.threads[id], s.views[id];
    if !t.normalClients then Resumed(s, id, false)
    else
      var t' := if Duration(t.wakeupMs, now) < 5 then t.(normalAfter := true) else t;
      if w.fast.head != Null then
        s.(threads := s.threads[id := NewPass(OnFast(t'))],
           views := s.views[id := v.(cur := 0, ran := 0, prompted := {})])
      else WithThread(s, id, t'.(phase := Blocked))
  }

  lemma TurnedOk(next: Memory, sched: map<Node, nat>, w: Worker, t: Thread, v: View, normalAfter: bool)
    requires WorkerOk(next, sched, w, t, v) && t.phase == PassEnded && t.normalClients
    ensures
      var t' := t.(normalAfter := normalAfter);
      if w.fast.head != Null then WorkerOk(next, sched, w, NewPass(OnFast(t')), v.(cur := 0, ran := 0, prompted := {}))
      else WorkerOk(next, sched, w, t'.(phase := Blocked), v)
  {
    assert forall c :: Passed(t, v, c) ==> Passed(t.(normalAfter := normalAfter, phase := Blocked), v, c);
  }

  lemma TurnedStep(s: State, id: WorkerId, now: nat)
    requires s.Inv() && id < |s.workers| && s.threads[id].phase == PassEnded
    ensures Turned(s, id, now).Inv() && SameResidents(s, Turned(s, id, now)) && SameSize(s, Turned(s, id, now))
  {
    if !s.threads[id].normalClients {
      ResumedStep(s, id, false);
    } else {
      assert s.Good(id);
      hide WorkerOk;
      var s', w, t := Turned(s, id, now), s.workers[id], s.threads[id];
      TurnedOk(s.next, s.scheduleMs, w, t, s.views[id], t.normalAfter || Duration(t.wakeupMs, now) < 5);
      assert WorkerOk(s.next, s.scheduleMs, w, s'.threads[id], s'.views[id]);
      assert s.workers[id := w] == s.workers && (s'.views == s.views[id := s'.views[id]]);
      RecordStep(s, s', id, w, s'.threads[id], s'.views[id]);
    }
  }

  /**
   Once the normal list was gone over, and until the wait is over, the clients due before
   the wake-up time are exactly those that another thread has made due since the cursor
   passed them; a pass that was cut short wakes up at once.
   */
  lemma DueBeforeWakeup(s: State, id: WorkerId, c: Node)
    requires s.Inv() && id < |s.workers| && !Walking(s.threads[id]) && s.threads[id].normalClients
    requires c in s.views[id].normal && s.threads[id].wakeupMs > s.workers[id].timeMs
    ensures c in s.scheduleMs
    ensures s.scheduleMs[c] < s.threads[id].wakeupMs <==> c in s.views[id].prompted
  {
    assert s.Good(id);
    var v := s.views[id];
    var i :| 0 <= i < |v.normal| && v.normal[i] == c;
    assert c in v.prompted || s.threads[id].wakeupMs <= s.scheduleMs[v.normal[i]];
  }

  /** How long a client may be kept waiting: until it is due, or 1 ms if it is due already. */
  function DueIn(scheduleMs: nat, now: nat): nat {
    if scheduleMs > now then scheduleMs - now else 1
  }

  /**
   A worker that goes into the timed wait has an empty fast list. It sleeps no longer than
   until its earliest client is due exactly if no other thread has made a client due since
   the cursor passed it, or the wait is as short as it can be.
   */
  lemma NoOversleep(s: State, id: WorkerId, now: nat)
    requires s.Inv() && id < |s.workers| && s.threads[id].phase == PassEnded && now >= s.workers[id].timeMs
    requires Turned(s, id, now).threads[id].phase == Blocked
    ensures s.views[id].fast == []
    ensures forall c :: c in s.views[id].normal ==> c in s.scheduleMs
    ensures
      (forall c :: c in s.views[id].normal ==> Duration(s.threads[id].wakeupMs, now) <= DueIn(s.scheduleMs[c], now))
      <==> s.views[id].prompted == {} || s.threads[id].wakeupMs <= now + 1
  {
    assert s.Good(id);
    var t, v := s.threads[id], s.views[id];
    forall c | c in v.normal
      ensures c in s.scheduleMs
      ensures Duration(t.wakeupMs, now) <= DueIn(s.scheduleMs[c], now) <==> c !in v.prompted || t.wakeupMs <= now + 1
    {
      assert Owns(t, v, c) && c in s.next;
      if t.wakeupMs > s.workers[id].timeMs {
        DueBeforeWakeup(s, id, c);
      }
    }
    if v.prompted != {} {
      var c :| c in v.prompted;
      assert c in v.normal;
    }
  }
}
