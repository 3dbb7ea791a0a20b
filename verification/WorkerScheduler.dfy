/** The operations of the scheduler of src/client.c, in place. */
module WorkerScheduler {
  import opened IntrusiveList
  import opened Wrappers
  import opened Workers
  import opened WorkerPicking
  import opened WorkerTurns
  import opened WorkerFast
  import opened WorkerRuns

  lemma OwnerIsUs(s: State, id: WorkerId, c: Node)
    requires Scanning(s, id, To(c))
    ensures c in s.owner && s.owner[c] == Some(id)
  {
    assert s.Good(id);
    assert c in Walked(s.threads[id], s.views[id]) && Owns(s.threads[id], s.views[id], c);
  }

  lemma CurrentFacts(s: State, id: WorkerId)
    requires Ran(s, id)
    ensures s.threads[id].prevp != None
    ensures LoadFrom(s.next, s.workers[id], s.threads[id].prevp.value) == To(Running(s, id))
  {
    assert s.Good(id);
    var t, v := s.threads[id], s.views[id];
    if v.cur > 0 {
      var p := Walked(t, v)[v.cur - 1];
      assert p in Walked(t, v) && LinkOf(s.next, p, Null, Null) == ElementAt(Walked(t, v), v.cur);
    }
  }

  class Scheduler {
    var next: Memory
    var owner: map<Node, Option<WorkerId>>
    var scheduleMs: map<Node, nat>
    var fastCount: map<Node, nat>
    var workers: seq<Worker>
    var threads: seq<Thread>
    ghost var views: seq<View>

    ghost function Now(): State
      reads this
    {
      State(next, owner, scheduleMs, fastCount, workers, threads, views)
    }

    constructor (workerCount: nat, clients: set<Node>)
      ensures Now() == Initial(workerCount, clients)
      ensures Now().Inv() && |workers| == workerCount && next.Keys == clients
      ensures forall c :: Now().Outside(c)
      ensures forall id :: 0 <= id < workerCount ==> threads[id].phase == Dispatch && threads[id].prevp == None
    {
      next := map c | c in clients :: Null;
      owner := map c | c in clients :: None;
      scheduleMs := map c | c in clients :: 0;
      fastCount := map c | c in clients :: 0;
      workers := seq(workerCount,
        _ => Worker(List(Null, Head(Fast)), List(Null, Head(Normal)), List(Null, Head(Pending)), 0, 0, 0));
      threads := seq(workerCount, _ => Thread(None, 0, 0, MAX_RUN, 0, true, false, Null, Dispatch));
      views := seq(workerCount, _ => View([], [], [], 0, 0, {}));
      new;
      InitialOk(workerCount, clients);
      assert Now() == Initial(workerCount, clients);
    }

    /** worker_add_client, under the lock of the destination. */
    method AddClient(id: WorkerId, c: Node)
      requires id < |workers| == |views|
      modifies this
      ensures Now() == Delivered(old(Now()), c, id)
    {
      var w := workers[id];
      w := w.(pendingCount := w.pendingCount + 1);
      next := next[c := Null];
      next, w := StoreNext(next, w.pending.tailp, To(c)), StoreIn(w, w.pending.tailp, To(c));
      w := SetTail(w, Pending, NextOf(c));
      owner := owner[c := Some(id)];
      workers := workers[id := w];
      views := views[id := views[id].(pending := views[id].pending + [c])];
    }

    /** One turn of source_listeners_wakeup, for a client of another worker. */
    method MakeDue(id: WorkerId, c: Node)
      requires id < |workers| == |threads| == |views|
      modifies this
      ensures Now() == MadeDue(old(Now()), id, c)
    {
      scheduleMs := scheduleMs[c := 0];
      views := views[id := views[id].(prompted := if Passed(threads[id], views[id], c) then views[id].prompted + {c}
                                                  else views[id].prompted)];
    }

    /** The client is taken away; `client->worker` is cleared. */
    method Release(id: WorkerId, c: Node, link: Ptr)
      requires Ran(Now(), id) && c == Running(Now(), id)
      modifies this
      ensures Now() == Left(old(Now()), id, link)
    {
      next := next[c := link];
      owner := owner[c := None];
      threads := threads[id := threads[id].(phase := Unlinking)];
    }

    /** client_change_worker, called while the client is being run. */
    method ChangeWorker(id: WorkerId, dest: WorkerId)
      requires Ran(Now(), id) && dest < |workers|
      modifies this
      ensures Now() == Delivered(Left(old(Now()), id, Null), old(Running(Now(), id)), dest)
    {
      LeftStep(Now(), id, Null);
      CurrentFacts(Now(), id);
      var c := LoadFrom(next, workers[id], threads[id].prevp.value).node;
      Release(id, c, Null);
      AddClient(dest, c);
    }

    /** Append the client at `link` to the other list and unlink it from this one. */
    method MoveToOther(id: WorkerId, link: Link<ListName>, client: Node)
      requires id < |workers| == |threads| == |views| && client in next
      requires views[id].cur < |Walked(threads[id], views[id])|
      modifies this
      ensures
        var s := old(Now());
        var w, t, v := s.workers[id], s.threads[id], s.views[id];
        Now() == s.(next := MovedMemory(s.next, w, t, link, client),
                    workers := s.workers[id := MovedWorker(s.next, w, t, link, client)],
                    views := s.views[id := Moved(t, v)])
    {
      var w, t := workers[id], threads[id];
      var nxt, tailp := next[client], ListOf(workers[id], Other(threads[id])).tailp;
      next, w := StoreNext(next, tailp, To(client)), StoreIn(w, tailp, To(client));
      w := SetTail(w, Other(t), NextOf(client));
      if nxt == Null {
        w := SetTail(w, Current(t), link);
      }
      next := next[client := Null];
      next, w := StoreNext(next, link, nxt), StoreIn(w, link, nxt);
      workers, views := workers[id := w], views[id := Moved(t, views[id])];
    }

    /** The cursor goes past the client, unless it is the last. */
    method StepPast(id: WorkerId, client: Node, nxt: Ptr)
      requires id < |threads| == |views|
      modifies this`threads, this`views
      ensures threads == old(threads)[id := Advanced(old(threads[id]), old(threads[id]).wakeupMs, client, nxt)]
      ensures views == old(views)[id := AdvancedView(old(views[id]), nxt)]
    {
      if nxt != Null {
        threads := threads[id := threads[id].(prevp := Some(NextOf(client)))];
      }
      views := views[id := AdvancedView(views[id], nxt)];
    }

    /** worker_next_client: leave the client at the cursor where it belongs and step on. */
    method NextClient(id: WorkerId) returns (nxt: Ptr)
      requires Now().Inv() && id < |workers| && Stepping(threads[id], views[id])
      modifies this
      ensures Now() == NextState(old(Now()), id)
      ensures nxt == old(ElementAt(Walked(threads[id], views[id]), views[id].cur + 1))
    {
      hide WorkerOk, State.Good, MovedMemory, MovedWorker, Moved, AdvancedView, ElementAt;
      var w, t := workers[id], threads[id];
      var link := t.prevp.value;
      StepFacts(Now(), id);
      var client := LoadFrom(next, w, link).node;
      nxt := next[client];

      var fast := Soon(scheduleMs[client], w.timeMs, fastCount[client]);
      if t.normalClients {
        if fast {
          MoveToOther(id, link, client);
          return;
        }
        StepPast(id, client, nxt);
      } else {
        if fast {
          StepPast(id, client, nxt);
          fastCount := fastCount[client := fastCount[client] + 1];
          return;
        }
        MoveToOther(id, link, client);
      }
      t := threads[id];
      if scheduleMs[client] < t.wakeupMs {
        threads := threads[id := t.(wakeupMs := scheduleMs[client])];
      }
      fastCount := fastCount[client := 0];
    }

    /** The client was run and stays: src/client.c:910. */
    method KeepClient(id: WorkerId, sched: nat)
      requires Ran(Now(), id)
      modifies this
      ensures Now() == (KeptStep(old(Now()), id, sched); NextState(Kept(old(Now()), id, sched), id))
      ensures
        var c, counts := old(Running(Now(), id)), old(fastCount);
        && c in counts && c in fastCount
        && if sched < old(workers[id].timeMs) + 2 && counts[c] < 4 then c in views[id].fast && c !in views[id].normal
           else c in views[id].normal && c !in views[id].fast && fastCount[c] == 0
    {
      KeptStep(Now(), id, sched);
      KeptLands(Now(), id, sched);
      CurrentFacts(Now(), id);
      var c := LoadFrom(next, workers[id], threads[id].prevp.value).node;
      scheduleMs := scheduleMs[c := sched];
      threads := threads[id := threads[id].(phase := Dispatch)];
      var _ := NextClient(id);
    }

    method SetThread(id: WorkerId, t: Thread)
      requires id < |threads|
      modifies this`threads
      ensures threads == old(threads)[id := t]
    {
      threads := threads[id := t];
    }

    method SwitchToNormal(id: WorkerId) returns (client: Ptr)
      requires Scanning(Now(), id, Null)
      modifies this
      ensures Now() == NormalFromStart(old(Now()), id)
      ensures client == ElementAt(views[id].normal, 0) && Scanning(Now(), id, client)
    {
      hide WorkerOk;
      NormalFromStartStep(Now(), id);
      SetThread(id, threads[id].(normalClients := true, normalAfter := false, prevp := Some(Head(Normal))));
      views := views[id := views[id].(cur := 0, prompted := {})];
      client := workers[id].normal.head;
      CursorLoads(Now(), id);
    }

    method StartClient(id: WorkerId, c: Node)
      requires id < |workers| == |threads| == |views| && c in next
      requires threads[id].maxRun > 0 && threads[id].timeRecheck > 0
      modifies this
      ensures Now() == Found(old(Now()), id, c)
    {
      var t := threads[id];
      t := t.(maxRun := t.maxRun - 1, timeRecheck := t.timeRecheck - 1, phase := Processing);
      SetThread(id, t.(nxc := next[c]));
      scheduleMs := scheduleMs[c := workers[id].timeMs];
      views := views[id := views[id].(ran := views[id].ran + 1)];
    }

    /** The search loop of worker_pick_client. */
    method Search(id: WorkerId, first: Ptr) returns (client: Ptr)
      requires Scanning(Now(), id, first)
      modifies this
      ensures (Now(), client) == Scan(old(Now()), id, first)
    {
      hide WorkerOk, State.Good, NextState;
      ghost var s := Now();
      client := first;
      while true
        invariant Scanning(Now(), id, client)
        invariant Scan(Now(), id, client) == Scan(s, id, first)
        decreases
          if threads[id].normalAfter then 1 else 0,
          if client == Null then 0 else |Walked(threads[id], views[id])| - views[id].cur
      {
        var t := threads[id];
        if client == Null {
          if t.normalAfter {
            client := SwitchToNormal(id);
            continue;
          }
          SetThread(id, t.(phase := PassEnded));
          return;
        }
        OwnerIsUs(Now(), id, client.node);
        assert owner[client.node] == Some(id);  // otherwise the source aborts
        FoundStep(Now(), id, client.node);
        if !t.normalClients || scheduleMs[client.node] < t.schedMs {
          StartClient(id, client.node);
          return;
        }
        ScanNext(Now(), id, client.node);
        client := NextClient(id);
      }
    }

    /** worker_pick_client; a client that is found is started as at the top of the worker loop. */
    method PickClient(id: WorkerId, now: nat) returns (client: Ptr)
      requires Picking(Now(), id, now)
      modifies this
      ensures (Now(), client) == Pick(old(Now()), id, now)
    {
      hide WorkerOk, Scan, State.Good, NextState, Scanning, Covers, LoadFrom;
      var t, w := threads[id], workers[id];
      if t.maxRun == 0 {
        SetThread(id, t.(maxRun := (w.count + 200) % 65536, schedMs := 0, wakeupMs := w.timeMs, phase := PassEnded));
        return Null;
      }
      PickStart(Now(), id, now);
      if t.timeRecheck == 0 {
        w, t := w.(timeMs := now), t.(timeRecheck := 50);
        workers := workers[id := w];
      }
      if t.schedMs == 0 {
        t := t.(wakeupMs := w.timeMs + 30000, schedMs := w.timeMs + 2);
      }
      SetThread(id, t);
      assert Now() == Resynced(Rechecked(old(Now()), id, now), id);
      if t.prevp == None {
        SetThread(id, t.(phase := PassEnded));
        return Null;
      }
      client := LoadFrom(next, w, t.prevp.value);
      client := Search(id, client);
    }

    /** worker_removed_client */
    method RemovedClient(id: WorkerId)
      requires Leaving(Now(), id)
      modifies this
      ensures Now() == Unlinked(old(Now()), id)
    {
      ghost var s := Now();
      assert s.Good(id);
      var w, t := workers[id], threads[id];
      w := w.(count := w.count - 1);
      if t.nxc == Null {
        w := SetTail(w, Current(t), t.prevp.value);
      }
      next, w := StoreNext(next, t.prevp.value, t.nxc), StoreIn(w, t.prevp.value, t.nxc);
      workers, threads := workers[id := w], threads[id := t.(phase := Dispatch)];
      views := views[id := UnlinkedView(t, views[id])];
    }

    /** worker_add_pending_clients, under the worker's own lock. */
    method AddPendingClients(id: WorkerId)
      requires id < |workers| == |threads| == |views|
      modifies this
      ensures |workers| == old(|workers|)
      ensures Now() == old(Now()).(next := next, workers := old(workers)[id := workers[id]], threads := threads,
          views := views)
      ensures next == AdoptedMemory(old(next), old(workers[id])) && workers[id] == AdoptedWorker(old(workers[id]))
      ensures old(workers[id].pending.head) == Null ==> threads == old(threads)
      ensures old(workers[id].pending.head) != Null ==> threads == old(threads)[id := OnFast(old(threads[id]))]
      ensures views == old(views)[id := AdoptedView(old(views[id]))]
    {
      var w := workers[id];
      views := views[id := AdoptedView(views[id])];
      if w.pending.head != Null {
        next, w := StoreNext(next, w.fast.tailp, w.pending.head), StoreIn(w, w.fast.tailp, w.pending.head);
        w := SetTail(w, Fast, w.pending.tailp);
        w := w.(count := w.count + w.pendingCount);
        w := w.(pending := List(Null, Head(Pending)), pendingCount := 0);
        workers := workers[id := w];
        SetThread(id, OnFast(threads[id]));
      }
    }

    /** worker_wait from the return of the timed wait, or without one after a fast pass. */
    method Resume(id: WorkerId, woken: bool)
      requires Ending(Now(), id) && (woken ==> threads[id].phase == Blocked)
      modifies this
      ensures Now() == Resumed(old(Now()), id, woken)
    {
      SetThread(id, threads[id].(normalClients := true));
      if woken {
        AddPendingClients(id);
      }
      if workers[id].fast.head != Null {
        SetThread(id, OnFast(threads[id]));
      } else {
        SetThread(id, threads[id].(normalClients := true, normalAfter := false, prevp := Some(Head(Normal))));
      }
      SetThread(id, NewPass(threads[id].(schedMs := 0)));
      views := views[id := views[id].(cur := 0, ran := 0, prompted := {})];
    }

    /** worker_wait up to the timed wait, if there is one. */
    method WaitOrTurn(id: WorkerId, now: nat)
      requires Now().Inv() && id < |workers| && threads[id].phase == PassEnded && now >= workers[id].timeMs
      modifies this
      ensures Now() == Turned(old(Now()), id, now)
    {
      var duration := Duration(threads[id].wakeupMs, now);
      if !threads[id].normalClients {
        Resume(id, false);
        return;
      }
      if duration < 5 {
        SetThread(id, threads[id].(normalAfter := true));
      }
      if workers[id].fast.head != Null {
        SetThread(id, NewPass(OnFast(threads[id])));
        views := views[id := views[id].(cur := 0, ran := 0, prompted := {})];
        return;
      }
      SetThread(id, threads[id].(phase := Blocked));
    }
  }
}
