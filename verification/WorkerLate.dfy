/** A run in which a worker sleeps although one of its clients is due. */
module WorkerLate {
  import opened IntrusiveList
  import opened Wrappers
  import opened Workers
  import opened WorkerPicking
  import opened WorkerTurns
  import opened WorkerRuns

  /** One worker, on which client 7 is due at `schedMs`. */
  datatype Scene = Scene(w: Worker, t: Thread, v: View, schedMs: nat)

  ghost predicate Shows(s: State, d: Scene) {
    && s.Inv() && s.next.Keys == {7}
    && s.workers == [d.w] && s.threads == [d.t] && s.views == [d.v]
    && s.scheduleMs[7] == d.schedMs && s.fastCount[7] == 0 && s.next[7] == Null
  }

  function Holding(name: ListName, timeMs: nat): Worker {
    WithList(Worker(List(Null, Head(Fast)), List(Null, Head(Normal)), List(Null, Head(Pending)),
                    if name == Pending then 0 else 1, if name == Pending then 1 else 0, timeMs),
             name, List(To(7), NextOf(7)))
  }

  function On(name: ListName, ran: nat): View {
    var held := n => if n == name then [7] else [];
    View(held(Fast), held(Normal), held(Pending), 0, ran, {})
  }

  ghost const LATE: seq<Event> := [
    Deliver(7, 0), PickNext(0, 0), Wait(0, 29996), Wake(0, true), PickNext(0, 30000), Keep(0, 50000),
    PickNext(0, 30000), MakeDue(0, 7), Wait(0, 30000)]

  /** What there is to see after `k` steps. */
  ghost function AfterLate(k: nat): Scene
    requires 1 <= k <= |LATE|
  {
    var none: Option<Link<ListName>> := None;
    var onFast, onNormal := Some(Head(Fast)), Some(Head(Normal));
    match k
    case 1 => Scene(Holding(Pending, 0), Thread(none, 0, 0, 1000, 0, true, false, Null, Dispatch), On(Pending, 0), 0)
    case 2 => Scene(Holding(Pending, 0), Thread(none, 2, 30000, 1000, 50, true, false, Null, PassEnded),
        On(Pending, 0), 0)
    case 3 => Scene(Holding(Pending, 0), Thread(none, 2, 30000, 1000, 50, true, true, Null, Blocked), On(Pending, 0), 0)
    case 4 => Scene(Holding(Fast, 0), Thread(onFast, 0, 30000, 1000, 0, false, true, Null, Dispatch), On(Fast, 0), 0)
    case 5 => Scene(Holding(Fast, 30000), Thread(onFast, 30002, 60000, 999, 49, false, true, Null, Processing),
                    On(Fast, 1), 30000)
    case 6 => Scene(Holding(Normal, 30000), Thread(onFast, 30002, 50000, 999, 49, false, true, Null, Dispatch),
                    On(Normal, 1), 50000)
    case 7 => Scene(Holding(Normal, 30000), Thread(onNormal, 30002, 50000, 999, 49, true, false, Null, PassEnded),
                    On(Normal, 1), 50000)
    case 8 => Scene(Holding(Normal, 30000), Thread(onNormal, 30002, 50000, 999, 49, true, false, Null, PassEnded),
                    On(Normal, 1).(prompted := {7}), 0)
    case 9 => Scene(Holding(Normal, 30000), Thread(onNormal, 30002, 50000, 999, 49, true, false, Null, Blocked),
                    On(Normal, 1).(prompted := {7}), 0)
  }

  lemma LateArrival(s: State)
    requires s.Inv() && s == Initial(1, {7})
    ensures Shows(Step(s, LATE[0]), AfterLate(1))
  {
    StepKeeps(s, LATE[0]);
    InitialOk(1, {7});
    assert Step(s, LATE[0]) == Delivered(s, 7, 0);
    assert s.views[0].pending + [7] == [7];
  }

  lemma LateAdoption(s: State)
    requires Shows(s, AfterLate(3))
    ensures Shows(Step(s, LATE[3]), AfterLate(4))
  {
    StepKeeps(s, LATE[3]);
    assert Step(s, LATE[3]) == Resumed(s, 0, true);
    assert s.views[0].fast + s.views[0].pending == [7];
  }

  /** The move of the client from the fast list to the normal one, on values. */
  lemma LateMove(m: Memory, t: Thread)
    requires m.Keys == {7} && m[7] == Null && !t.normalClients
    ensures MovedMemory(m, Holding(Fast, 30000), t, Head(Fast), 7) == m
    ensures MovedWorker(m, Holding(Fast, 30000), t, Head(Fast), 7) == Holding(Normal, 30000)
    ensures Moved(t, On(Fast, 1)) == On(Normal, 1)
  {
  }

  lemma LateTurn(s: State)
    requires Shows(s, AfterLate(5))
    ensures Shows(Step(s, LATE[5]), AfterLate(6))
  {
    hide WorkerOk, MovedMemory, MovedWorker, Moved;
    StepKeeps(s, LATE[5]);
    KeptStep(s, 0, 50000);
    LateMove(s.next, s.threads[0].(phase := Dispatch));
    assert Step(s, LATE[5]) == NextState(Kept(s, 0, 50000), 0);
  }

  /** The search goes over the empty fast list and then past the client, which is not due. */
  lemma LatePass(s: State)
    requires Shows(s, AfterLate(6))
    ensures Shows(Step(s, LATE[6]), AfterLate(7))
  {
    StepKeeps(s, LATE[6]);
    PickStart(s, 0, 30000);
    NormalFromStartStep(s, 0);
    var s1 := NormalFromStart(s, 0);
    assert s1.views == [On(Normal, 1)];
    assert s1.threads == [s.threads[0].(normalClients := true, normalAfter := false, prevp := Some(Head(Normal)))];
    ScanNext(s1, 0, 7);
    var s2 := NextState(s1, 0);
    StepFacts(s1, 0);
    assert s2.threads == s1.threads && s2.views == s1.views;
    assert Scan(s1, 0, To(7)) == Scan(s2, 0, Null);
    assert Step(s, LATE[6]) == PassEnd(s2, 0);
  }

  lemma LatePrompt(s: State)
    requires Shows(s, AfterLate(7))
    ensures Shows(Step(s, LATE[7]), AfterLate(8))
  {
    StepKeeps(s, LATE[7]);
    assert s.views[0].normal[0] == 7 && Passed(s.threads[0], s.views[0], 7);
    assert s.Resident(0, 7);
    assert s.views[0].prompted + {7} == {7};
    assert Step(s, LATE[7]) == MadeDue(s, 0, 7);
  }

  lemma LateWait(s: State, k: nat)
    requires (k == 2 || k == 8) && Shows(s, AfterLate(k))
    ensures Shows(Step(s, LATE[k]), AfterLate(k + 1))
  {
    hide WorkerOk;
    StepKeeps(s, LATE[k]);
  }

  lemma LateFirstPick(s: State)
    requires Shows(s, AfterLate(1))
    ensures Shows(Step(s, LATE[1]), AfterLate(2))
  {
    hide WorkerOk, Scan;
    StepKeeps(s, LATE[1]);
    PickStart(s, 0, 0);
    assert Step(s, LATE[1]) == PassEnd(Resynced(Rechecked(s, 0, 0), 0), 0);
  }

  lemma LateStart(s: State)
    requires Shows(s, AfterLate(4))
    ensures Shows(Step(s, LATE[4]), AfterLate(5))
  {
    hide WorkerOk;
    StepKeeps(s, LATE[4]);
    PickStart(s, 0, 30000);
    var s' := Resynced(Rechecked(s, 0, 30000), 0);
    FoundStep(s', 0, 7);
    assert Step(s, LATE[4]) == Found(s', 0, 7);
  }

  lemma LateStep(s: State, k: nat)
    requires 1 <= k < |LATE| && Shows(s, AfterLate(k))
    ensures Shows(Step(s, LATE[k]), AfterLate(k + 1))
  {
    hide Shows, Step, AfterLate;
    match k
    case 1 => LateFirstPick(s);
    case 3 => LateAdoption(s);
    case 4 => LateStart(s);
    case 5 => LateTurn(s);
    case 6 => LatePass(s);
    case 7 => LatePrompt(s);
    case _ => LateWait(s, k);
  }

  lemma {:induction false} LateSteps(s: State, k: nat)
    requires 1 <= k <= |LATE| && Shows(s, AfterLate(k))
    ensures Shows(Run(s, LATE[k..]), AfterLate(|LATE|))
    decreases |LATE| - k
  {
    hide Step, AfterLate;
    if k < |LATE| {
      StepKeeps(s, LATE[k]);
      LateStep(s, k);
      assert LATE[k..][1..] == LATE[k + 1..];
      LateSteps(Step(s, LATE[k]), k + 1);
    }
  }

  /** The worker sleeps for `ms` although `c`, which is on its normal list, was due before. */
  ghost predicate SleepingWhileDue(s: State, id: WorkerId, c: Node, ms: nat) {
    && s.Inv() && id < |s.workers|
    && s.threads[id].phase == Blocked && c in s.views[id].normal
    && c in s.scheduleMs && s.scheduleMs[c] < s.workers[id].timeMs
    && Duration(s.threads[id].wakeupMs, s.workers[id].timeMs) == ms
  }

  lemma LateAtLast(s: State)
    requires Shows(s, AfterLate(|LATE|))
    ensures SleepingWhileDue(s, 0, 7, 20000)
  {
  }

  /**
   From a server that has just started: the cursor passes a client that is due in 20
   seconds, a source on another worker makes the client due, and the worker goes to sleep
   for those 20 seconds.
   */
  lemma SleepsWhileDue()
    ensures Initial(1, {7}).Inv()
    ensures SleepingWhileDue(Run(Initial(1, {7}), LATE), 0, 7, 20000)
  {
    hide Initial, Step, State.Good, SleepingWhileDue, AfterLate;
    InitialOk(1, {7});
    var s := Initial(1, {7});
    StepKeeps(s, LATE[0]);
    LateArrival(s);
    LateSteps(Step(s, LATE[0]), 1);
    LateAtLast(Run(s, LATE));
  }
}
