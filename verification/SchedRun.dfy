/** Runs of operations on one CPU. */
module SchedRun {
  import opened RbStable
  import opened SchedState
  import opened SchedQueue
  import opened Sched

  /** The timer, a yield, a pass of the sleeper, a new thread, a thread that is woken, and one that goes to sleep. */
  datatype Event =
    | Preempt(time: nat, after: nat) | YieldTo(now: nat, after: nat) | Sleepers(time: nat)
    | Start(z: nat) | Rouse(z: nat, reason: nat) | Doze(ms: nat)

  /** What the callers of each operation see to. */
  ghost predicate Possible(s: State, e: Event) {
    && Settled(s)
    && match e
       case Preempt(_, _) => s.current != 0 ==> s.th[s.current].status != Sleeping
       case YieldTo(_, _) => s.current != 0
       case Sleepers(_) => s.sleep.items != []
       case Start(z) =>
         && 0 < z < |s.th| && z != s.current && z != s.idle && s.th[z].status == NotReady
         && z !in s.run.items && z !in s.sleep.items && z !in s.dead
       case Rouse(z, _) => 0 < z < |s.th| && !s.th[z].locked
       case Doze(_) => s.current != 0 && s.current != s.idle && s.th[s.current].status == Running
  }

  /** What each does to the run queue. */
  ghost function RunOps(s: State, e: Event): seq<Op>
    requires Possible(s, e)
  {
    match e
    case Preempt(time, _) => ScheduleOps(s, time)
    case YieldTo(now, _) => ScheduleOps(Choosing(s, e), now)
    case Sleepers(time) => WakeOps(s.th, s.th[s.sleep.items[0]].vruntime, time, s.sleep.items)
    case Start(z) => [Add(z, s.th[z].vruntime)]
    case Rouse(_, _) => []
    case Doze(_) => []
  }

  /** The state in which the next thread is chosen: a thread that yields to sleep has been queued before. */
  ghost function Choosing(s: State, e: Event): State
    requires Possible(s, e)
  {
    if e.YieldTo? && s.th[s.current].status == Sleeping then
      ParkFacts(s, e.now);
      Parked(s, e.now)
    else s
  }

  /** Whoever is at the front, but for killed threads, is dispatched. */
  ghost predicate Dispatched(s: State, e: Event, s': State)
    requires Possible(s, e)
  {
    e.Preempt? || e.YieldTo? ==> FrontNext(Choosing(s, e)) != 0 ==> s'.current == FrontNext(Choosing(s, e))
  }

  ghost predicate Served(s: State, e: Event, s': State) {
    Possible(s, e) && Settled(s') && Moved(s.run, RunOps(s, e), s'.run) && Dispatched(s, e, s')
  }

  lemma YieldServed(s: State, now: nat, after: nat, s': State)
    requires Possible(s, YieldTo(now, after)) && Settled(s')
    requires if s.th[s.current].status == Sleeping then exists mid :: Parks(s, mid, now) && Chosen(mid, s', now, after)
             else Chosen(s, s', now, after)
    ensures Served(s, YieldTo(now, after), s')
  {
  }

  lemma PreemptServed(s: State, time: nat, after: nat, s': State)
    requires Possible(s, Preempt(time, after)) && Settled(s') && Chosen(s, s', time, after)
    ensures Served(s, Preempt(time, after), s')
  {
  }

  method Serve(cpu: Cpu, e: Event)
    requires Possible(cpu.T(), e)
    modifies cpu
    ensures Served(old(cpu.T()), e, cpu.T())
  {
    ghost var was := cpu.T();
    match e
    case Preempt(time, after) =>
      cpu.Schedule(0, time, after);
      PreemptServed(was, time, after, cpu.T());
    case YieldTo(now, after) =>
      cpu.Yield(now, after);
      YieldServed(was, now, after, cpu.T());
    case Sleepers(time) =>
      cpu.SleeperPass(time);
    case Start(z) =>
      cpu.Spawn(z);
      MovedOne(was.run, Add(z, was.th[z].vruntime));
    case Rouse(z, reason) =>
      var woken := cpu.WakeUp(z, reason);
    case Doze(ms) =>
      cpu.PrepareSleep(ms);
  }

  // ----- whole runs

  /** states[i] is the state before event i. */
  ghost predicate History(states: seq<State>, events: seq<Event>) {
    && |states| == |events| + 1
    && forall i: nat {:trigger ServedAt(states, events, i)} | i < |events| :: ServedAt(states, events, i)
  }

  ghost predicate ServedAt(states: seq<State>, events: seq<Event>, i: nat) {
    i < |events| && i + 1 < |states| && Served(states[i], events[i], states[i + 1])
  }

  /** Thread z leaves the run queue, as it is dispatched or has been killed. */
  ghost predicate Leaves(states: seq<State>, events: seq<Event>, i: nat, z: nat) {
    i < |events| && i < |states| && Possible(states[i], events[i]) && Take(z) in RunOps(states[i], events[i])
  }

  /** Both wait, y before z. */
  ghost predicate WaitBehind(s: State, y: nat, z: nat) {
    Stable(s.run) && y in s.run.items && z in s.run.items && Earlier(s.run, y, z)
  }

  /** As long as y has not left the queue, z waits behind it. */
  lemma {:induction false} GoesOnWaiting(states: seq<State>, events: seq<Event>, n: nat, y: nat, z: nat)
    requires History(states, events) && WaitBehind(states[0], y, z) && n <= |events|
    requires forall j: nat {:trigger Leaves(states, events, j, y)} | j < n :: !Leaves(states, events, j, y)
    ensures WaitBehind(states[n], y, z)
  {
    if n != 0 {
      GoesOnWaiting(states, events, n - 1, y, z);
      assert ServedAt(states, events, n - 1) && !Leaves(states, events, n - 1, y);
      NoOvertaking(states[n - 1].run, RunOps(states[n - 1], events[n - 1]), y, z);
    }
  }

  /** Over any run: when z, which waited behind y, leaves the queue, y has left it, in the same operation or an earlier
      one. */
  lemma InOrder(states: seq<State>, events: seq<Event>, n: nat, y: nat, z: nat)
    requires History(states, events) && WaitBehind(states[0], y, z) && Leaves(states, events, n, z)
    ensures exists j: nat {:trigger Leaves(states, events, j, y)} :: j <= n && Leaves(states, events, j, y)
  {
    if forall j: nat {:trigger Leaves(states, events, j, y)} | j <= n :: !Leaves(states, events, j, y) {
      GoesOnWaiting(states, events, n, y, z);
      assert ServedAt(states, events, n) && !Leaves(states, events, n, y);
      NoOvertaking(states[n].run, RunOps(states[n], events[n]), y, z);
    }
  }

  /** A thread that is queued under the same key as one that waits already, or under a greater one, waits behind it. */
  lemma QueuedWaitsBehind(q: Queue, s: State, y: nat, z: nat, k: int)
    requires Stable(q) && Allowed(q, Add(z, k)) && y in q.items && q.key[y] <= k && s.run == Step(q, Add(z, k))
    ensures WaitBehind(s, y, z)
  {
    QueuedBehind(q, z, k, y);
    AddFacts(q, z, k);
  }

  /** The thread that is dispatched leaves the queue then. */
  lemma DispatchedLeaves(states: seq<State>, events: seq<Event>, i: nat)
    requires History(states, events) && i < |events| && (events[i].Preempt? || events[i].YieldTo?)
    requires Possible(states[i], events[i]) && FrontNext(Choosing(states[i], events[i])) != 0
    ensures Leaves(states, events, i, states[i + 1].current)
  {
    assert ServedAt(states, events, i);
    var s := Choosing(states[i], events[i]);
    FrontsHold(s.run.items, FrontCount(s), FrontKilled(s.run.items, s.th));
  }

  lemma {:induction false} FrontsHold(items: seq<nat>, n: nat, j: nat)
    requires j < n <= |items|
    ensures Take(items[j]) in Fronts(items, n)
  {
    if j != 0 {
      FrontsHold(items[1..], n - 1, j - 1);
    }
  }
}
