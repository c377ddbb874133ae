/** The threads of one CPU: who runs, who is ready and who sleeps. Both queues are trees over the same hook. */
module SchedState {
  import opened Sizes
  import opened RbThread
  import opened RbStable

  datatype Status = NotReady | Ready | Running | Sleeping | Killed

  datatype Option = None | Some(value: nat)

  /** `locked` is the thread's sleep lock, taken by `prepare_sleep` until the scheduler has switched away. */
  datatype Thread = Thread(status: Status, vruntime: nat, scheduleTime: nat, weight: nat,
                           sleepFor: Option, until: Option, reason: nat, locked: bool)

  /** Thread 0 stands for the null pointer. */
  datatype State = State(th: seq<Thread>, run: Queue, sleep: Queue, dead: seq<nat>, current: nat, idle: nat,
      reaper: nat)

  /** The order of the sleep queue: an empty optional comes before every time. */
  function Key(until: Option): int {
    if until == None then -1 else until.value
  }

  lemma KeyOrder(x: Option, y: Option)
    ensures Key(x) < Key(y) <==> y != None && (x == None || x.value < y.value)
  {
  }

  ghost predicate QueueOk(q: Queue, n: nat) {
    Stable(q) && |q.key| == n
  }

  // ----- the invariant

  /** Where a thread is. `held` is the thread that the scheduler has just taken from the run queue. */
  ghost predicate Placed(s: State, i: nat, held: nat) {
    && (i in s.run.items ==> i !in s.sleep.items && i !in s.dead && i != s.current && i != s.idle && i != held)
    && (i in s.sleep.items ==> i !in s.dead && i != s.idle && i != held)
    && (i in s.dead ==> i != s.current && i != s.idle && i != held)
    && (i == held ==> i != s.current && i != s.idle)
  }

  /** No thread is lost. */
  ghost predicate Somewhere(s: State, i: nat, held: nat) {
    i in s.run.items || i in s.sleep.items || i in s.dead || i == s.current || i == s.idle || i == held
  }

  ghost predicate ThreadOk(s: State, i: nat, held: nat) {
    0 < i < |s.th| && |s.run.key| == |s.sleep.key| == |s.th| ==>
      var t := s.th[i];
      && Placed(s, i, held)
      && t.weight > 0
      && (i in s.run.items ==> t.status in {Ready, Killed} && s.run.key[i] == t.vruntime && t.until == None)
      && (i in s.sleep.items ==> t.status in {Sleeping, Ready, Killed} && s.sleep.key[i] == Key(t.until))
      && (i in s.dead ==> t.status == Killed)
      && (i == held ==> t.status == Ready && t.until == None)
      && (i == s.current && i != s.idle ==> t.status in {Running, Sleeping, Killed})
      && (i == s.current && i in s.sleep.items ==> t.status == Sleeping && t.locked)
      && (i == s.current && i !in s.sleep.items ==> t.until == None)
      && (t.status == Sleeping ==> i in s.sleep.items || (i == s.current && t.locked))
      && (t.status == NotReady ==> t.until == None)
      && (t.locked ==> (i == s.current && t.status in {Sleeping, Killed}) || i in s.dead)
      && (t.status != NotReady ==> Somewhere(s, i, held))
  }

  ghost predicate Inv(s: State, held: nat) {
    && QueueOk(s.run, |s.th|) && QueueOk(s.sleep, |s.th|)
    && 0 < s.idle < |s.th| && s.current < |s.th| && s.reaper < |s.th| && held < |s.th|
    && (forall i {:trigger i in s.dead} | i in s.dead :: 0 < i < |s.th|)
    && s.th[s.idle].status in {Ready, Running} && s.th[s.idle].until == None
    && (s.current == s.idle ==> s.th[s.idle].status == Running)
    && forall i: nat {:trigger ThreadOk(s, i, held)} | 0 < i < |s.th| :: ThreadOk(s, i, held)
  }

  /** Between operations the running thread is in no queue. */
  ghost predicate Settled(s: State) {
    Inv(s, 0) && s.current !in s.sleep.items
  }

  // ----- queues

  lemma AddFacts(q: Queue, z: nat, k: int)
    requires Stable(q) && Allowed(q, Add(z, k))
    ensures var q' := Step(q, Add(z, k));
            && QueueOk(q', |q.key|) && q'.key == q.key[z := k]
            && forall i: nat {:trigger i in q'.items} :: i in q'.items <==> i == z || i in q.items
  {
    StepStable(q, Add(z, k));
    var p, q' := Place(q.items, q.key[z := k], k), Step(q, Add(z, k));
    assert q.items == q.items[..p] + q.items[p..];
    forall i: nat ensures i in q'.items <==> i == z || i in q.items {
    }
  }

  lemma Distinct(q: Queue, i: nat, j: nat)
    requires Stable(q) && i < j < |q.items|
    ensures q.items[i] != q.items[j]
  {
    assert Earlier(q, q.items[i], q.items[j]);
  }

  lemma TakeFacts(q: Queue, z: nat)
    requires Stable(q) && z in q.items
    ensures 0 < z < |q.key| && Allowed(q, Take(z))
    ensures var q' := Step(q, Take(z));
            && QueueOk(q', |q.key|) && q'.key == q.key
            && forall i: nat {:trigger i in q'.items} :: i in q'.items <==> i != z && i in q.items
  {
    StepStable(q, Take(z));
    var p, q' := Find(q.items, z), Step(q, Take(z));
    assert q.items == q.items[..p] + [z] + q.items[p + 1..];
    forall j: nat | j < |q'.items| ensures q'.items[j] != z {
      if j < p {
        Distinct(q, j, p);
      } else {
        Distinct(q, p, j + 1);
      }
    }
  }

  // ----- the steps

  function Enqueued(s: State, z: nat): State
    requires 0 < z < |s.th| && Allowed(s.run, Add(z, s.th[z].vruntime))
  {
    s.(th := s.th[z := s.th[z].(status := Ready)], run := Step(s.run, Add(z, s.th[z].vruntime)))
  }

  /** A thread that is nowhere yet, or has just run and been replaced, becomes ready. */
  lemma EnqueueKeeps(s: State, z: nat, held: nat)
    requires Inv(s, held) && 0 < z < |s.th| && z != s.current && z != s.idle && z != held
    requires z !in s.run.items && z !in s.sleep.items && z !in s.dead && s.th[z].until == None && !s.th[z].locked
    ensures Allowed(s.run, Add(z, s.th[z].vruntime)) && Inv(Enqueued(s, z), held)
  {
    AddFacts(s.run, z, s.th[z].vruntime);
    var s' := Enqueued(s, z);
    forall i: nat {:trigger ThreadOk(s', i, held)} | 0 < i < |s'.th| ensures ThreadOk(s', i, held) {
      assert ThreadOk(s, i, held);
    }
  }

  /** The running thread goes to the sleep queue, with the time at which it is due if it wants one; the sum is one of 64
      bits. */
  function Parked(s: State, now: nat): State
    requires 0 < s.current < |s.th| && Allowed(s.sleep, Add(s.current, Key(Due(s.th[s.current], now))))
  {
    var z, until := s.current, Due(s.th[s.current], now);
    s.(th := s.th[z := s.th[z].(until := until, sleepFor := None)], sleep := Step(s.sleep, Add(z, Key(until))))
  }

  function Due(t: Thread, now: nat): Option {
    if t.sleepFor == None then t.until else Some((now + t.sleepFor.value) % WRAP)
  }

  lemma ParkKeeps(s: State, now: nat)
    requires Settled(s) && s.current != 0 && s.current != s.idle && s.th[s.current].status == Sleeping
    ensures Allowed(s.sleep, Add(s.current, Key(Due(s.th[s.current], now)))) && Inv(Parked(s, now), 0)
  {
    assert ThreadOk(s, s.current, 0);
    AddFacts(s.sleep, s.current, Key(Due(s.th[s.current], now)));
    var s' := Parked(s, now);
    forall i: nat {:trigger ThreadOk(s', i, 0)} | 0 < i < |s'.th| ensures ThreadOk(s', i, 0) {
      assert ThreadOk(s, i, 0);
    }
  }

  /** A sleeper that is due, or has been woken without waiting for a time, becomes ready. */
  function Woken(s: State, z: nat, t: Thread): State
    requires 0 < z < |s.th| && Allowed(s.sleep, Take(z)) && Allowed(s.run, Add(z, t.vruntime))
  {
    s.(th := s.th[z := t], sleep := Step(s.sleep, Take(z)), run := Step(s.run, Add(z, t.vruntime)))
  }

  lemma WakeKeeps(s: State, z: nat, t: Thread)
    requires Settled(s) && z in s.sleep.items && t.status == Ready && t.until == None && t.weight > 0 && !t.locked
    ensures 0 < z < |s.th| && Allowed(s.sleep, Take(z)) && Allowed(s.run, Add(z, t.vruntime)) && Settled(Woken(s, z, t))
    ensures forall i: nat {:trigger i in Woken(s, z, t).sleep.items} ::
              i in Woken(s, z, t).sleep.items <==> i != z && i in s.sleep.items
    ensures forall i: nat {:trigger i in Woken(s, z, t).run.items} ::
              i in Woken(s, z, t).run.items <==> i == z || i in s.run.items
  {
    TakeFacts(s.sleep, z);
    assert ThreadOk(s, z, 0);
    AddFacts(s.run, z, t.vruntime);
    var s' := Woken(s, z, t);
    forall i: nat {:trigger ThreadOk(s', i, 0)} | 0 < i < |s'.th| ensures ThreadOk(s', i, 0) {
      assert ThreadOk(s, i, 0);
    }
  }

  /** A killed sleeper goes to the dead. */
  function Buried(s: State, z: nat): State
    requires 0 < z < |s.th| && Allowed(s.sleep, Take(z))
  {
    s.(sleep := Step(s.sleep, Take(z)), dead := s.dead + [z])
  }

  lemma BuryKeeps(s: State, z: nat)
    requires Settled(s) && z in s.sleep.items && s.th[z].status == Killed
    ensures 0 < z < |s.th| && Allowed(s.sleep, Take(z)) && Settled(Buried(s, z))
    ensures forall i: nat {:trigger i in Buried(s, z).sleep.items} ::
              i in Buried(s, z).sleep.items <==> i != z && i in s.sleep.items
  {
    TakeFacts(s.sleep, z);
    assert ThreadOk(s, z, 0);
    var s' := Buried(s, z);
    forall i: nat {:trigger ThreadOk(s', i, 0)} | 0 < i < |s'.th| ensures ThreadOk(s', i, 0) {
      assert ThreadOk(s, i, 0);
    }
  }

  // ----- parts of a switch

  /** A ready thread is taken from the run queue. */
  function Taken(s: State, z: nat): State
    requires Allowed(s.run, Take(z))
  {
    s.(run := Step(s.run, Take(z)))
  }

  lemma TakeKeeps(s: State, z: nat)
    requires Inv(s, 0) && z in s.run.items && s.th[z].status == Ready
    ensures Allowed(s.run, Take(z)) && Inv(Taken(s, z), z)
  {
    TakeFacts(s.run, z);
    var s' := Taken(s, z);
    forall i: nat {:trigger ThreadOk(s', i, z)} | 0 < i < |s'.th| ensures ThreadOk(s', i, z) {
      assert ThreadOk(s, i, 0);
    }
  }

  /** A killed thread leaves the run queue for the dead. */
  function Dropped(s: State, z: nat): State
    requires Allowed(s.run, Take(z))
  {
    s.(run := Step(s.run, Take(z)), dead := s.dead + [z])
  }

  lemma DropKeeps(s: State, z: nat)
    requires Inv(s, 0) && z in s.run.items && s.th[z].status == Killed
    ensures Allowed(s.run, Take(z)) && Inv(Dropped(s, z), 0) && s.current == Dropped(s, z).current
    ensures forall i: nat {:trigger i in Dropped(s, z).run.items} ::
              i in Dropped(s, z).run.items <==> i != z && i in s.run.items
  {
    TakeFacts(s.run, z);
    var s' := Dropped(s, z);
    forall i: nat {:trigger ThreadOk(s', i, 0)} | 0 < i < |s'.th| ensures ThreadOk(s', i, 0) {
      assert ThreadOk(s, i, 0);
    }
  }

  /** The thread that runs next, or the idle thread, takes the CPU; the one before has been put away. */
  function Dispatched(s: State, next: nat): State
    requires next < |s.th|
  {
    s.(th := s.th[next := s.th[next].(status := Running)], current := next)
  }

  /** `outgoing` is the thread that ran before; it may still be `current`, although it is in a queue or dead by now. */
  ghost predicate Leaving(s: State, held: nat) {
    && Inv(s.(current := 0), held)
    && s.current < |s.th|
  }

  lemma DispatchKeeps(s: State, held: nat)
    requires Leaving(s, held)
    ensures Settled(Dispatched(s, if held == 0 then s.idle else held))
  {
    var next := if held == 0 then s.idle else held;
    var s0, s' := s.(current := 0), Dispatched(s, next);
    assert ThreadOk(s0, next, held);
    forall i: nat {:trigger ThreadOk(s', i, 0)} | 0 < i < |s'.th| ensures ThreadOk(s', i, 0) {
      assert ThreadOk(s0, i, held);
    }
  }

  // ----- what happens to the thread that ran

  /** It is charged for the time it ran. */
  function Charged(s: State, v: nat): State
    requires s.current < |s.th|
  {
    s.(th := s.th[s.current := s.th[s.current].(vruntime := v)])
  }

  lemma ChargeKeeps(s: State, v: nat, held: nat)
    requires Inv(s, held) && s.current != 0 && s.current != s.idle
    ensures Inv(Charged(s, v), held)
  {
    var s' := Charged(s, v);
    forall i: nat {:trigger ThreadOk(s', i, held)} | 0 < i < |s'.th| ensures ThreadOk(s', i, held) {
      assert ThreadOk(s, i, held);
    }
  }

  /** A running thread goes back to the run queue. */
  lemma RequeueKeeps(s: State, held: nat)
    requires Inv(s, held) && s.current != 0 && s.current != s.idle && s.current !in s.sleep.items
             && !s.th[s.current].locked
    ensures Allowed(s.run, Add(s.current, s.th[s.current].vruntime)) && Leaving(Enqueued(s, s.current), held)
    ensures forall i: nat {:trigger i in Enqueued(s, s.current).run.items} ::
              i in Enqueued(s, s.current).run.items <==> i == s.current || i in s.run.items
  {
    var z := s.current;
    assert ThreadOk(s, z, held);
    AddFacts(s.run, z, s.th[z].vruntime);
    var s' := Enqueued(s, z).(current := 0);
    forall i: nat {:trigger ThreadOk(s', i, held)} | 0 < i < |s'.th| ensures ThreadOk(s', i, held) {
      assert ThreadOk(s, i, held);
    }
  }

  /** A thread that went to sleep can be woken from now on. */
  function Unlocked(s: State): State
    requires s.current < |s.th|
  {
    s.(th := s.th[s.current := s.th[s.current].(locked := false)])
  }

  lemma SleepKeeps(s: State, held: nat)
    requires Inv(s, held) && s.current != 0 && s.current != s.idle && s.current in s.sleep.items
    ensures Leaving(Unlocked(s), held)
  {
    assert ThreadOk(s, s.current, held);
    var s' := Unlocked(s).(current := 0);
    forall i: nat {:trigger ThreadOk(s', i, held)} | 0 < i < |s'.th| ensures ThreadOk(s', i, held) {
      assert ThreadOk(s, i, held);
    }
  }

  /** A killed one joins the dead. */
  lemma DieKeeps(s: State, held: nat)
    requires Inv(s, held) && s.current != 0 && s.current != s.idle && s.th[s.current].status == Killed
    ensures Leaving(s.(dead := s.dead + [s.current]), held)
  {
    assert ThreadOk(s, s.current, held);
    var s' := s.(dead := s.dead + [s.current], current := 0);
    forall i: nat {:trigger ThreadOk(s', i, held)} | 0 < i < |s'.th| ensures ThreadOk(s', i, held) {
      assert ThreadOk(s, i, held);
    }
  }

  lemma IdleLeaves(s: State, held: nat)
    requires Inv(s, held) && (s.current == 0 || s.current == s.idle)
    ensures Leaving(s, held)
  {
    var s' := s.(current := 0);
    forall i: nat {:trigger ThreadOk(s', i, held)} | 0 < i < |s'.th| ensures ThreadOk(s', i, held) {
      assert ThreadOk(s, i, held);
    }
  }

  lemma IdleStays(s: State)
    requires Leaving(s, 0) && s.current == s.idle && s.th[s.idle].status == Running
    ensures Settled(s)
  {
    assert ThreadOk(s.(current := 0), s.idle, 0);
    forall i: nat {:trigger ThreadOk(s, i, 0)} | 0 < i < |s.th| ensures ThreadOk(s, i, 0) {
      assert ThreadOk(s.(current := 0), i, 0);
    }
  }

  /** A sleeping thread becomes ready where it is. */
  lemma RouseKeeps(s: State, z: nat, reason: nat, held: nat)
    requires Inv(s, held) && 0 < z < |s.th| && s.th[z].status == Sleeping && z in s.sleep.items && z != s.current
    ensures Inv(s.(th := s.th[z := s.th[z].(status := Ready, reason := reason)]), held)
  {
    assert ThreadOk(s, z, held);
    var s' := s.(th := s.th[z := s.th[z].(status := Ready, reason := reason)]);
    forall i: nat {:trigger ThreadOk(s', i, held)} | 0 < i < |s'.th| ensures ThreadOk(s', i, held) {
      assert ThreadOk(s, i, held);
    }
  }

  lemma StampKeeps(s: State, z: nat, time: nat)
    requires Settled(s) && z < |s.th|
    ensures Settled(s.(th := s.th[z := s.th[z].(scheduleTime := time)]))
  {
    var s' := s.(th := s.th[z := s.th[z].(scheduleTime := time)]);
    forall i: nat {:trigger ThreadOk(s', i, 0)} | 0 < i < |s'.th| ensures ThreadOk(s', i, 0) {
      assert ThreadOk(s, i, 0);
    }
  }

  /** Threads other than the idle one may be killed at any time. */
  lemma KillKeeps(s: State, z: nat)
    requires Settled(s) && 0 < z < |s.th| && z != s.idle && s.th[z].status != NotReady
    ensures Settled(s.(th := s.th[z := s.th[z].(status := Killed)]))
  {
    var s' := s.(th := s.th[z := s.th[z].(status := Killed)]);
    forall i: nat {:trigger ThreadOk(s', i, 0)} | 0 < i < |s'.th| ensures ThreadOk(s', i, 0) {
      assert ThreadOk(s, i, 0);
    }
  }

  /** No thread is in both queues, the running thread is in neither, and a queued thread has the key under which it was
      queued. */
  lemma OneHook(s: State, i: nat)
    requires Settled(s) && 0 < i < |s.th|
    ensures !(i in s.run.items && i in s.sleep.items)
    ensures i == s.current ==> i !in s.run.items && i !in s.sleep.items
    ensures i in s.run.items ==> s.run.key[i] == s.th[i].vruntime
    ensures i in s.sleep.items ==> s.sleep.key[i] == Key(s.th[i].until)
    ensures s.th[i].status == NotReady || Somewhere(s, i, 0)
  {
    assert ThreadOk(s, i, 0);
  }
}
