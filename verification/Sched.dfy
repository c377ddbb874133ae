/** The scheduler of one CPU. */
module Sched {
  import opened Sizes
  import opened RbThread
  import opened RbStable
  import opened SchedState
  import opened SchedQueue
  import opened SchedCharge

  /** A sleeper with a time that has come. */
  predicate IsDue(t: Thread, time: nat) {
    t.until != None && t.until.value <= time
  }

  /** A sleeper that somebody has woken, and that waits for no time. */
  predicate IsRoused(t: Thread) {
    t.until == None && t.status == Ready
  }

  predicate IsCorpse(t: Thread) {
    t.until == None && t.status == Killed
  }

  predicate StaysAsleep(t: Thread, time: nat) {
    !IsDue(t, time) && !IsRoused(t) && !IsCorpse(t)
  }

  // ----- a pass of the sleeper

  function Rested(t: Thread, v: nat): Thread {
    t.(until := None, status := Ready, reason := 0, vruntime := v)
  }

  /** What has become of thread z when the first k of the sleepers have been looked at. */
  ghost predicate PassedAt(was: State, now: State, v: nat, time: nat, k: nat, z: nat)
    requires k <= |was.sleep.items| && |now.th| == |was.th|
  {
    var asleep, seen := z in was.sleep.items, z in was.sleep.items[..k];
    z < |was.th| ==>
      && (z in now.sleep.items <==> asleep && (!seen || StaysAsleep(was.th[z], time)))
      && (z in now.run.items <==> z in was.run.items || (seen && (IsDue(was.th[z], time) || IsRoused(was.th[z]))))
      && (z in now.dead <==> z in was.dead || (seen && IsCorpse(was.th[z])))
      && now.th[z] == if seen && IsDue(was.th[z], time) then Rested(was.th[z], v) else was.th[z]
  }

  ghost predicate Passed(was: State, now: State, v: nat, time: nat, k: nat) {
    && k <= |was.sleep.items| && |now.th| == |was.th|
    && forall z: nat {:trigger PassedAt(was, now, v, time, k, z)} :: PassedAt(was, now, v, time, k, z)
  }

  /** What the pass queues for a sleeper: it is due, or somebody has woken it. */
  function WakeOp(t: Thread, z: nat, v: nat, time: nat): seq<Op> {
    if IsDue(t, time) then [Add(z, v)] else if IsRoused(t) then [Add(z, t.vruntime)] else []
  }

  /** Sleepers become ready in the order of the sleep queue. */
  function WakeOps(th: seq<Thread>, v: nat, time: nat, items: seq<nat>): seq<Op>
    requires Within(items, |th|)
  {
    if items == [] then []
    else
      var n := |items| - 1;
      WakeOps(th, v, time, items[..n]) + WakeOp(th[items[n]], items[n], v, time)
  }

  /** The others stay, in their order. */
  function Remaining(th: seq<Thread>, time: nat, items: seq<nat>): seq<nat>
    requires Within(items, |th|)
  {
    if items == [] then []
    else
      var n := |items| - 1;
      Remaining(th, time, items[..n]) + if StaysAsleep(th[items[n]], time) then [items[n]] else []
  }

  /** How the two queues have developed when the first k of the sleepers have been looked at, and `it` of them are
      left. */
  ghost predicate QueuesPassed(was: State, now: State, v: nat, time: nat, k: nat, it: nat) {
    && k <= |was.sleep.items| && Within(was.sleep.items, |was.th|) && it <= |now.sleep.items|
    && Moved(was.run, WakeOps(was.th, v, time, was.sleep.items[..k]), now.run)
    && now.sleep == was.sleep.(items := now.sleep.items)
    && now.sleep.items[..it] == Remaining(was.th, time, was.sleep.items[..k])
    && now.sleep.items[it..] == was.sleep.items[k..]
  }

  /** How one sleeper changes them. */
  ghost predicate QueuesStep(now: State, now': State, v: nat, time: nat, it: nat, it': nat) {
    && it < |now.sleep.items| && now.sleep.items[it] < |now.th| && it' <= |now'.sleep.items|
    && var z := now.sleep.items[it];
       && Moved(now.run, WakeOp(now.th[z], z, v, time), now'.run)
       && now'.sleep == now.sleep.(items := now'.sleep.items)
       && now'.sleep.items[..it'] == now.sleep.items[..it] + (if StaysAsleep(now.th[z], time) then [z] else [])
       && now'.sleep.items[it'..] == now.sleep.items[it + 1..]
  }

  lemma QueuesPassOne(was: State, now: State, now': State, v: nat, time: nat, k: nat, it: nat, it': nat)
    requires QueuesPassed(was, now, v, time, k, it) && QueuesStep(now, now', v, time, it, it') && k < |was.sleep.items|
    requires now.th[now.sleep.items[it]] == was.th[was.sleep.items[k]]
    ensures QueuesPassed(was, now', v, time, k + 1, it')
  {
    var items, z := was.sleep.items[..k + 1], was.sleep.items[k];
    assert now.sleep.items[it] == now.sleep.items[it..][0] == z;
    assert items[..k] == was.sleep.items[..k] && items[k] == z;
    assert now.sleep.items[it + 1..] == now.sleep.items[it..][1..] == was.sleep.items[k + 1..];
    MovedMore(was.run, WakeOps(was.th, v, time, items[..k]), now.run, WakeOp(was.th[z], z, v, time), now'.run);
  }

  lemma QueuesStart(was: State, v: nat, time: nat)
    requires Within(was.sleep.items, |was.th|)
    ensures QueuesPassed(was, was, v, time, 0, 0)
  {
  }

  /** From the k-th sleeper on, all stay asleep. */
  lemma {:induction false} RestWakesNone(th: seq<Thread>, v: nat, time: nat, items: seq<nat>, k: nat)
    requires Within(items, |th|) && k <= |items|
    requires forall j {:trigger items[j]} | k <= j < |items| :: StaysAsleep(th[items[j]], time)
    ensures WakeOps(th, v, time, items) == WakeOps(th, v, time, items[..k])
  {
    if k == |items| {
      assert items[..k] == items;
    } else {
      var shorter := items[..|items| - 1];
      RestWakesNone(th, v, time, shorter, k);
      assert shorter[..k] == items[..k];
    }
  }

  lemma {:induction false} RestRemains(th: seq<Thread>, time: nat, items: seq<nat>, k: nat)
    requires Within(items, |th|) && k <= |items|
    requires forall j {:trigger items[j]} | k <= j < |items| :: StaysAsleep(th[items[j]], time)
    ensures Remaining(th, time, items) == Remaining(th, time, items[..k]) + items[k..]
  {
    if k == |items| {
      assert items[..k] == items;
    } else {
      var shorter := items[..|items| - 1];
      RestRemains(th, time, shorter, k);
      assert shorter[..k] == items[..k];
      assert shorter[k..] + [items[|items| - 1]] == items[k..];
    }
  }

  lemma QueuesEnd(was: State, now: State, v: nat, time: nat, k: nat, it: nat)
    requires Settled(was) && QueuesPassed(was, now, v, time, k, it) && StopsAt(was, time, k)
    ensures Moved(was.run, WakeOps(was.th, v, time, was.sleep.items), now.run)
    ensures now.sleep == was.sleep.(items := Remaining(was.th, time, was.sleep.items))
  {
    forall j {:trigger was.sleep.items[j]} | k <= j < |was.sleep.items|
      ensures StaysAsleep(was.th[was.sleep.items[j]], time) {
      BehindNotDue(was, time, k, j);
    }
    RestWakesNone(was.th, v, time, was.sleep.items, k);
    RestRemains(was.th, time, was.sleep.items, k);
    assert now.sleep.items == now.sleep.items[..it] + now.sleep.items[it..];
  }

  lemma NotYetPassed(was: State, now: State, v: nat, time: nat, k: nat)
    requires Settled(was) && Passed(was, now, v, time, k) && k < |was.sleep.items|
    ensures var z := was.sleep.items[k];
            0 < z < |was.th| && z !in was.sleep.items[..k] && z in now.sleep.items && now.th[z] == was.th[z]
            && was.th[z].status != Running && was.th[z].status != NotReady
  {
    var z := was.sleep.items[k];
    forall j: nat | j < k ensures was.sleep.items[..k][j] != z {
      Distinct(was.sleep, j, k);
    }
    assert PassedAt(was, now, v, time, k, z) && ThreadOk(was, z, 0);
  }

  /** The k-th sleeper, and only that one, has been dealt with. */
  ghost predicate OneMore(was: State, now: State, now': State, v: nat, time: nat, z: nat)
    requires z < |now.th|
  {
    var t := now.th[z];
    && |now'.th| == |now.th| && now'.th == now.th[z := if IsDue(t, time) then Rested(t, v) else t]
    && (forall i: nat {:trigger i in now'.sleep.items} ::
          i in now'.sleep.items <==> i in now.sleep.items && (i != z || StaysAsleep(t, time)))
    && (forall i: nat {:trigger i in now'.run.items} ::
          i in now'.run.items <==> i in now.run.items || (i == z && (IsDue(t, time) || IsRoused(t))))
    && (forall i: nat {:trigger i in now'.dead} :: i in now'.dead <==> i in now.dead || (i == z && IsCorpse(t)))
  }

  lemma PassStepAt(was: State, now: State, now': State, v: nat, time: nat, k: nat, i: nat)
    requires Settled(was) && Passed(was, now, v, time, k) && k < |was.sleep.items|
    requires was.sleep.items[k] < |now.th| && OneMore(was, now, now', v, time, was.sleep.items[k])
    ensures PassedAt(was, now', v, time, k + 1, i)
  {
    var z := was.sleep.items[k];
    NotYetPassed(was, now, v, time, k);
    assert was.sleep.items[..k + 1] == was.sleep.items[..k] + [z];
    assert PassedAt(was, now, v, time, k, i);
  }

  lemma PassStep(was: State, now: State, now': State, v: nat, time: nat, k: nat)
    requires Settled(was) && Passed(was, now, v, time, k) && k < |was.sleep.items|
    requires was.sleep.items[k] < |now.th| && OneMore(was, now, now', v, time, was.sleep.items[k])
    ensures Passed(was, now', v, time, k + 1)
  {
    var k1 := k + 1;
    forall i: nat {:trigger PassedAt(was, now', v, time, k1, i)} ensures PassedAt(was, now', v, time, k1, i) {
      PassStepAt(was, now, now', v, time, k, i);
    }
  }

  lemma BeginKeeps(was: State, now: State, v: nat, time: nat, k: nat)
    requires Settled(was) && Passed(was, now, v, time, k) && was.sleep.items != []
    requires was.sleep.items[0] < |was.th| && v == was.th[was.sleep.items[0]].vruntime
    ensures now.th[was.sleep.items[0]].vruntime == v
  {
    assert PassedAt(was, now, v, time, k, was.sleep.items[0]);
  }

  lemma TakeAt(q: Queue, p: nat)
    requires Stable(q) && p < |q.items|
    ensures Allowed(q, Take(q.items[p])) && Step(q, Take(q.items[p])).items == q.items[..p] + q.items[p + 1..]
  {
    TakeFacts(q, q.items[p]);
    forall i | 0 <= i < p ensures q.items[i] != q.items[p] {
      Distinct(q, i, p);
    }
    FindIs(q.items, p);
  }

  /** The sleeper at k, and so all behind it, are not due. */
  ghost predicate StopsAt(was: State, time: nat, k: nat) {
    k < |was.sleep.items| ==>
      var z := was.sleep.items[k];
      z < |was.th| && was.th[z].until != None && time < was.th[z].until.value
  }

  /** When a sleeper's time has not come, neither has that of those behind it. */
  lemma RestNotDue(was: State, time: nat, k: nat, z: nat)
    requires Settled(was) && k <= |was.sleep.items| && StopsAt(was, time, k)
    requires z in was.sleep.items && z !in was.sleep.items[..k]
    ensures z < |was.th| && was.th[z].until != None && time < was.th[z].until.value
  {
    var q := was.sleep;
    assert q.items == q.items[..k] + q.items[k..];
    var n :| 0 <= n < |q.items[k..]| && q.items[k..][n] == z;
    BehindNotDue(was, time, k, k + n);
  }

  lemma BehindNotDue(was: State, time: nat, k: nat, j: nat)
    requires Settled(was) && k <= j < |was.sleep.items| && StopsAt(was, time, k)
    ensures var z := was.sleep.items[j]; z < |was.th| && was.th[z].until != None && time < was.th[z].until.value
  {
    var q := was.sleep;
    assert ThreadOk(was, q.items[j], 0) && ThreadOk(was, q.items[k], 0);
    assert k < j ==> Earlier(q, q.items[k], q.items[j]);
  }

  /** The pass from the state it found to the state it leaves. */
  ghost predicate PassDone(was: State, now: State, v: nat, time: nat, z: nat)
    requires |now.th| == |was.th|
  {
    var asleep := z in was.sleep.items;
    z < |was.th| ==>
      && (z in now.sleep.items <==> asleep && StaysAsleep(was.th[z], time))
      && (z in now.run.items <==> z in was.run.items || (asleep && (IsDue(was.th[z], time) || IsRoused(was.th[z]))))
      && (z in now.dead <==> z in was.dead || (asleep && IsCorpse(was.th[z])))
      && now.th[z] == if asleep && IsDue(was.th[z], time) then Rested(was.th[z], v) else was.th[z]
  }

  lemma PassEnds(was: State, now: State, v: nat, time: nat, k: nat)
    requires Settled(was) && Passed(was, now, v, time, k) && StopsAt(was, time, k)
    ensures forall z: nat {:trigger PassDone(was, now, v, time, z)} :: PassDone(was, now, v, time, z)
  {
    forall z: nat ensures PassDone(was, now, v, time, z) {
      assert PassedAt(was, now, v, time, k, z);
      assert z in was.sleep.items[..k] ==> z in was.sleep.items;
      if z in was.sleep.items && z !in was.sleep.items[..k] {
        RestNotDue(was, time, k, z);
      }
    }
  }

  /** What has become of a sleeper: who slept until now or an earlier time is ready, with the virtual time v; who sleeps
      until a later time has been left alone; and who sleeps without a time goes where its status belongs. */
  ghost predicate HasPassed(was: State, now: State, v: nat, time: nat, z: nat)
    requires |now.th| == |was.th| && z < |was.th|
  {
    var t := was.th[z];
    if t.until != None && t.until.value <= time then
      && z in now.run.items && z !in now.sleep.items
      && now.th[z] == t.(until := None, status := Ready, reason := 0, vruntime := v)
    else
      && now.th[z] == t
      && (t.until != None || t.status == Sleeping ==> z in now.sleep.items)
      && (t.until == None && t.status == Ready ==> z in now.run.items && z !in now.sleep.items)
      && (t.until == None && t.status == Killed ==> z in now.dead && z !in now.sleep.items)
  }

  ghost predicate OnTime(was: State, now: State, v: nat, time: nat)
    requires |now.th| == |was.th|
  {
    forall z: nat {:trigger z in was.sleep.items} | z in was.sleep.items && z < |was.th| ::
      HasPassed(was, now, v, time, z)
  }

  lemma PassOnTime(was: State, now: State, v: nat, time: nat)
    requires |now.th| == |was.th|
    requires forall z: nat {:trigger PassDone(was, now, v, time, z)} :: PassDone(was, now, v, time, z)
    ensures OnTime(was, now, v, time)
  {
    forall z: nat | z in was.sleep.items && z < |was.th| ensures HasPassed(was, now, v, time, z) {
      assert PassDone(was, now, v, time, z);
    }
  }

  class Cpu {
    var th: seq<Thread>
    var run: Queue
    var sleep: Queue
    var dead: seq<nat>
    var current: nat
    var idle: nat
    var reaper: nat

    ghost function T(): State
      reads this
    {
      State(th, run, sleep, dead, current, idle, reaper)
    }

    /** No thread runs yet, and none but the idle thread is there. */
    constructor (threads: seq<Thread>, idle: nat)
      requires 0 < idle < |threads|
      requires forall i: nat {:trigger threads[i]} | i < |threads| ::
                 threads[i].status == (if i == idle then Ready else NotReady) && threads[i].until == None
                   && threads[i].weight > 0 && !threads[i].locked
      ensures Settled(T()) && th == threads && current == 0 && this.idle == idle
    {
      th, this.idle := threads, idle;
      run := Queue([], seq(|threads|, _ => 0), seq(|threads|, _ => 0), 0);
      sleep := Queue([], seq(|threads|, _ => 0), seq(|threads|, _ => 0), 0);
      dead, current, reaper := [], 0, 0;
    }

    // ----- sleeping and waking

    /** `prepare_sleep`, by the running thread. */
    method PrepareSleep(ms: nat)
      requires Settled(T()) && current != 0 && current != idle && th[current].status == Running
      modifies `th
      ensures Settled(T()) && !old(th)[current].locked
      ensures th == old(th)[current := old(th)[current].(status := Sleeping, locked := true,
                                                         sleepFor := if ms != 0 then Some(ms * 1_000_000 % WRAP)
                                                                     else None)]
    {
      assert ThreadOk(T(), current, 0);
      ghost var was := T();
      th := th[current := th[current].(status := Sleeping, locked := true,
                                       sleepFor := if ms != 0 then Some(ms * 1_000_000 % WRAP) else None)];
      forall i: nat {:trigger ThreadOk(T(), i, 0)} | 0 < i < |th| ensures ThreadOk(T(), i, 0) {
        assert ThreadOk(was, i, 0);
      }
    }

    /** `wake_up` of any thread, once its sleep lock is free. */
    method WakeUp(z: nat, reason: nat) returns (woken: bool)
      requires Settled(T()) && 0 < z < |th| && !th[z].locked
      modifies `th
      ensures Settled(T()) && woken == (old(th)[z].status == Sleeping)
      ensures th == if woken then old(th)[z := old(th)[z].(status := Ready, reason := reason)] else old(th)
    {
      assert ThreadOk(T(), z, 0);
      if th[z].status != Sleeping {
        return false;
      }
      RouseKeeps(T(), z, reason, 0);
      th := th[z := th[z].(status := Ready, reason := reason)];
      woken := true;
    }

    /** `enqueue` of a new thread that `spawn_on` has just made ready. */
    method Spawn(z: nat)
      requires Settled(T()) && 0 < z < |th| && z != current && z != idle && th[z].status == NotReady
      requires z !in run.items && z !in sleep.items && z !in dead
      modifies `th, `run
      ensures Settled(T()) && z in run.items && th == old(th)[z := old(th)[z].(status := Ready)]
      ensures Allowed(old(run), Add(z, old(th)[z].vruntime)) && run == Step(old(run), Add(z, old(th)[z].vruntime))
    {
      assert ThreadOk(T(), z, 0);
      EnqueueKeeps(T(), z, 0);
      AddFacts(run, z, th[z].vruntime);
      th := th[z := th[z].(status := Ready)];
      run := Step(run, Add(z, th[z].vruntime));
    }

    // ----- a pass of the sleeper

    method Wake(z: nat, v: nat)
      requires Settled(T()) && z in sleep.items && th[z].until != None
      modifies this
      ensures Settled(T()) && Allowed(old(sleep), Take(z)) && sleep == Step(old(sleep), Take(z)) && dead == old(dead)
      ensures (current, idle, reaper) == old((current, idle, reaper)) && Moved(old(run), [Add(z, v)], run)
      ensures forall i: nat {:trigger i in run.items} :: i in run.items <==> i == z || i in old(run.items)
      ensures |th| == |old(th)| && th == old(th)[z := Rested(old(th)[z], v)]
    {
      assert ThreadOk(T(), z, 0);
      WakeKeeps(T(), z, Rested(th[z], v));
      sleep := Step(sleep, Take(z));
      th := th[z := Rested(th[z], v)];
      MovedOne(run, Add(z, v));
      run := Step(run, Add(z, th[z].vruntime));
    }

    method MoveReady(z: nat)
      requires Settled(T()) && z in sleep.items && IsRoused(th[z])
      modifies `sleep, `run
      ensures Settled(T()) && Allowed(old(sleep), Take(z)) && sleep == Step(old(sleep), Take(z))
      ensures forall i: nat {:trigger i in run.items} :: i in run.items <==> i == z || i in old(run.items)
      ensures Moved(old(run), [Add(z, th[z].vruntime)], run)
    {
      assert ThreadOk(T(), z, 0);
      WakeKeeps(T(), z, th[z]);
      MovedOne(run, Add(z, th[z].vruntime));
      assert th == th[z := th[z]];
      sleep := Step(sleep, Take(z));
      run := Step(run, Add(z, th[z].vruntime));
    }

    method Bury(z: nat)
      requires Settled(T()) && z in sleep.items && IsCorpse(th[z])
      modifies `sleep, `dead
      ensures Settled(T()) && Allowed(old(sleep), Take(z)) && sleep == Step(old(sleep), Take(z))
              && dead == old(dead) + [z]
    {
      BuryKeeps(T(), z);
      sleep := Step(sleep, Take(z));
      dead := dead + [z];
    }

    method PassReady(it: nat, ghost v: nat, ghost time: nat)
      requires Settled(T()) && it < |sleep.items| && sleep.items[it] < |th| && IsRoused(th[sleep.items[it]])
      modifies `sleep, `run
      ensures Settled(T()) && QueuesStep(old(T()), T(), v, time, it, it)
      ensures OneMore(old(T()), old(T()), T(), v, time, old(sleep.items)[it])
    {
      var z := sleep.items[it];
      TakeFacts(sleep, z);
      TakeAt(sleep, it);
      assert th == th[z := th[z]];
      MoveReady(z);
    }

    method PassCorpse(it: nat, ghost v: nat, ghost time: nat)
      requires Settled(T()) && it < |sleep.items| && sleep.items[it] < |th| && IsCorpse(th[sleep.items[it]])
      modifies `sleep, `dead
      ensures Settled(T()) && QueuesStep(old(T()), T(), v, time, it, it)
      ensures OneMore(old(T()), old(T()), T(), v, time, old(sleep.items)[it])
    {
      var z := sleep.items[it];
      TakeFacts(sleep, z);
      TakeAt(sleep, it);
      assert th == th[z := th[z]];
      Bury(z);
    }

    /** What the pass does with the sleeper at `it` when it waits for no time. */
    method PassUntimed(it: nat, ghost v: nat, ghost time: nat) returns (it': nat)
      requires Settled(T()) && it < |sleep.items| && sleep.items[it] < |th| && th[sleep.items[it]].until == None
      modifies `sleep, `run, `dead
      ensures Settled(T()) && QueuesStep(old(T()), T(), v, time, it, it')
      ensures OneMore(old(T()), old(T()), T(), v, time, old(sleep.items)[it])
    {
      var z := sleep.items[it];
      it' := it;
      assert th == th[z := th[z]];
      if th[z].status == Ready {
        PassReady(it, v, time);
      } else if th[z].status == Killed {
        PassCorpse(it, v, time);
      } else {
        it' := it + 1;
      }
    }

    /** What the pass does with the sleeper at `it`; `stop` when its time, and that of all behind it, has not come. */
    method PassOne(it: nat, begin: nat, time: nat) returns (it': nat, stop: bool)
      requires Settled(T()) && it < |sleep.items| && sleep.items[it] < |th| && begin < |th|
      requires th[sleep.items[it]].status != Running
      modifies this
      ensures Settled(T()) && (current, idle, reaper) == old((current, idle, reaper))
      ensures stop ==> T() == old(T()) && th[sleep.items[it]].until != None && time < th[sleep.items[it]].until.value
      ensures !stop ==> QueuesStep(old(T()), T(), old(th)[begin].vruntime, time, it, it')
      ensures !stop ==> OneMore(old(T()), old(T()), T(), old(th)[begin].vruntime, time, old(sleep.items)[it])
    {
      var z := sleep.items[it];
      it', stop := it, false;
      if th[z].until == None {
        it' := PassUntimed(it, th[begin].vruntime, time);
      } else if time < th[z].until.value {
        stop := true;
      } else {
        TakeFacts(sleep, z);
        TakeAt(sleep, it);
        Wake(z, th[begin].vruntime);
      }
    }

    /** One pass of `sleeper` over the sleep queue, at a time: every sleeper that is due and every one that has been
        woken and waits for no time becomes ready, and no other; killed ones go to the dead. */
    method SleeperPass(time: nat)
      requires Settled(T()) && sleep.items != []
      modifies this
      ensures Settled(T()) && (current, idle, reaper) == old((current, idle, reaper)) && |th| == |old(th)|
      ensures old(sleep.items[0]) < |old(th)|
      ensures forall z: nat {:trigger PassDone(old(T()), T(), old(th)[old(sleep.items[0])].vruntime, time, z)} ::
                PassDone(old(T()), T(), old(th)[old(sleep.items[0])].vruntime, time, z)
      ensures OnTime(old(T()), T(), old(th)[old(sleep.items[0])].vruntime, time)
      ensures Moved(old(run), WakeOps(old(th), old(th)[old(sleep.items[0])].vruntime, time, old(sleep.items)), run)
      ensures sleep == old(sleep).(items := Remaining(old(th), time, old(sleep.items)))
    {
      ghost var was := T();
      var begin := sleep.items[0];
      assert ThreadOk(was, begin, 0);
      ghost var v := th[begin].vruntime;
      var it: nat := 0;
      ghost var k := 0;
      QueuesStart(was, v, time);
      while it < |sleep.items|
        invariant k <= |was.sleep.items| && it <= |sleep.items| && Settled(T())
        invariant (current, idle, reaper) == (was.current, was.idle, was.reaper)
        invariant QueuesPassed(was, T(), v, time, k, it) && Passed(was, T(), v, time, k)
        decreases |was.sleep.items| - k
      {
        ghost var now := T();
        assert sleep.items[it] == sleep.items[it..][0] == was.sleep.items[k];
        NotYetPassed(was, now, v, time, k);
        BeginKeeps(was, now, v, time, k);
        var next, stop := PassOne(it, begin, time);
        if stop {
          break;
        }
        QueuesPassOne(was, now, T(), v, time, k, it, next);
        it := next;
        PassStep(was, now, T(), v, time, k);
        k := k + 1;
      }
      PassEnds(was, T(), v, time, k);
      PassOnTime(was, T(), v, time);
      QueuesEnd(was, T(), v, time, k, it);
    }

    // ----- the switch

    /** The search has come to a ready thread. */
    method TakeNext(ghost was: State, ghost d: nat)
      requires Inv(was, 0) && Inv(T(), 0) && Searching(was, T(), d)
      requires run.items != [] && th[run.items[0]].status == Ready
      modifies `run
      ensures Inv(T(), old(run.items[0])) && Found(was, T(), old(run.items[0]))
      ensures old(run.items[0]) == FrontNext(was) && T() == Searched(was)
    {
      TakeKeeps(T(), run.items[0]);
      FoundHead(was, T(), d);
      SearchEnds(was, T(), d);
      run := Step(run, Take(run.items[0]));
    }

    /** It has come to a killed one. */
    method DropNext(ghost was: State, ghost d: nat)
      requires Inv(was, 0) && Inv(T(), 0) && Searching(was, T(), d)
      requires run.items != [] && th[run.items[0]].status == Killed
      modifies `run, `dead
      ensures Inv(T(), 0) && Searching(was, T(), d + 1)
    {
      var z := run.items[0];
      DropKeeps(T(), z);
      SearchOn(was, T(), d);
      run := Step(run, Take(z));
      dead := dead + [z];
    }

    /** The first loop of `schedule`: the first ready thread leaves the run queue, and killed ones before it are
        dropped. */
    method FindNext() returns (next: nat, found: bool)
      requires Inv(T(), 0)
      modifies `run, `dead
      ensures Inv(T(), next) && Found(old(T()), T(), next)
      ensures next == FrontNext(old(T())) && T() == Searched(old(T())) && (found <==> dead != old(dead))
    {
      ghost var was, d := T(), 0;
      next, found := 0, false;
      while run.items != []
        invariant Inv(T(), 0) && Searching(was, T(), d) && (found <==> d > 0)
        decreases |was.run.items| - d
      {
        // the queue holds ready and killed threads only, so that the first one is always taken out
        var z := run.items[0];
        HeadOfSearch(was, T(), d);
        if th[z].status == Ready {
          next := z;
          TakeNext(was, d);
          return;
        }
        DropNext(was, d);
        found := true;
        d := d + 1;
      }
      NothingFound(was, T(), d);
      SearchEnds(was, T(), d);
    }

    /** A thread other than the idle one, that has not died, is charged for the time it ran. */
    method Charge(next0: nat, time: nat) returns (next: nat)
      requires Inv(T(), next0) && current != 0 && current != idle && th[current].status != Killed
               && th[current].weight > 0
      requires th[current].status == Sleeping ==> current in sleep.items
      requires current !in run.items && current != next0 && (th[current].status == Running ==> current !in sleep.items)
      requires th[current].status in {Running, Sleeping} && (th[current].status == Running ==> !th[current].locked)
      modifies `th, `run
      ensures if KeepsRunning(old(T()), next0) then next == current && Inv(T(), 0) && run == old(run)
              else next == next0 && Leaving(T(), next)
      ensures ComesBack(old(T()), next0, time, run)
      ensures th == old(th)[current := Outgoing(old(T()), next0, time)]
      ensures FairlyCharged(old(th)[current], th[current].vruntime, time)
    {
      next := if next0 == 0 && th[current].status == Running then current else next0;
      ghost var was := T();
      ChargeIsFair(th[current], time);
      var v := Vruntime(th[current], time);
      ChargeKeeps(T(), v, next0);
      th := th[current := th[current].(vruntime := v)];
      assert T() == Charged(was, v);
      if th[current].status == Sleeping {
        SleepKeeps(T(), next0);
        th := th[current := th[current].(locked := false)];
      } else if next != current {
        RequeueKeeps(T(), next0);
        th := th[current := th[current].(status := Ready)];
        run := Step(run, Add(current, th[current].vruntime));
      }
    }

    /** What `schedule` does with the thread that ran, when `next` is to run, or 0: it keeps running, goes back to the
        run queue, or is left where it has gone to sleep or died. */
    method PutAway(next0: nat, found0: bool, time: nat) returns (next: nat, found: bool)
      requires Inv(T(), next0) && (current != 0 && th[current].status == Sleeping ==> current in sleep.items)
      modifies `th, `run, `dead
      ensures found <==> found0 || (current != 0 && old(th[current].status) == Killed)
      ensures PutBack(old(T()), T(), next0, next, time)
    {
      next, found := next0, found0;
      assert th == th[current := th[current]];
      if current == 0 {
        IdleLeaves(T(), next);
        return;
      }
      assert ThreadOk(T(), current, next);
      if th[current].status == Killed {
        DieKeeps(T(), next);
        dead := dead + [current];
        found := true;
        return;
      }
      if current == idle {
        IdleLeaves(T(), next);
        return;
      }
      next := Charge(next, time);
    }

    /** The end of `schedule`: the next thread, or the idle one, takes the CPU. */
    method Switch(next0: nat, after: nat)
      requires if Keeping(T(), next0) then Settled(T()) else Leaving(T(), next0) && (next0 == 0 || next0 != current)
      requires current == idle ==> th[current].status == Running
      modifies `th, `current
      ensures Settled(T()) && T() == SwitchedTo(old(T()), next0, after)
    {
      assert current != 0 && Keeping(T(), next0) ==> th[current].status == Running;
      var wasIdle := current == idle;
      var next := if next0 == 0 then idle else next0;
      if next != current {
        DispatchKeeps(T(), next0);
        th := th[next := th[next].(status := Running)];
        current := next;
      } else if next0 == 0 {
        IdleStays(T());
      }
      if !wasIdle {
        StampKeeps(T(), next, after);
        th := th[next := th[next].(scheduleTime := after)];
      }
    }

    /** A thread has died: the reaper is roused if it sleeps without waiting for a time. */
    method RouseReaper(found: bool, ghost next: nat)
      requires if Keeping(T(), next) then Settled(T()) else Leaving(T(), next)
      requires reaper < |th| && current < |th|
      modifies `th
      ensures if Keeping(T(), next) then Settled(T()) else Leaving(T(), next)
      ensures Keeping(T(), next) == old(Keeping(T(), next)) && T() == (if found then Roused(old(T())) else old(T()))
      ensures th[current].status == Running <==> old(th[current].status) == Running
    {
      RouseKeepsAll(T(), next);
      ghost var was := T();
      if found && reaper != 0 && th[reaper].status == Sleeping && th[reaper].until == None {
        th := th[reaper := th[reaper].(status := Ready)];
      }
      assert T() == if found then Roused(was) else was;
    }

    /** The part of `schedule` before the switch. */
    method Choose(time: nat) returns (next: nat, found: bool)
      requires Inv(T(), 0) && (current != 0 && th[current].status == Sleeping ==> current in sleep.items)
      modifies `th, `run, `dead
      ensures ChoiceMade(old(T()), T(), next, time) && (found <==> dead != old(dead))
    {
      ghost var was := T();
      var next0;
      next0, found := FindNext();
      ghost var mid := T();
      next, found := PutAway(next0, found, time);
      ScheduleMoves(was, mid, run, time);
      ChoiceIs(was, mid, T(), next0, next, time);
    }

    /** `schedule`, at a time; `after` is the time when it is done. The running thread has not gone to sleep without
        being in the sleep queue. */
    method Schedule(preemption: nat, time: nat, after: nat)
      requires Inv(T(), 0) && (current != 0 && th[current].status == Sleeping ==> current in sleep.items)
      modifies this
      ensures preemption > 0 ==> T() == old(T())
      ensures preemption == 0 ==> Settled(T()) && Chosen(old(T()), T(), time, after)
    {
      if preemption == 0 {
        Reschedule(time, after);
      }
    }

    /** All of it but the switch itself. */
    method ChooseAndRouse(time: nat) returns (next: nat, ghost mid: State)
      requires Inv(T(), 0) && (current != 0 && th[current].status == Sleeping ==> current in sleep.items)
      modifies `th, `run, `dead
      ensures ChoiceMade(old(T()), mid, next, time)
      ensures T() == if DeadAfter(old(T())) != old(dead) then Roused(mid) else mid
      ensures if Keeping(T(), next) then Settled(T()) else Leaving(T(), next) && (next == 0 || next != current)
      ensures current == idle ==> th[current].status == Running
    {
      var found;
      next, found := Choose(time);
      mid := T();
      RouseReaper(found, next);
    }

    method Reschedule(time: nat, after: nat)
      requires Inv(T(), 0) && (current != 0 && th[current].status == Sleeping ==> current in sleep.items)
      modifies this
      ensures Settled(T()) && Chosen(old(T()), T(), time, after)
    {
      ghost var was := T();
      var next;
      ghost var mid;
      next, mid := ChooseAndRouse(time);
      ghost var roused := T();
      Switch(next, after);
      ChosenIs(was, mid, roused, T(), next, time, after);
    }

    /** A thread that is about to sleep is put into the sleep queue. */
    method Park(now: nat)
      requires Settled(T()) && current != 0 && th[current].status == Sleeping
      modifies `th, `sleep
      ensures Parks(old(T()), T(), now) && Inv(T(), 0) && current in sleep.items
      ensures old(th)[current].sleepFor != None ==>
                th[current].until == Some((now + old(th)[current].sleepFor.value) % WRAP)
    {
      ghost var was := T();
      ParkFacts(was, now);
      var z := current;
      var until := th[z].until;
      if th[z].sleepFor != None {
        until := Some((now + th[z].sleepFor.value) % WRAP);
      }
      assert until == Due(was.th[z], now);
      PutToSleep(z, until);
      assert T() == Parked(was, now);
    }

    method PutToSleep(z: nat, until: Option)
      requires z < |th| && Allowed(sleep, Add(z, Key(until)))
      modifies `th, `sleep
      ensures sleep == Step(old(sleep), Add(z, Key(until)))
      ensures th == old(th)[z := old(th)[z].(until := until, sleepFor := None)]
    {
      sleep := Step(sleep, Add(z, Key(until)));
      th := th[z := th[z].(until := until, sleepFor := None)];
    }

    /** `yield`, with preemption enabled: a thread that is about to sleep is put into the sleep queue, and then another
        one is chosen. */
    method Yield(now: nat, after: nat)
      requires Settled(T()) && current != 0
      modifies this
      ensures Settled(T())
      ensures if old(th[current].status) == Sleeping
              then exists mid :: Parks(old(T()), mid, now) && Chosen(mid, T(), now, after)
              else Chosen(old(T()), T(), now, after)
    {
      if th[current].status == Sleeping {
        Park(now);
        ghost var mid := T();
        Schedule(0, now, after);
        assert Parks(old(T()), mid, now) && Chosen(mid, T(), now, after);
      } else {
        Schedule(0, now, after);
      }
    }
  }

  /** The running thread has been put into the sleep queue, under the time at which it is due. */
  ghost predicate Parks(s: State, s': State, now: nat) {
    && 0 < s.current < |s.th| && Allowed(s.sleep, Add(s.current, Key(Due(s.th[s.current], now))))
    && s' == Parked(s, now)
  }

  lemma ParkFacts(s: State, now: nat)
    requires Settled(s) && s.current != 0 && s.th[s.current].status == Sleeping
    ensures 0 < s.current < |s.th| && Allowed(s.sleep, Add(s.current, Key(Due(s.th[s.current], now))))
    ensures Parks(s, Parked(s, now), now) && Inv(Parked(s, now), 0) && s.current in Parked(s, now).sleep.items
  {
    assert ThreadOk(s, s.current, 0);
    ParkKeeps(s, now);
    AddFacts(s.sleep, s.current, Key(Due(s.th[s.current], now)));
  }

  ghost function Roused(s: State): State
    requires s.reaper < |s.th|
  {
    if s.reaper != 0 && s.th[s.reaper].status == Sleeping && s.th[s.reaper].until == None
    then s.(th := s.th[s.reaper := s.th[s.reaper].(status := Ready)]) else s
  }

  lemma RouseKeepsAll(s: State, held: nat)
    requires s.reaper < |s.th| && s.current < |s.th|
    ensures Leaving(s, held) ==> Leaving(Roused(s), held)
    ensures Settled(s) && s.th[s.current].status == Running ==> Settled(Roused(s))
  {
    var z, s0 := s.reaper, s.(current := 0);
    if Roused(s) != s {
      var t := s.th[z].(status := Ready, reason := s.th[z].reason);
      assert t == s.th[z].(status := Ready);
      if Leaving(s, held) {
        assert ThreadOk(s0, z, held);
        RouseKeeps(s0, z, s.th[z].reason, held);
        assert Roused(s).(current := 0) == s0.(th := s.th[z := t]);
      }
      if Settled(s) && s.th[s.current].status == Running {
        assert ThreadOk(s, z, 0);
        RouseKeeps(s, z, s.th[z].reason, 0);
        assert Roused(s) == s.(th := s.th[z := t]);
      }
    }
  }

  /** The thread that ran goes on. */
  predicate Keeping(s: State, next: nat) {
    next != 0 && next == s.current && next < |s.th| && next != s.idle && s.th[next].status == Running
  }

  /** What putting the thread that ran away has done. */
  ghost predicate PutBack(s: State, s': State, next0: nat, next: nat, time: nat) {
    && s.current < |s.th| && ComesBack(s, next0, time, s'.run)
    && s' == s.(th := s.th[s.current := Outgoing(s, next0, time)], run := s'.run, dead := s'.dead)
    && s'.dead == (if s.current != 0 && s.th[s.current].status == Killed then s.dead + [s.current] else s.dead)
    && if KeepsRunning(s, next0) then next == s.current && Settled(s') else next == next0 && Leaving(s', next)
  }

  lemma ChoiceIs(was: State, mid: State, now: State, next0: nat, next: nat, time: nat)
    requires Inv(was, 0) && Inv(mid, next0) && PutBack(mid, now, next0, next, time)
    requires mid == Searched(was) && next0 == FrontNext(was) && Found(was, mid, next0)
    requires Moved(was.run, ScheduleOps(was, time), now.run)
    requires Requeued(was, next0) ==> was.current in now.run.items
    ensures ChoiceMade(was, now, next, time)
  {
    FoundApart(was, mid, next0);
    assert Picked(was, next);
    StandingIs(was, mid, now, next0, next, time);
    AsideIs(was, mid, now, next0, next, time);
  }

  lemma StandingIs(was: State, mid: State, now: State, next0: nat, next: nat, time: nat)
    requires Inv(was, 0) && Inv(mid, next0) && PutBack(mid, now, next0, next, time)
    requires mid == Searched(was) && next0 == FrontNext(was) && Found(was, mid, next0)
    ensures Standing(now, next)
  {
    FoundApart(was, mid, next0);
    assert was.current != 0 ==> ThreadOk(was, was.current, 0);
  }

  lemma AsideIs(was: State, mid: State, now: State, next0: nat, next: nat, time: nat)
    requires Inv(was, 0) && Inv(mid, next0) && PutBack(mid, now, next0, next, time)
    requires mid == Searched(was) && next0 == FrontNext(was) && Found(was, mid, next0)
    requires Requeued(was, next0) ==> was.current in now.run.items
    ensures Aside(was, now, next, time)
  {
    if was.th[was.current].weight > 0 {
      ChargeIsFair(was.th[was.current], time);
    }
    FoundApart(was, mid, next0);
  }

  lemma FoundApart(was: State, now: State, next: nat)
    requires Inv(was, 0) && Found(was, now, next)
    ensures next != 0 ==> next != was.current && next != was.idle
    ensures SomeReady(was) <==> next != 0
  {
    if next != 0 {
      assert 0 < next < |was.th|;
      assert ThreadOk(was, next, 0);
    }
  }

  /** Who is to run next. */
  ghost predicate Picked(was: State, next: nat) {
    && was.current < |was.th|
    && (SomeReady(was) ==> FirstReady(was, next))
    && (!SomeReady(was) ==> next == if KeepsRunning(was, 0) then was.current else 0)
    && next == (if KeepsRunning(was, FrontNext(was)) then was.current else FrontNext(was))
  }

  /** The next thread is at hand, or goes on. */
  ghost predicate Standing(now: State, next: nat) {
    && now.current < |now.th| && now.reaper < |now.th| && now.idle < |now.th|
    && (if Keeping(now, next) then Settled(now) else Leaving(now, next) && (next == 0 || next != now.current))
    && (now.current == now.idle ==> now.th[now.current].status == Running)
  }

  /** What has become of the thread that ran, and of no other. */
  ghost predicate Aside(was: State, now: State, next: nat, time: nat) {
    && (now.current, now.sleep, now.idle, now.reaper) == (was.current, was.sleep, was.idle, was.reaper)
    && |now.th| == |was.th| && now.current < |now.th|
    && (was.current !in {0, was.idle, next} && was.th[was.current].status == Running ==> was.current in now.run.items)
    && now.dead == DeadAfter(was) && StaysAsleepAside(was, now)
    && ChargedFor(was, now, time) && now.th[now.current].scheduleTime == was.th[was.current].scheduleTime
    && forall z: nat {:trigger now.th[z]} | z < |now.th| && z != was.current :: now.th[z] == was.th[z]
  }

  /** Going to sleep takes nothing from what the thread waits for. */
  ghost predicate StaysAsleepAside(was: State, now: State)
    requires was.current < |was.th| && was.current < |now.th|
  {
    var t, u := was.th[was.current], now.th[was.current];
    u.until == t.until && (t.status == Sleeping && was.current != 0 ==> u.status == Sleeping)
  }

  /** The next thread is known, and the one that ran has been put away unless it goes on. */
  ghost predicate ChoiceMade(was: State, now: State, next: nat, time: nat) {
    && Picked(was, next) && Standing(now, next) && Aside(was, now, next, time)
    && Moved(was.run, ScheduleOps(was, time), now.run)
  }

  /** The thread that ran is charged for the time it ran, unless it is dead or idle. */
  ghost predicate ChargedFor(was: State, now: State, time: nat) {
    var c := was.current;
    0 < c < |was.th| && c < |now.th| && c != was.idle && was.th[c].status != Killed && was.th[c].weight > 0 ==>
      now.th[c].vruntime == Vruntime(was.th[c], time) && FairlyCharged(was.th[c], now.th[c].vruntime, time)
  }

  /** What becomes of the thread that ran. */
  function Outgoing(s: State, next: nat, time: nat): Thread
    requires s.current < |s.th|
  {
    var t := s.th[s.current];
    if s.current == 0 || s.current == s.idle || t.status == Killed || t.weight == 0 then t
    else
      var u := t.(vruntime := Vruntime(t, time));
      if t.status == Sleeping then u.(locked := false)
      else if Requeued(s, next) then u.(status := Ready)
      else u
  }

  ghost predicate SomeReady(s: State) {
    exists z: nat {:trigger z in s.run.items} :: z in s.run.items && z < |s.th| && s.th[z].status == Ready
  }

  /** Whom `schedule` picks. */
  ghost predicate Picks(was: State, now: State) {
    && |now.th| == |was.th| && 0 < now.current < |now.th| && was.current < |was.th|
    && now.th[now.current].status == Running
    && (SomeReady(was) ==> FirstReady(was, now.current))
    && (!SomeReady(was) ==> now.current == if KeepsRunning(was, 0) then was.current else was.idle)
    && (FrontNext(was) != 0 ==> now.current == FrontNext(was))
  }

  /** What becomes of the threads, of which only the one that ran, the next one and the reaper can change. */
  ghost predicate LeftAs(was: State, now: State, time: nat, after: nat)
    requires |now.th| == |was.th| && now.current < |now.th| && was.current < |was.th|
  {
    && now.dead == DeadAfter(was) && ReaperRoused(was, now) && ChargedFor(was, now, time)
    && now.th[now.current].scheduleTime == (if was.current == was.idle then was.th[now.current].scheduleTime else after)
    && forall z: nat {:trigger now.th[z]} | z < |now.th| && z != was.current && z != now.current ::
         now.th[z] == if z == was.reaper && Rouses(was) then was.th[z].(status := Ready) else was.th[z]
  }

  /** Whom `schedule` picks, and what becomes of the thread that ran. */
  ghost predicate Chosen(was: State, now: State, time: nat, after: nat) {
    && Picks(was, now) && LeftAs(was, now, time, after)
    && (was.current !in {0, was.idle, now.current} && was.th[was.current].status == Running ==>
          was.current in now.run.items)
    && now.sleep == was.sleep && now.idle == was.idle && now.reaper == was.reaper
    && Moved(was.run, ScheduleOps(was, time), now.run)
  }

  /** A thread has died, and the reaper sleeps without a time. */
  predicate Rouses(s: State)
    requires s.current < |s.th|
  {
    && DeadAfter(s) != s.dead && 0 < s.reaper < |s.th|
    && s.th[s.reaper].status == Sleeping && s.th[s.reaper].until == None
  }

  /** The dead, and the killed threads at the front of the run queue, and the running one if it has been killed. */
  function DeadAfter(s: State): seq<nat>
    requires s.current < |s.th|
  {
    Searched(s).dead + if s.current != 0 && s.th[s.current].status == Killed then [s.current] else []
  }

  /** The reaper does not go on sleeping then. */
  ghost predicate ReaperRoused(was: State, now: State)
    requires was.current < |was.th| == |now.th|
  {
    Rouses(was) ==> now.th[was.reaper].status == Ready
  }

  /** The next thread, or the idle one, runs from then on. */
  function SwitchedTo(s: State, next: nat, after: nat): State {
    var n := if next == 0 then s.idle else next;
    if n < |s.th| then
      s.(current := n, th := s.th[n := s.th[n].(
           status := Running, scheduleTime := if s.current == s.idle then s.th[n].scheduleTime else after)])
    else s
  }

  /** The state after the switch from the one before it. */
  ghost predicate Switched(was: State, mid: State, roused: State, now: State, next: nat, n: nat, time: nat,
                           after: nat) {
    && Inv(was, 0) && ChoiceMade(was, mid, next, time) && Settled(now)
    && roused == (if DeadAfter(was) != was.dead then Roused(mid) else mid)
    && n == (if next == 0 then mid.idle else next) && n < |roused.th| && now == SwitchedTo(roused, next, after)
  }

  /** The parts of `schedule` put together. */
  lemma ChosenIs(was: State, mid: State, roused: State, now: State, next: nat, time: nat, after: nat)
    requires Inv(was, 0) && ChoiceMade(was, mid, next, time) && Settled(now) && now == SwitchedTo(roused, next, after)
    requires roused == if DeadAfter(was) != was.dead then Roused(mid) else mid
    ensures Chosen(was, now, time, after)
  {
    var n := if next == 0 then mid.idle else next;
    NextNotReaper(was, mid, next, n, time);
    assert Switched(was, mid, roused, now, next, n, time, after);
    PicksIs(was, mid, roused, now, next, n, time, after);
    LeftAsIs(was, mid, roused, now, next, n, time, after);
  }

  lemma PicksIs(was: State, mid: State, roused: State, now: State, next: nat, n: nat, time: nat, after: nat)
    requires Switched(was, mid, roused, now, next, n, time, after)
    ensures Picks(was, now)
  {
    if SomeReady(was) {
      assert FirstReady(was, next) && next != 0;
    }
  }

  lemma LeftAsIs(was: State, mid: State, roused: State, now: State, next: nat, n: nat, time: nat, after: nat)
    requires Switched(was, mid, roused, now, next, n, time, after)
    ensures |now.th| == |was.th| && now.current < |now.th| && LeftAs(was, now, time, after)
  {
    NextNotReaper(was, mid, next, n, time);
    assert n != was.current ==> mid.th[n] == was.th[n];
    forall z: nat | z < |now.th| && z != was.current && z != n
      ensures now.th[z] == if z == was.reaper && Rouses(was) then was.th[z].(status := Ready) else was.th[z]
    {
      assert mid.th[z] == was.th[z];
      OtherStays(was, mid, z);
    }
    LastStays(was, mid, roused, now, next, n, time, after);
  }

  lemma OtherStays(was: State, mid: State, z: nat)
    requires was.current < |was.th| == |mid.th| && mid.reaper == was.reaper < |was.th|
    requires z < |mid.th| && mid.th[z] == was.th[z]
    ensures (if DeadAfter(was) != was.dead then Roused(mid) else mid).th[z] ==
            if z == was.reaper && Rouses(was) then was.th[z].(status := Ready) else was.th[z]
  {
  }

  /** The thread that ran, and the reaper. */
  lemma LastStays(was: State, mid: State, roused: State, now: State, next: nat, n: nat, time: nat, after: nat)
    requires Switched(was, mid, roused, now, next, n, time, after) && |now.th| == |was.th|
    ensures ReaperRoused(was, now) && ChargedFor(was, now, time)
  {
    NextNotReaper(was, mid, next, n, time);
  }

  lemma NextNotReaper(was: State, mid: State, next: nat, n: nat, time: nat)
    requires Inv(was, 0) && ChoiceMade(was, mid, next, time) && n == (if next == 0 then mid.idle else next)
    ensures n < |was.th| && (Rouses(was) ==> n != was.reaper)
  {
    if next != 0 && next != was.current {
      assert SomeReady(was) ==> FirstReady(was, next);
    }
  }

  predicate KeepsRunning(s: State, next: nat)
    requires s.current < |s.th|
  {
    next == 0 && s.current != 0 && s.current != s.idle && s.th[s.current].status == Running
  }

  predicate Requeued(s: State, next: nat)
    requires s.current < |s.th|
  {
    next != 0 && s.current != 0 && s.current != s.idle && s.th[s.current].status == Running
  }

  // ----- the search for the next thread

  /** How many killed threads are at the front of the run queue. */
  function FrontKilled(items: seq<nat>, th: seq<Thread>): (d: nat)
    ensures d <= |items|
  {
    if items != [] && items[0] < |th| && th[items[0]].status == Killed then 1 + FrontKilled(items[1..], th) else 0
  }

  lemma {:induction false} FrontIs(items: seq<nat>, th: seq<Thread>, d: nat)
    requires d <= |items|
    requires forall j: nat {:trigger items[j]} | j < d :: items[j] < |th| && th[items[j]].status == Killed
    requires d < |items| ==> items[d] < |th| && th[items[d]].status != Killed
    ensures FrontKilled(items, th) == d
  {
    if d != 0 {
      FrontIs(items[1..], th, d - 1);
    }
  }

  /** How many threads leave the queue: the killed ones and the next one, if there is one. */
  function FrontCount(s: State): (n: nat)
    ensures n <= |s.run.items|
  {
    var d := FrontKilled(s.run.items, s.th);
    if d < |s.run.items| then d + 1 else d
  }

  function FrontNext(s: State): nat {
    var d := FrontKilled(s.run.items, s.th);
    if d < |s.run.items| then s.run.items[d] else 0
  }

  function Searched(s: State): State {
    s.(run := s.run.(items := s.run.items[FrontCount(s)..]),
       dead := s.dead + s.run.items[..FrontKilled(s.run.items, s.th)])
  }

  lemma SearchEnds(was: State, now: State, d: nat)
    requires Inv(was, 0) && Inv(now, 0) && Searching(was, now, d)
    requires now.run.items != [] ==> now.th[now.run.items[0]].status == Ready
    ensures FrontKilled(was.run.items, was.th) == d
    ensures if now.run.items == [] then FrontNext(was) == 0 && now == Searched(was)
            else FrontNext(was) == now.run.items[0] && Allowed(now.run, Take(now.run.items[0]))
                 && Taken(now, now.run.items[0]) == Searched(was)
  {
    if now.run.items != [] {
      HeadOfSearch(was, now, d);
      TakeHead(now.run);
      assert was.run.items[d..][1..] == was.run.items[d + 1..];
    }
    FrontIs(was.run.items, was.th, d);
  }

  /** What `schedule` does to the run queue: the killed threads at its front leave it, and then the next one, and the
      thread that ran comes back under the time it is charged. */
  function ScheduleOps(s: State, time: nat): seq<Op>
    requires s.current < |s.th|
  {
    Fronts(s.run.items, FrontCount(s))
    + if Requeued(s, FrontNext(s)) then [Add(s.current, Outgoing(s, FrontNext(s), time).vruntime)] else []
  }

  /** The run queue after the thread that ran has been put away. */
  ghost predicate ComesBack(s: State, next: nat, time: nat, run: Queue) {
    && s.current < |s.th|
    && if Requeued(s, next) then
         var op := Add(s.current, Outgoing(s, next, time).vruntime);
         Allowed(s.run, op) && run == Step(s.run, op)
       else run == s.run
  }

  lemma ScheduleMoves(was: State, mid: State, run: Queue, time: nat)
    requires Inv(was, 0) && Stable(mid.run) && mid == Searched(was) && ComesBack(mid, FrontNext(was), time, run)
    ensures Moved(was.run, ScheduleOps(was, time), run)
    ensures Requeued(was, FrontNext(was)) ==> was.current in run.items
  {
    if Requeued(mid, FrontNext(was)) {
      AddFacts(mid.run, mid.current, Outgoing(mid, FrontNext(was), time).vruntime);
    }
    var n := FrontCount(was);
    FrontsMove(was.run, n);
    if Requeued(was, FrontNext(was)) {
      var op := Add(was.current, Outgoing(was, FrontNext(was), time).vruntime);
      MovedOne(mid.run, op);
      MovedMore(was.run, Fronts(was.run.items, n), mid.run, [op], run);
    } else {
      assert Fronts(was.run.items, n) + [] == Fronts(was.run.items, n);
    }
  }

  /** The search for the next thread has dropped the first d of the run queue. */
  ghost predicate Searching(was: State, now: State, d: nat) {
    && d <= |was.run.items|
    && now.run == was.run.(items := was.run.items[d..])
    && now == was.(run := now.run, dead := now.dead)
    && now.dead == was.dead + was.run.items[..d]
    && forall j: nat {:trigger was.run.items[j]} | j < d ::
         was.run.items[j] < |was.th| && was.th[was.run.items[j]].status == Killed
  }

  /** The outcome: the killed threads before the first ready one are dropped, and that one is taken. */
  ghost predicate Found(was: State, now: State, next: nat) {
    && now == was.(run := now.run, dead := now.dead)
    && (next != 0 ==> FirstReady(was, next))
    && (next == 0 ==> forall z: nat {:trigger z in was.run.items} | z in was.run.items && z < |was.th| ::
         was.th[z].status != Ready)
    && (forall z: nat {:trigger z in now.run.items} :: z in now.run.items ==> z in was.run.items && z != next)
    && (forall z: nat {:trigger z in was.run.items} | z in was.run.items ::
          z == next || z in now.run.items || (z in now.dead && z < |was.th| && was.th[z].status == Killed))
    && |was.dead| <= |now.dead| && now.dead[..|was.dead|] == was.dead
  }

  lemma HeadOfSearch(was: State, now: State, d: nat)
    requires Inv(now, 0) && Searching(was, now, d) && now.run.items != []
    ensures d < |was.run.items| && now.run.items[0] == was.run.items[d] && 0 < was.run.items[d] < |was.th|
    ensures was.th[was.run.items[d]].status in {Ready, Killed}
  {
    assert ThreadOk(now, now.run.items[0], 0);
  }

  lemma SearchOn(was: State, now: State, d: nat)
    requires Inv(now, 0) && Searching(was, now, d) && now.run.items != [] && now.th[now.run.items[0]].status == Killed
    ensures Allowed(now.run, Take(now.run.items[0])) && Searching(was, Dropped(now, now.run.items[0]), d + 1)
  {
    HeadOfSearch(was, now, d);
    TakeAt(now.run, 0);
    assert was.run.items[d..][1..] == was.run.items[d + 1..];
    assert was.run.items[..d + 1] == was.run.items[..d] + [was.run.items[d]];
  }

  lemma FoundHead(was: State, now: State, d: nat)
    requires Inv(was, 0) && Inv(now, 0) && Searching(was, now, d) && now.run.items != []
    requires now.th[now.run.items[0]].status == Ready
    ensures Allowed(now.run, Take(now.run.items[0])) && Found(was, Taken(now, now.run.items[0]), now.run.items[0])
  {
    var z, q := now.run.items[0], was.run;
    HeadOfSearch(was, now, d);
    TakeFacts(now.run, z);
    HeadIsFirst(was, now, d);
    assert q.items == q.items[..d] + now.run.items;
    forall i: nat {:trigger i in q.items} | i in q.items
      ensures i == z || i in Taken(now, z).run.items || (i in now.dead && i < |was.th| && was.th[i].status == Killed)
    {
      DroppedOrLeft(was, now, d, i);
    }
  }

  lemma DroppedOrLeft(was: State, now: State, d: nat, i: nat)
    requires Searching(was, now, d) && i in was.run.items
    ensures i in now.run.items || (i in now.dead && i < |was.th| && was.th[i].status == Killed)
  {
    var j :| 0 <= j < |was.run.items| && was.run.items[j] == i;
    if j < d {
      assert was.run.items[..d][j] == i;
    } else {
      assert was.run.items[d..][j - d] == i;
    }
  }

  /** The ready thread that the search has come to is before all other ready ones. */
  lemma HeadIsFirst(was: State, now: State, d: nat)
    requires Inv(was, 0) && Inv(now, 0) && Searching(was, now, d) && now.run.items != []
    requires now.th[now.run.items[0]].status == Ready
    ensures FirstReady(was, now.run.items[0])
  {
    var z, q := now.run.items[0], was.run;
    HeadOfSearch(was, now, d);
    forall i: nat {:trigger i in q.items} | i in q.items && i < |was.th| && was.th[i].status == Ready
      ensures i == z || Earlier(q, z, i)
    {
      var j :| 0 <= j < |q.items| && q.items[j] == i;
      assert d < j ==> Earlier(q, q.items[d], q.items[j]);
    }
  }

  lemma NothingFound(was: State, now: State, d: nat)
    requires Searching(was, now, d) && now.run.items == []
    ensures Found(was, now, 0)
  {
    assert was.run.items == was.run.items[..d];
    forall z: nat | z in was.run.items ensures z in now.dead && z < |was.th| && was.th[z].status == Killed {
      var j :| 0 <= j < |was.run.items| && was.run.items[j] == z;
    }
  }

  /** z is ready, and the oldest of the ready threads with the least virtual time. */
  ghost predicate FirstReady(s: State, z: nat) {
    && QueueOk(s.run, |s.th|) && z in s.run.items && z < |s.th| && s.th[z].status == Ready
    && forall i: nat {:trigger i in s.run.items} | i in s.run.items && i < |s.th| && s.th[i].status == Ready ::
         i == z || Earlier(s.run, z, i)
  }
}
