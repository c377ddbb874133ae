/** Operations on the reader/writer lock come to an end, if the threads that hold it let go of it. */
module RwProgress {
  import opened Sizes
  import opened RwLock

  /** How many more steps a thread takes at most until it is idle, if it gives back what it holds. */
  function Rank(t: Thread): nat {
    match t
    case Idle => 0
    case Reading => 12
    case Writing => 5
    case Taking(l, op) => 2 + AcquiredRank(l, op)
    case Waiting(l, _, op) => 1 + AcquiredRank(l, op)
    case Counting(op) => CountingRank(op)
    case Checking(l, op) => 4 + ReleasedRank(l, op)
    case Checked(l, _, op) => 3 + ReleasedRank(l, op)
    case Loading(l, op) => 2 + ReleasedRank(l, op)
    case Storing(l, _, op) => 1 + ReleasedRank(l, op)
  }

  function AcquiredRank(l: Lock, op: Op): nat {
    if l == Readers then CountingRank(op) else if op == ReadLock then 16 else 5
  }

  function CountingRank(op: Op): nat {
    match op
    case ReadLock => 19
    case ReadUnlock => 9
    case _ => 12
  }

  function ReleasedRank(l: Lock, op: Op): nat {
    if l == Global then (if op == ReadUnlock then 4 else 0)
    else if op == ReadLock then 12
    else if op == ReadUnlock then 0
    else if op == Upgrade(true) then 5
    else 7
  }

  function Total(th: seq<Thread>): nat {
    if th == [] then 0 else Rank(th[0]) + Total(th[1..])
  }

  lemma {:induction false} TotalDrops(th: seq<Thread>, i: nat, t: Thread)
    requires i < |th| && Rank(t) < Rank(th[i])
    ensures Total(th[i := t]) < Total(th)
  {
    if i == 0 {
      assert th[0 := t][1..] == th[1..];
    } else {
      TotalDrops(th[1..], i - 1, t);
      assert th[i := t][1..] == th[1..][i - 1 := t];
    }
  }

  /** What a thread at rest does to give the lock back. */
  function Back(t: Thread): Op {
    if t.Reading? then ReadUnlock else WriteUnlock
  }

  ghost predicate GoesOn(s: State, j: nat) {
    j < |s.th| && (CanMove(s, j) || s.th[j].Reading? || s.th[j].Writing?)
  }

  lemma StepSinks(s: State, a: Aux, j: nat)
    requires Before(s, a, j) && GoesOn(s, j)
    ensures Rank(Next(s, j, Back(s.th[j])).th[j]) < Rank(s.th[j])
  {
    assert ThreadOk(s, a, j);
    assert CanMove(s, j) ==> Next(s, j, Back(s.th[j])) != s;
  }

  lemma StepTotal(s: State, a: Aux, j: nat)
    requires Before(s, a, j) && GoesOn(s, j)
    ensures Total(Next(s, j, Back(s.th[j])).th) < Total(s.th)
  {
    var s' := Next(s, j, Back(s.th[j]));
    StepSinks(s, a, j);
    TotalDrops(s.th, j, s'.th[j]);
    assert s'.th == s.th[j := s'.th[j]];
  }

  lemma RunFirst(s: State, j: nat, op: Op, rest: Schedule)
    requires j < |s.th|
    ensures Run(s, [(j, op)] + rest) == Run(Next(s, j, op), rest)
  {
    assert ([(j, op)] + rest)[1..] == rest;
  }

  // ----- the lock can always be brought to rest

  ghost predicate AllIdle(s: State) {
    forall i {:trigger s.th[i]} | 0 <= i < |s.th| :: s.th[i].Idle?
  }

  lemma CountedIsBusy(s: State, a: Aux, i: nat)
    requires Inv(s, a) && i in a.counted
    ensures i < |s.th| && !s.th[i].Idle?
  {
    assert ThreadOk(s, a, i);
  }

  lemma TicketIsBusy(s: State, a: Aux, l: Lock) returns (i: nat)
    requires Inv(s, a) && Of(a, l).serving < Of(a, l).next
    ensures i < |s.th| && !s.th[i].Idle?
  {
    assert TicketOk(s, a, l, Of(a, l).serving);
    match Of(a, l).own[Of(a, l).serving]
    case Thr(k) =>
      i := k;
    case Group =>
      i :| i in a.counted;
      CountedIsBusy(s, a, i);
  }

  /** With all threads idle, the lock is free. */
  lemma IdleIsFree(s: State, a: Aux)
    requires Inv(s, a) && AllIdle(s)
    ensures s.counter == 0 && s.readers.serving == s.readers.next && s.global.serving == s.global.next
  {
    if i :| i in a.counted {
      CountedIsBusy(s, a, i);
    }
    if a.readers.serving < a.readers.next {
      var i := TicketIsBusy(s, a, Readers);
    }
    if a.global.serving < a.global.next {
      var i := TicketIsBusy(s, a, Global);
    }
  }

  lemma {:induction false} Drains(s: State, a: Aux) returns (more: Schedule)
    requires Inv(s, a)
    ensures AllIdle(Run(s, more)) && Run(s, more).counter == 0
    ensures Run(s, more).readers.serving == Run(s, more).readers.next
    ensures Run(s, more).global.serving == Run(s, more).global.next
    decreases Total(s.th)
  {
    if i :| 0 <= i < |s.th| && !s.th[i].Idle? {
      var j := i;
      if !Resting(s.th[i]) {
        j := SomeoneMoves(s, a, i);
      }
      var op := Back(s.th[j]);
      StepTotal(s, a, j);
      StepKeeps(s, a, j, op);
      var rest := Drains(Next(s, j, op), Follow(s, a, j));
      RunFirst(s, j, op, rest);
      more := [(j, op)] + rest;
    } else {
      more := [];
      IdleIsFree(s, a);
    }
  }

  /** From every reachable state the threads can go on so that all are idle and both locks are free. */
  lemma CanComeToRest(n: nat, sched: Schedule) returns (more: Schedule)
    requires n + 2 < WRAP
    ensures var s := Run(Run(Init(n), sched), more);
            && AllIdle(s) && s.counter == 0
            && s.readers.serving == s.readers.next && s.global.serving == s.global.next
  {
    var a := InitOk(n);
    a := RunKeeps(Init(n), a, sched);
    more := Drains(Run(Init(n), sched), a);
  }

  // ----- every operation can be completed

  /** Where an operation ends. */
  function Goal(op: Op): Thread {
    match op
    case ReadLock => Reading
    case ReadUnlock => Idle
    case WriteLock => Writing
    case WriteUnlock => Idle
    case Upgrade(_) => Writing
  }

  predicate SameKind(p: Op, q: Op) {
    p == q || (p.Upgrade? && q.Upgrade?)
  }

  /** A thread in the middle of an operation stays in it until it has come to the goal. */
  predicate Under(t: Thread, op: Op) {
    !Resting(t) && SameKind(t.op, op)
  }

  lemma StepsTowards(s: State, a: Aux, i: nat, op: Op, any: Op)
    requires Before(s, a, i) && Under(s.th[i], op)
    ensures Under(Next(s, i, any).th[i], op) || Next(s, i, any).th[i] == Goal(op)
  {
    assert ThreadOk(s, a, i);
  }

  lemma {:induction false} Completes(s: State, a: Aux, i: nat, op: Op) returns (more: Schedule)
    requires Before(s, a, i) && Under(s.th[i], op)
    ensures Run(s, more).th[i] == Goal(op)
    decreases Total(s.th)
  {
    var j := SomeoneMoves(s, a, i);
    var any := Back(s.th[j]);
    StepTotal(s, a, j);
    StepKeeps(s, a, j, any);
    var s' := Next(s, j, any);
    StepsTowards(s, a, i, op, any);
    var rest := [];
    if s'.th[i] != Goal(op) {
      rest := Completes(s', Follow(s, a, j), i, op);
    }
    RunFirst(s, j, any, rest);
    more := [(j, any)] + rest;
  }

  /** The operations that a thread can begin. */
  predicate CanBegin(t: Thread, op: Op) {
    match t
    case Idle => op == ReadLock || op == WriteLock
    case Reading => op == ReadUnlock || op == Upgrade(false)
    case Writing => op == WriteUnlock
    case _ => false
  }

  /** In every reachable state, whatever operation a thread begins there, the threads can go on so that it ends where it
      should: a lock with the thread reading or writing, an upgrade with it writing, and an unlock with it idle. */
  lemma EveryOperationCompletes(n: nat, sched: Schedule, i: nat, op: Op) returns (more: Schedule)
    requires n + 2 < WRAP && i < n && CanBegin(Run(Init(n), sched).th[i], op)
    ensures more != [] && more[0] == (i, op) && Run(Run(Init(n), sched), more).th[i] == Goal(op)
  {
    var a := InitOk(n);
    var s := Run(Init(n), sched);
    a := RunKeeps(Init(n), a, sched);
    StepKeeps(s, a, i, op);
    assert Under(Next(s, i, op).th[i], op);
    var rest := Completes(Next(s, i, op), Follow(s, a, i), i, op);
    RunFirst(s, i, op, rest);
    more := [(i, op)] + rest;
  }

  /** A writer needs nobody to leave: five steps of its own serve the next ticket, and change nothing else. */
  lemma WriterLeaves(s: State, a: Aux, i: nat)
    requires Before(s, a, i) && s.th[i].Writing?
    ensures Run(s, seq(5, _ => (i, WriteUnlock))) ==
            s.(th := s.th[i := Idle], global := s.global.(serving := (s.global.serving + 1) % WRAP))
  {
    var op, k := WriteUnlock, s.global.serving;
    WriterSeesLock(s, a, i);
    var s1 := Next(s, i, op);
    var s2 := Next(s1, i, op);
    var s3 := Next(s2, i, op);
    var s4 := Next(s3, i, op);
    var s5 := Next(s4, i, op);
    assert s1.th == s.th[i := Checking(Global, op)];
    assert s2.th == s.th[i := Checked(Global, k, op)];
    assert s3.th == s.th[i := Loading(Global, op)];
    assert s4.th == s.th[i := Storing(Global, k, op)];
    assert s5.th == s.th[i := Idle];
    assert Alone(s, i, op, 5) == s5;
    RunAlone(s, i, op, 5, []);
    assert seq(5, _ => (i, op)) + [] == seq(5, _ => (i, op));
  }
}
