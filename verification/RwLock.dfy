/** The reader/writer lock over two ticket locks, as a machine whose steps are the atomic accesses of the threads. */
module RwLock {
  import opened Sizes
  import opened FiniteSets

  datatype Lock = Readers | Global

  datatype Ticket = Ticket(next: nat, serving: nat)

  /** What a thread is doing; an upgrade remembers whether it was the last reader. */
  datatype Op = ReadLock | ReadUnlock | WriteLock | WriteUnlock | Upgrade(last: bool)

  /** Where a thread is in it: about to draw a ticket, spinning, about to change the count, and in `unlock` about to
      load for `is_locked`, to load again and compare, to load the current ticket, and to store the next. */
  datatype Thread =
    | Idle | Reading | Writing
    | Taking(l: Lock, op: Op)
    | Waiting(l: Lock, ticket: nat, op: Op)
    | Counting(op: Op)
    | Checking(l: Lock, op: Op)
    | Checked(l: Lock, current: nat, op: Op)
    | Loading(l: Lock, op: Op)
    | Storing(l: Lock, current: nat, op: Op)

  datatype State = State(readers: Ticket, global: Ticket, counter: nat, th: seq<Thread>)

  function Locked(s: State, l: Lock): Ticket {
    if l == Readers then s.readers else s.global
  }

  function With(s: State, l: Lock, t: Ticket): State {
    if l == Readers then s.(readers := t) else s.(global := t)
  }

  function At(s: State, i: nat, t: Thread): State
    requires i < |s.th|
  {
    s.(th := s.th[i := t])
  }

  /** What follows when a lock has been acquired, and released. */
  function Acquired(l: Lock, op: Op): Thread {
    if l == Readers then Counting(op)
    else if op == ReadLock then Checking(Readers, ReadLock)
    else Writing
  }

  function Released(l: Lock, op: Op): Thread {
    if l == Global then (if op == ReadUnlock then Checking(Readers, ReadUnlock) else Idle)
    else if op == ReadLock then Reading
    else if op == ReadUnlock then Idle
    else if op == Upgrade(true) then Writing
    else Taking(Global, Upgrade(false))
  }

  /** One step of thread i, which does `op` next when it is free to choose. A spinning thread may stay where it is. */
  function Next(s: State, i: nat, op: Op): (r: State)
    requires i < |s.th|
    ensures |r.th| == |s.th| && forall j | 0 <= j < |s.th| && j != i :: r.th[j] == s.th[j]
  {
    match s.th[i]
    case Idle =>
      if op == ReadLock then At(s, i, Taking(Readers, op))
      else if op == WriteLock then At(s, i, Taking(Global, op))
      else s
    case Reading =>
      if op == ReadUnlock || op == Upgrade(false) then At(s, i, Taking(Readers, op)) else s
    case Writing =>
      if op == WriteUnlock then At(s, i, Checking(Global, op)) else s
    case Taking(l, op) =>
      var k := Locked(s, l);
      At(With(s, l, k.(next := (k.next + 1) % WRAP)), i, Waiting(l, k.next, op))
    case Waiting(l, t, op) =>
      if Locked(s, l).serving == t then At(s, i, Acquired(l, op)) else s
    case Counting(op) =>
      var c := if op == ReadLock then (s.counter + 1) % WRAP else (s.counter + WRAP - 1) % WRAP;
      At(s.(counter := c), i,
         match op
         case ReadLock => if c == 1 then Taking(Global, op) else Checking(Readers, op)
         case ReadUnlock => if c == 0 then Checking(Global, op) else Checking(Readers, op)
         case _ => Checking(Readers, Upgrade(c == 0)))
    case Checking(l, op) => At(s, i, Checked(l, Locked(s, l).serving, op))
    case Checked(l, current, op) =>
      At(s, i, if current == Locked(s, l).next then Released(l, op) else Loading(l, op))
    case Loading(l, op) => At(s, i, Storing(l, Locked(s, l).serving, op))
    case Storing(l, current, op) =>
      At(With(s, l, Locked(s, l).(serving := (current + 1) % WRAP)), i, Released(l, op))
  }

  // ----- who holds what

  predicate Releasing(t: Thread, l: Lock) {
    (t.Checking? || t.Checked? || t.Loading? || t.Storing?) && t.l == l
  }

  /** The first reader, which must get the global lock for all of them. */
  predicate FirstReader(t: Thread) {
    (t.Taking? || t.Waiting?) && t.l == Global && t.op == ReadLock
  }

  predicate Holds(t: Thread, l: Lock) {
    if l == Readers then t.Counting? || FirstReader(t) || Releasing(t, Readers)
      || (Releasing(t, Global) && t.op == ReadUnlock)
    else t.Writing? || Releasing(t, Global) || (Releasing(t, Readers) && t.op == Upgrade(true))
  }

  /** Threads that the counter counts. */
  predicate Counted(t: Thread) {
    || t.Reading?
    || ((t.Taking? || t.Waiting?) && t.l == Readers && t.op != ReadLock)
    || (t.Counting? && t.op != ReadLock)
    || FirstReader(t)
    || (Releasing(t, Readers) && t.op == ReadLock)
  }

  /** The operations that come to a place. */
  predicate Sensible(t: Thread) {
    match t
    case Taking(l, op) => if l == Readers then op in {ReadLock, ReadUnlock, Upgrade(false)}
                          else op in {ReadLock, WriteLock, Upgrade(false)}
    case Waiting(l, _, op) => if l == Readers then op in {ReadLock, ReadUnlock, Upgrade(false)}
                              else op in {ReadLock, WriteLock, Upgrade(false)}
    case Counting(op) => op in {ReadLock, ReadUnlock, Upgrade(false)}
    case Checking(l, op) => SensibleRelease(l, op)
    case Checked(l, _, op) => SensibleRelease(l, op)
    case Loading(l, op) => SensibleRelease(l, op)
    case Storing(l, _, op) => SensibleRelease(l, op)
    case _ => true
  }

  predicate SensibleRelease(l: Lock, op: Op) {
    if l == Readers then op.ReadLock? || op.ReadUnlock? || op.Upgrade? else op in {ReadUnlock, WriteUnlock}
  }

  // ----- the invariant

  /** A ticket belongs to the thread that drew it; the global one being served may belong to all readers together. */
  datatype Owner = Thr(i: nat) | Group

  /** A ticket lock in unbounded numbers, and the owners of the tickets that are out. */
  datatype Side = Side(next: nat, serving: nat, own: map<nat, Owner>)

  /** What the proof keeps beside the state: the unbounded number of each thread's latest ticket, and the threads that
      are counted. */
  datatype Aux = Aux(readers: Side, global: Side, ticket: seq<nat>, counted: set<nat>)

  function Of(a: Aux, l: Lock): Side {
    if l == Readers then a.readers else a.global
  }

  ghost predicate LockOk(s: State, a: Aux, l: Lock) {
    var k, d := Locked(s, l), Of(a, l);
    k.next == d.next % WRAP && k.serving == d.serving % WRAP && d.serving <= d.next
  }

  /** The ticket being served belongs to o. */
  predicate Served(d: Side, o: Owner) {
    d.serving < d.next && d.serving in d.own && d.own[d.serving] == o
  }

  ghost predicate WaitOk(a: Aux, i: nat, t: Thread) {
    t.Waiting? ==>
      && i < |a.ticket| && t.ticket == a.ticket[i] % WRAP
      && Of(a, t.l).serving <= a.ticket[i] < Of(a, t.l).next
      && a.ticket[i] in Of(a, t.l).own && Of(a, t.l).own[a.ticket[i]] == Thr(i)
  }

  ghost predicate HoldOk(a: Aux, i: nat, t: Thread) {
    && (Holds(t, Readers) ==> Served(a.readers, Thr(i)))
    && (Holds(t, Global) ==> Served(a.global, Thr(i)))
  }

  ghost predicate CountOk(a: Aux, i: nat, t: Thread) {
    && (Counted(t) <==> i in a.counted)
    && (FirstReader(t) ==> a.counted == {i} && !Served(a.global, Group))
    && (Counted(t) && !FirstReader(t) ==> Served(a.global, Group))
  }

  /** The values that an unlocking thread has loaded are still current. */
  ghost predicate LoadOk(s: State, t: Thread) {
    t.Checked? || t.Storing? ==> t.current == Locked(s, t.l).serving
  }

  ghost predicate ThreadOk(s: State, a: Aux, i: nat) {
    i < |s.th| ==>
      Sensible(s.th[i]) && WaitOk(a, i, s.th[i]) && HoldOk(a, i, s.th[i]) && CountOk(a, i, s.th[i])
        && LoadOk(s, s.th[i])
  }

  /** No ticket is lost: its owner is waiting with it, or holds the lock. */
  ghost predicate TicketOk(s: State, a: Aux, l: Lock, t: nat) {
    && t in Of(a, l).own
    && match Of(a, l).own[t]
       case Thr(i) =>
         && i < |s.th| && i < |a.ticket|
         && ((s.th[i].Waiting? && s.th[i].l == l && a.ticket[i] == t) || (t == Of(a, l).serving && Holds(s.th[i], l)))
       case Group => l == Global && t == a.global.serving && a.counted != {}
  }

  ghost predicate Inv(s: State, a: Aux) {
    && |a.ticket| == |s.th| && |s.th| + 2 < WRAP
    && LockOk(s, a, Readers) && LockOk(s, a, Global)
    && s.counter == |a.counted| && (forall i {:trigger i in a.counted} | i in a.counted :: i < |s.th|)
    && (forall i: nat {:trigger ThreadOk(s, a, i)} | i < |s.th| :: ThreadOk(s, a, i))
    && (forall l: Lock, t: nat {:trigger TicketOk(s, a, l, t)} | Of(a, l).serving <= t < Of(a, l).next ::
         TicketOk(s, a, l, t))
  }

  // ----- 64-bit tickets are enough

  /** Tickets behind the one being served belong to different threads. */
  lemma {:induction false} FewTickets(s: State, a: Aux, l: Lock, n: nat) returns (owners: set<nat>)
    requires Inv(s, a) && Of(a, l).serving + 1 <= n <= Of(a, l).next
    ensures |owners| == n - Of(a, l).serving - 1
    ensures forall i {:trigger i in owners} | i in owners :: i < |s.th| && a.ticket[i] < n
  {
    if n == Of(a, l).serving + 1 {
      owners := {};
    } else {
      var before := FewTickets(s, a, l, n - 1);
      assert TicketOk(s, a, l, n - 1);
      var i := Of(a, l).own[n - 1].i;
      owners := before + {i};
    }
  }

  lemma TicketsFit(s: State, a: Aux, l: Lock)
    requires Inv(s, a)
    ensures Of(a, l).next - Of(a, l).serving < WRAP - 1
  {
    if Of(a, l).serving < Of(a, l).next {
      var owners := FewTickets(s, a, l, Of(a, l).next);
      Bounded(owners, |s.th|);
    }
  }

  /** Equality in 64 bits is equality. */
  lemma SameTicket(x: nat, y: nat)
    requires x <= y < x + WRAP && x % WRAP == y % WRAP
    ensures x == y
  {
    var d := y - x;
    assert d == (y / WRAP - x / WRAP) * WRAP;
  }

  // ----- every step keeps the invariant

  /** How the bookkeeping follows a step. */
  ghost function Follow(s: State, a: Aux, i: nat): Aux
    requires i < |s.th|
  {
    match s.th[i]
    case Taking(l, op) =>
      var d := Of(a, l);
      Put(a, l, d.(next := d.next + 1, own := d.own[d.next := Thr(i)])).(ticket := seq(|a.ticket|,
          j requires 0 <= j < |a.ticket| => if j == i then d.next else a.ticket[j]))
    case Waiting(l, t, op) =>
      if Locked(s, l).serving == t && l == Global && op == ReadLock then Pass(a, Group) else a
    case Counting(op) =>
      if op == ReadLock then a.(counted := a.counted + {i})
      else
        var a' := a.(counted := a.counted - {i});
        if a.counted == {i} then Pass(a', Thr(i)) else a'
    case Storing(l, current, op) => Put(a, l, Of(a, l).(serving := Of(a, l).serving + 1))
    case _ => a
  }

  ghost function Put(a: Aux, l: Lock, d: Side): Aux {
    if l == Readers then a.(readers := d) else a.(global := d)
  }

  /** The global ticket being served changes hands without being given back. */
  ghost function Pass(a: Aux, o: Owner): Aux {
    a.(global := a.global.(own := a.global.own[a.global.serving := o]))
  }

  ghost predicate Before(s: State, a: Aux, i: nat) {
    Inv(s, a) && i < |s.th|
  }

  lemma TakeThread(s: State, a: Aux, i: nat, op: Op, j: nat)
    requires Before(s, a, i) && j < |s.th| && s.th[i].Taking?
    ensures ThreadOk(Next(s, i, op), Follow(s, a, i), j)
  {
    assert ThreadOk(s, a, i) && ThreadOk(s, a, j);
  }

  lemma TakeTicket(s: State, a: Aux, i: nat, op: Op, l: Lock, t: nat)
    requires Before(s, a, i) && s.th[i].Taking?
    requires Of(Follow(s, a, i), l).serving <= t < Of(Follow(s, a, i), l).next
    ensures TicketOk(Next(s, i, op), Follow(s, a, i), l, t)
  {
    assert ThreadOk(s, a, i);
    if l != s.th[i].l || t != Of(a, l).next {
      assert TicketOk(s, a, l, t);
    }
  }

  /** A waiting thread goes on exactly when its ticket, in unbounded numbers, is being served. */
  lemma WaitEnds(s: State, a: Aux, i: nat)
    requires Before(s, a, i) && s.th[i].Waiting?
    ensures Locked(s, s.th[i].l).serving == s.th[i].ticket <==> Of(a, s.th[i].l).serving == a.ticket[i]
    ensures Of(a, s.th[i].l).serving == a.ticket[i] ==> Served(Of(a, s.th[i].l), Thr(i))
  {
    assert ThreadOk(s, a, i);
    TicketsFit(s, a, s.th[i].l);
    if Locked(s, s.th[i].l).serving == s.th[i].ticket {
      SameTicket(Of(a, s.th[i].l).serving, a.ticket[i]);
    }
  }

  lemma WaitThread(s: State, a: Aux, i: nat, op: Op, j: nat)
    requires Before(s, a, i) && j < |s.th| && s.th[i].Waiting?
    ensures ThreadOk(Next(s, i, op), Follow(s, a, i), j)
  {
    WaitEnds(s, a, i);
    assert ThreadOk(s, a, i) && ThreadOk(s, a, j);
  }

  lemma WaitTicket(s: State, a: Aux, i: nat, op: Op, l: Lock, t: nat)
    requires Before(s, a, i) && s.th[i].Waiting?
    requires Of(Follow(s, a, i), l).serving <= t < Of(Follow(s, a, i), l).next
    ensures TicketOk(Next(s, i, op), Follow(s, a, i), l, t)
  {
    WaitEnds(s, a, i);
    assert ThreadOk(s, a, i) && TicketOk(s, a, l, t);
  }

  /** The thread that may change the count is the only one near it. */
  lemma CounterAlone(s: State, a: Aux, i: nat, j: nat)
    requires Before(s, a, i) && j < |s.th| && i != j && s.th[i].Counting?
    ensures !Holds(s.th[j], Readers) && !FirstReader(s.th[j])
    ensures Counted(s.th[j]) ==> Served(a.global, Group)
  {
    assert ThreadOk(s, a, i) && ThreadOk(s, a, j);
  }

  /** The readers hold the global lock together exactly when one of them is counted while the count may change. */
  lemma GroupHolds(s: State, a: Aux, i: nat)
    requires Before(s, a, i) && s.th[i].Counting?
    ensures a.counted != {} <==> Served(a.global, Group)
  {
    assert ThreadOk(s, a, i);
    if j :| j in a.counted {
      assert ThreadOk(s, a, j);
      if j != i {
        CounterAlone(s, a, i, j);
      }
    } else {
      assert Served(a.global, Group) ==> TicketOk(s, a, Global, a.global.serving);
    }
  }

  lemma WrapCount(c: nat)
    requires c + 1 < WRAP
    ensures (c + 1) % WRAP == c + 1 && (c > 0 ==> (c + WRAP - 1) % WRAP == c - 1)
  {
  }

  lemma CountNumbers(s: State, a: Aux, i: nat, op: Op)
    requires Before(s, a, i) && s.th[i].Counting?
    ensures Next(s, i, op).counter == |Follow(s, a, i).counted|
    ensures Next(s, i, op).counter == 0 <==> Follow(s, a, i).counted == {}
    ensures s.th[i].op == ReadLock ==> (Next(s, i, op).counter == 1 <==> a.counted == {})
    ensures s.th[i].op != ReadLock ==> (Next(s, i, op).counter == 0 <==> a.counted == {i})
    ensures forall j {:trigger j in Follow(s, a, i).counted} | j in Follow(s, a, i).counted :: j < |s.th|
  {
    assert ThreadOk(s, a, i);
    Bounded(a.counted, |s.th|);
    WrapCount(|a.counted|);
    if s.th[i].op == ReadLock {
      OneMore(a.counted, i);
    } else {
      OneLess(a.counted, i);
    }
  }

  lemma OneMore(c: set<nat>, i: nat)
    requires i !in c
    ensures |c + {i}| == |c| + 1 && c + {i} != {} && (|c + {i}| == 1 <==> c == {})
  {
  }

  lemma OneLess(c: set<nat>, i: nat)
    requires i in c
    ensures |c| > 0 && |c - {i}| == |c| - 1 && (|c| == 1 <==> c == {i}) && (c - {i} == {} <==> c == {i})
  {
    assert c == (c - {i}) + {i};
  }

  lemma CountSelf(s: State, a: Aux, i: nat, op: Op)
    requires Before(s, a, i) && s.th[i].Counting?
    ensures ThreadOk(Next(s, i, op), Follow(s, a, i), i)
  {
    CountNumbers(s, a, i, op);
    GroupHolds(s, a, i);
    assert ThreadOk(s, a, i);
  }

  lemma CountOther(s: State, a: Aux, i: nat, op: Op, j: nat)
    requires Before(s, a, i) && j < |s.th| && i != j && s.th[i].Counting?
    ensures ThreadOk(Next(s, i, op), Follow(s, a, i), j)
  {
    CountNumbers(s, a, i, op);
    CounterAlone(s, a, i, j);
    assert ThreadOk(s, a, i) && ThreadOk(s, a, j);
    assert Next(s, i, op).th[j] == s.th[j] && (j in Follow(s, a, i).counted <==> j in a.counted);
  }

  lemma CountTicket(s: State, a: Aux, i: nat, op: Op, l: Lock, t: nat)
    requires Before(s, a, i) && s.th[i].Counting?
    requires Of(Follow(s, a, i), l).serving <= t < Of(Follow(s, a, i), l).next
    ensures TicketOk(Next(s, i, op), Follow(s, a, i), l, t)
  {
    assert ThreadOk(s, a, i) && TicketOk(s, a, l, t);
    if l == Readers {
      CountNumbers(s, a, i, op);
    } else {
      CountGlobalTicket(s, a, i, op, t);
    }
  }

  lemma CountGlobalTicket(s: State, a: Aux, i: nat, op: Op, t: nat)
    requires Before(s, a, i) && s.th[i].Counting?
    requires a.global.serving <= t < a.global.next
    ensures TicketOk(Next(s, i, op), Follow(s, a, i), Global, t)
  {
    CountNumbers(s, a, i, op);
    GroupHolds(s, a, i);
    assert ThreadOk(s, a, i) && TicketOk(s, a, Global, t);
  }

  lemma StoreThread(s: State, a: Aux, i: nat, op: Op, j: nat)
    requires Before(s, a, i) && j < |s.th| && s.th[i].Storing?
    ensures ThreadOk(Next(s, i, op), Follow(s, a, i), j)
  {
    assert ThreadOk(s, a, i) && ThreadOk(s, a, j);
    var l := s.th[i].l;
    assert Of(a, l).serving + 1 < Of(a, l).next ==> TicketOk(s, a, l, Of(a, l).serving + 1);
  }

  lemma StoreTicket(s: State, a: Aux, i: nat, op: Op, l: Lock, t: nat)
    requires Before(s, a, i) && s.th[i].Storing?
    requires Of(Follow(s, a, i), l).serving <= t < Of(Follow(s, a, i), l).next
    ensures TicketOk(Next(s, i, op), Follow(s, a, i), l, t)
  {
    assert ThreadOk(s, a, i) && TicketOk(s, a, l, t);
  }

  /** `unlock` never finds the lock free. */
  lemma UnlockNotRefused(s: State, a: Aux, i: nat)
    requires Before(s, a, i) && s.th[i].Checked?
    ensures s.th[i].current != Locked(s, s.th[i].l).next
  {
    var l := s.th[i].l;
    assert ThreadOk(s, a, i);
    TicketsFit(s, a, l);
    if Locked(s, l).serving == Locked(s, l).next {
      SameTicket(Of(a, l).serving, Of(a, l).next);
      assert false;
    }
  }

  /** The other steps change nothing but the place of the thread. */
  predicate Moves(t: Thread) {
    !t.Taking? && !t.Waiting? && !t.Counting? && !t.Storing?
  }

  lemma MoveSelf(s: State, a: Aux, i: nat, op: Op)
    requires Before(s, a, i) && Moves(s.th[i])
    ensures ThreadOk(Next(s, i, op), Follow(s, a, i), i)
  {
    assert ThreadOk(s, a, i);
    if s.th[i].Checked? {
      UnlockNotRefused(s, a, i);
    }
  }

  lemma MoveOther(s: State, a: Aux, i: nat, op: Op, j: nat)
    requires Before(s, a, i) && j < |s.th| && i != j && Moves(s.th[i])
    ensures ThreadOk(Next(s, i, op), Follow(s, a, i), j)
  {
    assert ThreadOk(s, a, j);
  }

  lemma MoveTicket(s: State, a: Aux, i: nat, op: Op, l: Lock, t: nat)
    requires Before(s, a, i) && Moves(s.th[i])
    requires Of(Follow(s, a, i), l).serving <= t < Of(Follow(s, a, i), l).next
    ensures TicketOk(Next(s, i, op), Follow(s, a, i), l, t)
  {
    assert ThreadOk(s, a, i) && TicketOk(s, a, l, t);
    if s.th[i].Checked? {
      UnlockNotRefused(s, a, i);
    }
  }

  lemma StepThread(s: State, a: Aux, i: nat, op: Op, j: nat)
    requires Before(s, a, i) && j < |s.th|
    ensures ThreadOk(Next(s, i, op), Follow(s, a, i), j)
  {
    match s.th[i]
    case Taking(_, _) => TakeThread(s, a, i, op, j);
    case Waiting(_, _, _) => WaitThread(s, a, i, op, j);
    case Counting(_) =>
      if i == j {
        CountSelf(s, a, i, op);
      } else {
        CountOther(s, a, i, op, j);
      }
    case Storing(_, _, _) => StoreThread(s, a, i, op, j);
    case _ =>
      if i == j {
        MoveSelf(s, a, i, op);
      } else {
        MoveOther(s, a, i, op, j);
      }
  }

  lemma StepTicket(s: State, a: Aux, i: nat, op: Op, l: Lock, t: nat)
    requires Before(s, a, i)
    requires Of(Follow(s, a, i), l).serving <= t < Of(Follow(s, a, i), l).next
    ensures TicketOk(Next(s, i, op), Follow(s, a, i), l, t)
  {
    match s.th[i]
    case Taking(_, _) => TakeTicket(s, a, i, op, l, t);
    case Waiting(_, _, _) => WaitTicket(s, a, i, op, l, t);
    case Counting(_) => CountTicket(s, a, i, op, l, t);
    case Storing(_, _, _) => StoreTicket(s, a, i, op, l, t);
    case _ => MoveTicket(s, a, i, op, l, t);
  }

  lemma WrapNext(x: nat)
    ensures (x % WRAP + 1) % WRAP == (x + 1) % WRAP
  {
    assert x == x / WRAP * WRAP + x % WRAP;
    assert x % WRAP + 1 == WRAP ==> x + 1 == (x / WRAP + 1) * WRAP;
  }

  lemma StepLock(s: State, a: Aux, i: nat, op: Op, l: Lock)
    requires Before(s, a, i)
    ensures LockOk(Next(s, i, op), Follow(s, a, i), l)
  {
    assert ThreadOk(s, a, i) && LockOk(s, a, l);
    WrapNext(Of(a, l).next);
    WrapNext(Of(a, l).serving);
  }

  lemma StepCounted(s: State, a: Aux, i: nat, op: Op)
    requires Before(s, a, i)
    ensures |Follow(s, a, i).ticket| == |s.th| && Next(s, i, op).counter == |Follow(s, a, i).counted|
    ensures forall j {:trigger j in Follow(s, a, i).counted} | j in Follow(s, a, i).counted :: j < |s.th|
  {
    if s.th[i].Counting? {
      CountNumbers(s, a, i, op);
    }
  }

  /** Whatever a thread does next, the invariant holds after it. */
  lemma StepKeeps(s: State, a: Aux, i: nat, op: Op)
    requires Before(s, a, i)
    ensures Inv(Next(s, i, op), Follow(s, a, i))
  {
    var s', a' := Next(s, i, op), Follow(s, a, i);
    StepCounted(s, a, i, op);
    StepLock(s, a, i, op, Readers);
    StepLock(s, a, i, op, Global);
    forall j: nat {:trigger ThreadOk(s', a', j)} | j < |s'.th| ensures ThreadOk(s', a', j) {
      StepThread(s, a, i, op, j);
    }
    forall l: Lock, t: nat {:trigger TicketOk(s', a', l, t)} | Of(a', l).serving <= t < Of(a', l).next
      ensures TicketOk(s', a', l, t)
    {
      StepTicket(s, a, i, op, l, t);
    }
  }

  // ----- runs

  /** n threads, none of which uses the lock yet. */
  function Init(n: nat): State {
    State(Ticket(0, 0), Ticket(0, 0), 0, seq(n, _ => Idle))
  }

  /** Who takes each step, and which operation it chooses if it has a choice. */
  type Schedule = seq<(nat, Op)>

  function Run(s: State, sched: Schedule): (r: State)
    ensures |r.th| == |s.th|
    decreases |sched|
  {
    if sched == [] then s
    else Run(if sched[0].0 < |s.th| then Next(s, sched[0].0, sched[0].1) else s, sched[1..])
  }

  lemma InitOk(n: nat) returns (a: Aux)
    requires n + 2 < WRAP
    ensures Inv(Init(n), a)
  {
    a := Aux(Side(0, 0, map[]), Side(0, 0, map[]), seq(n, _ => 0), {});
    assert forall i: nat | i < n :: Init(n).th[i] == Idle;
  }

  lemma {:induction false} RunKeeps(s: State, a: Aux, sched: Schedule) returns (a': Aux)
    requires Inv(s, a)
    ensures Inv(Run(s, sched), a')
    decreases |sched|
  {
    if sched == [] {
      a' := a;
    } else if sched[0].0 < |s.th| {
      StepKeeps(s, a, sched[0].0, sched[0].1);
      a' := RunKeeps(Next(s, sched[0].0, sched[0].1), Follow(s, a, sched[0].0), sched[1..]);
    } else {
      a' := RunKeeps(s, a, sched[1..]);
    }
  }

  /** In every interleaving: a writer, upgraded or not, is alone. */
  lemma Exclusion(n: nat, sched: Schedule, i: nat, j: nat)
    requires n + 2 < WRAP && i < n && j < n && i != j
    requires Run(Init(n), sched).th[i].Writing?
    ensures !Run(Init(n), sched).th[j].Writing? && !Run(Init(n), sched).th[j].Reading?
  {
    var a := InitOk(n);
    var s := Run(Init(n), sched);
    a := RunKeeps(Init(n), a, sched);
    assert ThreadOk(s, a, i) && ThreadOk(s, a, j);
  }

  /** A reader never sees the lock free, so that the checks on entry to `read_unlock` and `upgrade` hold. */
  lemma ReaderSeesLock(s: State, a: Aux, i: nat)
    requires Before(s, a, i) && s.th[i].Reading?
    ensures s.counter > 0 && s.global.serving != s.global.next
  {
    assert ThreadOk(s, a, i);
    TicketsFit(s, a, Global);
    if s.global.serving == s.global.next {
      SameTicket(a.global.serving, a.global.next);
      assert false;
    }
  }

  /** Nor does a writer, but it finds a reader counted exactly while a first reader waits for it to end: then the check
      on entry to `write_unlock` fails. */
  lemma WriterSeesLock(s: State, a: Aux, i: nat)
    requires Before(s, a, i) && s.th[i].Writing?
    ensures s.global.serving != s.global.next
    ensures s.counter == 0 <==> forall j {:trigger s.th[j]} | 0 <= j < |s.th| :: !FirstReader(s.th[j])
  {
    assert ThreadOk(s, a, i);
    TicketsFit(s, a, Global);
    if s.global.serving == s.global.next {
      SameTicket(a.global.serving, a.global.next);
      assert false;
    }
    if j :| j in a.counted {
      assert ThreadOk(s, a, j);
    }
    forall j | 0 <= j < |s.th| && FirstReader(s.th[j]) ensures j in a.counted {
      assert ThreadOk(s, a, j);
    }
  }

  lemma {:induction false} RunAlone(s: State, i: nat, op: Op, n: nat, rest: Schedule)
    requires i < |s.th|
    ensures Run(s, seq(n, _ => (i, op)) + rest) == Run(Alone(s, i, op, n), rest)
    decreases n
  {
    var sched := seq(n, _ => (i, op)) + rest;
    if n == 0 {
      assert sched == rest;
    } else {
      assert sched[1..] == seq(n - 1, _ => (i, op)) + rest;
      RunAlone(Next(s, i, op), i, op, n - 1, rest);
    }
  }

  /** The state after n steps of thread i. */
  function Alone(s: State, i: nat, op: Op, n: nat): (r: State)
    requires i < |s.th|
    ensures |r.th| == |s.th|
    decreases n
  {
    if n == 0 then s else Alone(Next(s, i, op), i, op, n - 1)
  }

  /** Thread 0 is writing when thread 1 comes to read. */
  lemma WriterMeetsReader() returns (sched: Schedule)
    ensures Run(Init(2), sched).th[0].Writing? && Run(Init(2), sched).counter == 1
  {
    var s0 := Init(2);
    var s1 := Next(s0, 0, WriteLock);
    var s2 := Next(s1, 0, WriteLock);
    var s3 := Next(s2, 0, WriteLock);
    assert Alone(s0, 0, WriteLock, 3) == s3 && s3.th == [Writing, Idle];
    var s4 := Next(s3, 1, ReadLock);
    var s5 := Next(s4, 1, ReadLock);
    var s6 := Next(s5, 1, ReadLock);
    assert Alone(s3, 1, ReadLock, 4) == Next(s6, 1, ReadLock) && s6.th == [Writing, Counting(ReadLock)];
    var reader: Schedule := seq(4, _ => (1, ReadLock)) + [];
    sched := seq(3, _ => (0, WriteLock)) + reader;
    RunAlone(s0, 0, WriteLock, 3, reader);
    RunAlone(s3, 1, ReadLock, 4, []);
  }

  /** As long as a thread reads or writes, the ticket of the global lock that is served stays, whatever others do. */
  lemma {:induction false} ServingStays(s: State, a: Aux, i: nat, sched: Schedule) returns (a': Aux)
    requires Before(s, a, i) && (s.th[i].Reading? || s.th[i].Writing?)
    requires forall k {:trigger sched[k]} | 0 <= k < |sched| :: sched[k].0 != i
    ensures Before(Run(s, sched), a', i) && Run(s, sched).th[i] == s.th[i]
    ensures Run(s, sched).global.serving == s.global.serving
    decreases |sched|
  {
    a' := a;
    if sched != [] {
      var j, op, rest := sched[0].0, sched[0].1, sched[1..];
      assert j != i;
      if j < |s.th| {
        assert ThreadOk(s, a, i) && ThreadOk(s, a, j);
        StepKeeps(s, a, j, op);
        a' := ServingStays(Next(s, j, op), Follow(s, a, j), i, rest);
      } else {
        a' := ServingStays(s, a, i, rest);
      }
    }
  }

  /** The checks on entry load one after the other, while other threads take steps: first the ticket being served, then
      the next one, and the count. They hold for every reader, and for a writer unless a first reader waits. */
  lemma EntryChecks(s: State, a: Aux, i: nat, sched: Schedule)
    requires Before(s, a, i) && (s.th[i].Reading? || s.th[i].Writing?)
    requires forall k {:trigger sched[k]} | 0 <= k < |sched| :: sched[k].0 != i
    ensures s.global.serving != Run(s, sched).global.next
    ensures s.th[i].Reading? ==> Run(s, sched).counter > 0
    ensures s.th[i].Writing? ==>
              (Run(s, sched).counter == 0 <==>
                forall j {:trigger Run(s, sched).th[j]} | 0 <= j < |s.th| :: !FirstReader(Run(s, sched).th[j]))
  {
    var a' := ServingStays(s, a, i, sched);
    if s.th[i].Reading? {
      ReaderSeesLock(Run(s, sched), a', i);
    } else {
      WriterSeesLock(Run(s, sched), a', i);
    }
  }

  /** Locks are granted in the order of the tickets, which grow with every draw: who leaves the queue has the smallest
      ticket in it, and no two threads wait with the same one. */
  lemma FirstComeFirstServed(s: State, a: Aux, i: nat, op: Op, j: nat)
    requires Before(s, a, i) && j < |s.th| && i != j
    requires s.th[i].Waiting? && s.th[j].Waiting? && s.th[i].l == s.th[j].l && Next(s, i, op) != s
    ensures a.ticket[i] < a.ticket[j] < Of(a, s.th[i].l).next
  {
    WaitEnds(s, a, i);
    assert ThreadOk(s, a, i) && ThreadOk(s, a, j);
    assert a.ticket[i] == a.ticket[j] ==> Thr(i) == Thr(j);
  }

  // ----- no deadlock

  predicate Resting(t: Thread) {
    t.Idle? || t.Reading? || t.Writing?
  }

  ghost predicate CanMove(s: State, i: nat) {
    i < |s.th| && !Resting(s.th[i]) && forall op :: Next(s, i, op) != s
  }

  lemma BusyMoves(s: State, i: nat)
    requires i < |s.th| && !Resting(s.th[i]) && !s.th[i].Waiting?
    ensures CanMove(s, i)
  {
    forall op ensures Next(s, i, op) != s {
      assert Next(s, i, op).th[i] != s.th[i];
    }
  }

  lemma ServedMoves(s: State, a: Aux, i: nat)
    requires Before(s, a, i) && s.th[i].Waiting? && a.ticket[i] == Of(a, s.th[i].l).serving
    ensures CanMove(s, i)
  {
    WaitEnds(s, a, i);
    forall op ensures Next(s, i, op) != s {
      assert Next(s, i, op).th[i] != s.th[i];
    }
  }

  /** Behind every thread waiting for a lock there is one that can go on, or a holder that is at rest. */
  lemma GlobalMoves(s: State, a: Aux, i: nat) returns (j: nat)
    requires Before(s, a, i) && s.th[i].Waiting? && s.th[i].l == Global
    ensures j < |s.th| && (CanMove(s, j) || s.th[j].Reading? || s.th[j].Writing?
            || (s.th[j].Waiting? && s.th[j].l == Readers))
  {
    assert ThreadOk(s, a, i);
    assert TicketOk(s, a, Global, a.global.serving);
    match a.global.own[a.global.serving]
    case Thr(k) =>
      j := k;
      assert ThreadOk(s, a, k);
      if s.th[k].Waiting? && a.ticket[k] == a.global.serving && s.th[k].l == Global {
        ServedMoves(s, a, k);
      } else if !s.th[k].Writing? {
        BusyMoves(s, k);
      }
    case Group =>
      j :| j in a.counted;
      assert ThreadOk(s, a, j);
      if !s.th[j].Reading? && !s.th[j].Waiting? {
        BusyMoves(s, j);
      }
  }

  lemma ReadersMove(s: State, a: Aux, i: nat) returns (j: nat)
    requires Before(s, a, i) && s.th[i].Waiting? && s.th[i].l == Readers
    ensures j < |s.th| && (CanMove(s, j) || s.th[j].Writing?)
  {
    assert ThreadOk(s, a, i);
    assert TicketOk(s, a, Readers, a.readers.serving);
    var k := a.readers.own[a.readers.serving].i;
    assert ThreadOk(s, a, k);
    if s.th[k].Waiting? && s.th[k].l == Readers {
      j := k;
      ServedMoves(s, a, k);
    } else if s.th[k].Waiting? {
      // the first reader: the global lock is not with the readers yet
      assert TicketOk(s, a, Global, a.global.serving);
      j := a.global.own[a.global.serving].i;
      assert ThreadOk(s, a, j);
      if s.th[j].Waiting? {
        ServedMoves(s, a, j);
      } else if !s.th[j].Writing? {
        BusyMoves(s, j);
      }
    } else {
      j := k;
      BusyMoves(s, k);
    }
  }

  /** When thread i is in the middle of an operation, some thread can go on or keeps the lock. */
  lemma SomeoneMoves(s: State, a: Aux, i: nat) returns (j: nat)
    requires Before(s, a, i) && !Resting(s.th[i])
    ensures j < |s.th| && (CanMove(s, j) || s.th[j].Reading? || s.th[j].Writing?)
  {
    j := i;
    if !s.th[j].Waiting? {
      BusyMoves(s, j);
      return;
    }
    if s.th[j].l == Global {
      j := GlobalMoves(s, a, j);
    }
    if s.th[j].Waiting? && s.th[j].l == Readers {
      j := ReadersMove(s, a, j);
    }
  }

  /** As long as no thread keeps the lock, a thread that is in the middle of an operation means that some thread can go
      on. */
  lemma NoDeadlock(n: nat, sched: Schedule, i: nat) returns (j: nat)
    requires n + 2 < WRAP && i < n && !Resting(Run(Init(n), sched).th[i])
    ensures j < n && (CanMove(Run(Init(n), sched), j) || Run(Init(n), sched).th[j].Reading?
            || Run(Init(n), sched).th[j].Writing?)
  {
    var a := InitOk(n);
    a := RunKeeps(Init(n), a, sched);
    j := SomeoneMoves(Run(Init(n), sched), a, i);
  }
}
