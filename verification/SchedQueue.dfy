/** How the run queue develops: threads leave it only at its head. */
module SchedQueue {
  import opened RbThread
  import opened RbStable

  /** Every thread that is taken is the first of the queue at that time. */
  ghost predicate HeadsOnly(q: Queue, ops: seq<Op>)
    decreases |ops|
  {
    ops != [] ==>
      && Allowed(q, ops[0]) && (ops[0].Take? ==> ops[0].item == q.items[0])
      && HeadsOnly(Step(q, ops[0]), ops[1..])
  }

  lemma {:induction false} HeadsRunnable(q: Queue, ops: seq<Op>)
    requires HeadsOnly(q, ops)
    ensures Runnable(q, ops)
    decreases |ops|
  {
    if ops != [] {
      HeadsRunnable(Step(q, ops[0]), ops[1..]);
    }
  }

  /** The queue has gone through the operations. */
  ghost predicate Moved(q: Queue, ops: seq<Op>, q': Queue) {
    HeadsOnly(q, ops) && Runnable(q, ops) && q' == Run(q, ops)
  }

  lemma MovedFirst(q: Queue, op: Op, rest: seq<Op>, q': Queue)
    requires Allowed(q, op) && (op.Take? ==> op.item == q.items[0]) && Moved(Step(q, op), rest, q')
    ensures Moved(q, [op] + rest, q')
  {
    var ops := [op] + rest;
    assert ops[0] == op && ops[1..] == rest;
  }

  lemma MovedRest(q: Queue, ops: seq<Op>, q': Queue)
    requires ops != [] && Moved(q, ops, q')
    ensures Allowed(q, ops[0]) && (ops[0].Take? ==> ops[0].item == q.items[0]) && Moved(Step(q, ops[0]), ops[1..], q')
  {
  }

  lemma Split(ops: seq<Op>, more: seq<Op>)
    ensures if ops == [] then ops + more == more else ops + more == [ops[0]] + (ops[1..] + more)
  {
  }

  lemma {:induction false} MovedMore(q: Queue, ops: seq<Op>, q': Queue, more: seq<Op>, q'': Queue)
    requires Moved(q, ops, q') && Moved(q', more, q'')
    ensures Moved(q, ops + more, q'')
    decreases |ops|
  {
    Split(ops, more);
    if ops != [] {
      MovedRest(q, ops, q');
      MovedMore(Step(q, ops[0]), ops[1..], q', more, q'');
      MovedFirst(q, ops[0], ops[1..] + more, q'');
    }
  }

  lemma MovedOne(q: Queue, op: Op)
    requires Allowed(q, op) && (op.Take? ==> op.item == q.items[0])
    ensures Moved(q, [op], Step(q, op))
  {
    assert [op][1..] == [];
  }

  // ----- nobody is overtaken

  lemma OpsAfter(ops: seq<Op>, op: Op)
    requires ops != []
    ensures op in ops <==> op == ops[0] || op in ops[1..]
  {
    assert ops == [ops[0]] + ops[1..];
  }

  /** What one operation does to two waiting threads of which one is before the other. */
  lemma StepKeepsOrder(q: Queue, op: Op, y: nat, z: nat)
    requires Stable(q) && Allowed(q, op) && (op.Take? ==> op.item == q.items[0]) && op != Take(y)
    requires y in q.items && z in q.items && Earlier(q, y, z)
    ensures Stable(Step(q, op)) && op != Take(z)
    ensures y in Step(q, op).items && z in Step(q, op).items && Earlier(Step(q, op), y, z)
  {
    StepStable(q, op);
    FirstIsEarliest(q, y);
    if op.Add? {
      var p := Place(q.items, q.key[op.item := op.k], op.k);
      assert q.items == q.items[..p] + q.items[p..];
    } else {
      FindIs(q.items, 0);
      assert q.items == [q.items[0]] + q.items[1..];
    }
  }

  /** Whoever waits behind another one goes on waiting until that one has been taken. */
  lemma {:induction false} NoOvertaking(q: Queue, ops: seq<Op>, y: nat, z: nat)
    requires Stable(q) && HeadsOnly(q, ops) && Runnable(q, ops)
    requires y in q.items && z in q.items && Earlier(q, y, z) && Take(y) !in ops
    ensures Stable(Run(q, ops)) && Take(z) !in ops
    ensures y in Run(q, ops).items && z in Run(q, ops).items && Earlier(Run(q, ops), y, z)
    decreases |ops|
  {
    if ops != [] {
      OpsAfter(ops, Take(y));
      OpsAfter(ops, Take(z));
      StepKeepsOrder(q, ops[0], y, z);
      NoOvertaking(Step(q, ops[0]), ops[1..], y, z);
    }
  }

  /** A thread that is queued is behind all that wait already under the same key or a smaller one. */
  lemma QueuedBehind(q: Queue, z: nat, k: int, y: nat)
    requires Stable(q) && Allowed(q, Add(z, k)) && y in q.items && q.key[y] <= k
    ensures Earlier(Step(q, Add(z, k)), y, z)
  {
    var i :| 0 <= i < |q.items| && q.items[i] == y;
    assert q.stamp[q.items[i]] < q.clock;
  }

  // ----- taking the first ones

  /** The first n threads are taken, one by one. */
  function Fronts(items: seq<nat>, n: nat): (ops: seq<Op>)
    requires n <= |items|
    ensures |ops| == n
  {
    if n == 0 then [] else [Take(items[0])] + Fronts(items[1..], n - 1)
  }

  lemma TakeHead(q: Queue)
    requires Stable(q) && q.items != []
    ensures Allowed(q, Take(q.items[0])) && Step(q, Take(q.items[0])) == q.(items := q.items[1..])
    ensures Stable(q.(items := q.items[1..]))
  {
    FindIs(q.items, 0);
    StepStable(q, Take(q.items[0]));
    assert q.items[1..] == q.items[..0] + q.items[1..];
  }

  /** Taking the first thread, and then n more. */
  lemma FrontsMoveOn(q: Queue, n: nat, q'': Queue)
    requires Stable(q) && n < |q.items|
    requires Moved(q.(items := q.items[1..]), Fronts(q.items[1..], n), q'')
    ensures Moved(q, Fronts(q.items, n + 1), q'')
  {
    TakeHead(q);
    MovedFirst(q, Take(q.items[0]), Fronts(q.items[1..], n), q'');
  }

  lemma SliceOn(items: seq<nat>, n: nat)
    requires 0 < n <= |items|
    ensures items[1..][n - 1..] == items[n..]
  {
  }

  lemma {:induction false} FrontsMove(q: Queue, n: nat)
    requires Stable(q) && n <= |q.items|
    ensures Moved(q, Fronts(q.items, n), q.(items := q.items[n..]))
    decreases n
  {
    if n == 0 {
      assert q.items[0..] == q.items;
    } else {
      TakeHead(q);
      FrontsMove(q.(items := q.items[1..]), n - 1);
      SliceOn(q.items, n);
      FrontsMoveOn(q, n - 1, q.(items := q.items[n..]));
    }
  }
}
