/** What any run of insertions and removals leaves in the thread: the items by key, equal keys in the order in
    which they were inserted.  `Inserted` and `Deleted` are what `RbTree.Insert` and `RbTree.Remove` do to it. */
module RbStable {
  import opened RbEdit
  import opened RbThread

  datatype Op = Add(item: nat, k: int) | Take(item: nat)

  /** The thread, and for every item its key and the time of its last insertion. */
  datatype Queue = Queue(items: seq<nat>, key: seq<int>, stamp: seq<nat>, clock: nat)

  ghost predicate Allowed(q: Queue, op: Op) {
    && |q.stamp| == |q.key| && Within(q.items, |q.key|) && 0 < op.item < |q.key|
    && if op.Add? then op.item !in q.items else op.item in q.items
  }

  function Find(items: seq<nat>, z: nat): (p: nat)
    requires z in items
    ensures p < |items| && items[p] == z
  {
    if items[0] == z then 0 else 1 + Find(items[1..], z)
  }

  /** The place of an item is where the tree has it, as no item occurs twice. */
  lemma {:induction false} FindIs(items: seq<nat>, p: nat)
    requires p < |items| && forall i | 0 <= i < p :: items[i] != items[p]
    ensures Find(items, items[p]) == p
  {
    if p != 0 {
      FindIs(items[1..], p - 1);
    }
  }

  /** An added item gets its key before it is queued. */
  function Step(q: Queue, op: Op): Queue
    requires Allowed(q, op)
  {
    match op
    case Add(z, k) =>
      var key := q.key[z := k];
      Queue(Inserted(q.items, Place(q.items, key, k), z), key, q.stamp[z := q.clock], q.clock + 1)
    case Take(z) =>
      q.(items := Deleted(q.items, Find(q.items, z)))
  }

  ghost predicate Runnable(q: Queue, ops: seq<Op>)
    decreases |ops|
  {
    ops != [] ==> Allowed(q, ops[0]) && Runnable(Step(q, ops[0]), ops[1..])
  }

  ghost function Run(q: Queue, ops: seq<Op>): Queue
    requires Runnable(q, ops)
    decreases |ops|
  {
    if ops == [] then q else Run(Step(q, ops[0]), ops[1..])
  }

  ghost predicate Earlier(q: Queue, a: nat, b: nat)
    requires a < |q.key| == |q.stamp| && b < |q.key|
  {
    q.key[a] < q.key[b] || (q.key[a] == q.key[b] && q.stamp[a] < q.stamp[b])
  }

  /** Ordered by key, and by age among equal keys. */
  ghost predicate Stable(q: Queue) {
    && |q.stamp| == |q.key| && Within(q.items, |q.key|)
    && (forall i | 0 <= i < |q.items| :: q.stamp[q.items[i]] < q.clock)
    && (forall i, j | 0 <= i < j < |q.items| :: Earlier(q, q.items[i], q.items[j]))
  }

  lemma StepStable(q: Queue, op: Op)
    requires Stable(q) && Allowed(q, op)
    ensures Stable(Step(q, op))
  {
    match op
    case Add(z, k) =>
      var p := Place(q.items, q.key[z := k], k);
      InsertWithin(q.items, |q.key|, p, z);
      PlaceSplits(q, z, k, p);
      AddStable(q, Step(q, op), z, k, p);
    case Take(z) =>
      DeleteWithin(q.items, |q.key|, Find(q.items, z));
  }

  lemma PlaceSplits(q: Queue, z: nat, k: int, p: nat)
    requires Stable(q) && z !in q.items && 0 < z < |q.key| && p == Place(q.items, q.key[z := k], k)
    ensures forall i {:trigger q.items[i]} | 0 <= i < |q.items| ::
              q.items[i] != z && (i < p <==> q.key[q.items[i]] <= k)
  {
    forall i | 0 <= i < |q.items| ensures q.items[i] != z && (i < p <==> q.key[q.items[i]] <= k) {
      if p < i {
        assert Earlier(q, q.items[p], q.items[i]);
      }
    }
  }

  lemma AddStable(q: Queue, q': Queue, z: nat, k: int, p: nat)
    requires Stable(q) && 0 < z < |q.key| && p <= |q.items| && InsertedAt(q.items, q'.items, p, z)
    requires q'.key == q.key[z := k] && q'.stamp == q.stamp[z := q.clock] && q'.clock == q.clock + 1
    requires forall i {:trigger q.items[i]} | 0 <= i < |q.items| ::
               q.items[i] != z && (i < p <==> q.key[q.items[i]] <= k)
    ensures Stable(q')
  {
    forall i | 0 <= i < |q'.items| ensures 0 < q'.items[i] < |q'.key| && q'.stamp[q'.items[i]] < q'.clock {
      assert i != p ==> q'.items[i] == q.items[if i < p then i else i - 1];
    }
    forall i, j | 0 <= i < j < |q'.items| ensures Earlier(q', q'.items[i], q'.items[j]) {
      assert i != p ==> q'.items[i] == q.items[if i < p then i else i - 1];
      assert j != p ==> q'.items[j] == q.items[if j < p then j else j - 1];
      assert i != p && j != p ==> Earlier(q, q'.items[i], q'.items[j]);
    }
  }

  lemma {:induction false} RunStable(q: Queue, ops: seq<Op>)
    requires Stable(q) && Runnable(q, ops)
    ensures Stable(Run(q, ops))
    decreases |ops|
  {
    if ops != [] {
      StepStable(q, ops[0]);
      RunStable(Step(q, ops[0]), ops[1..]);
    }
  }

  lemma FirstIsEarliest(q: Queue, z: nat)
    requires Stable(q) && z in q.items
    ensures z == q.items[0] || Earlier(q, q.items[0], z)
  {
  }

  lemma SameEmptiness(a: seq<nat>, b: seq<nat>)
    requires forall z :: z in a <==> z in b
    ensures a == [] <==> b == []
  {
    if a != [] {
      assert a[0] in b;
    }
    if b != [] {
      assert b[0] in a;
    }
  }

  /** Keys and ages leave only one possible order. */
  lemma {:induction false} StableUnique(a: Queue, b: Queue)
    requires Stable(a) && Stable(b) && a.key == b.key && a.stamp == b.stamp
    requires forall z :: z in a.items <==> z in b.items
    ensures a.items == b.items
    decreases |a.items|
  {
    SameEmptiness(a.items, b.items);
    if a.items != [] {
      var x := a.items[0];
      FirstIsEarliest(a, b.items[0]);
      FirstIsEarliest(b, x);
      var a', b' := a.(items := a.items[1..]), b.(items := b.items[1..]);
      forall z ensures z in a'.items <==> z in b'.items {
        assert z in a.items <==> z == x || z in a'.items;
        assert z in b.items <==> z == x || z in b'.items;
        assert z in a'.items ==> Earlier(a, x, z);
        assert z in b'.items ==> Earlier(b, x, z);
      }
      StableUnique(a', b');
    }
  }
}
