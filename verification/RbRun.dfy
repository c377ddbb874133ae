/** Runs of operations on the tree itself. */
module RbRun {
  import opened RbShape
  import opened RbStable
  import RbTree

  /** The tree holds the items of the queue, in its order and with its keys. */
  ghost predicate Holds(t: RbTree.RbTree, q: Queue)
    reads t
  {
    t.Valid() && t.Items() == q.items && t.key == q.key
  }

  lemma Member(s: Shape, z: nat)
    requires Positions(s) && z < |s.pos|
    ensures z in s.order <==> In(s, z)
    ensures In(s, z) ==> 0 <= s.pos[z] < |s.order| && Find(s.order, z) == s.pos[z]
  {
    if In(s, z) {
      var p := s.pos[z];
      assert s.order[p] == z;
      forall i | 0 <= i < p ensures s.order[i] != s.order[p] {
        assert s.pos[s.order[i]] == i;
      }
      FindIs(s.order, p);
    }
    if z in s.order {
      var i :| 0 <= i < |s.order| && s.order[i] == z;
      assert s.pos[s.order[i]] == i;
    }
  }

  /** One operation: an item gets its key and is inserted, or is removed. */
  method Apply(t: RbTree.RbTree, op: Op, ghost q: Queue)
    requires Holds(t, q) && Allowed(q, op)
    modifies t
    ensures Holds(t, Step(q, op))
  {
    Member(t.shape, op.item);
    match op
    case Add(z, k) =>
      t.SetKey(z, k);
      t.Insert(z);
    case Take(z) =>
      t.Remove(z);
  }

  /** After any run the items of the tree are those of the queue: sorted by key, and by age among equal keys. */
  method Execute(t: RbTree.RbTree, ops: seq<Op>, ghost q: Queue)
    requires Holds(t, q) && Stable(q) && Runnable(q, ops)
    modifies t
    ensures Holds(t, Run(q, ops)) && Stable(Run(q, ops))
    decreases |ops|
  {
    RunStable(q, ops);
    if ops != [] {
      Apply(t, ops[0], q);
      StepStable(q, ops[0]);
      Execute(t, ops[1..], Step(q, ops[0]));
    }
  }
}
