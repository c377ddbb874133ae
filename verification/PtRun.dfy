/** Whole runs of operations on the page maps of all address spaces. */
module PtRun {
  import opened PtEntry
  import opened PtState
  import opened PtSteps
  import opened PtSpaces

  /** A range of pages of address space s is changed, or s comes into being, or goes away. */
  datatype Op = Change(s: Frame, edit: Edit, first: nat, n: nat) | Create(s: Frame) | Destroy(s: Frame)

  /** The kernel half has all its tables, as the first page map has had since it was made. */
  ghost predicate Booted(t: State) {
    Ok(t) && HalfFilled(t, 512)
  }

  ghost predicate Took(t: State, op: Op, t': State) {
    match op
    case Change(s, edit, first, n) => s in t.spaces && Ok(t') && Done(t, t', edit, s, first, n)
    case Create(s) => CanOpen(t, s) && t' == Opened(t, s)
    case Destroy(s) => Ok(t) && s in t.spaces && s != t.kernel && t' == Closed(t, s)
  }

  lemma StepBooted(t: State, op: Op, t': State)
    requires Booted(t) && Took(t, op, t')
    ensures Booted(t') && t'.kernel == t.kernel
  {
    match op
    case Change(s, edit, first, n) =>
      assert forall i: nat :: Role(t.kernel, 3, i) in t.slot ==> Role(t.kernel, 3, i) in t'.slot;
    case Create(s) =>
      OpenKeepsOk(t, s);
    case Destroy(s) =>
      CloseKeepsOk(t, s);
  }

  /** states[i] is the state before operation i. */
  ghost predicate History(states: seq<State>, ops: seq<Op>) {
    |states| == |ops| + 1 && forall i: nat {:trigger TookAt(states, ops, i)} | i < |ops| :: TookAt(states, ops, i)
  }

  ghost predicate TookAt(states: seq<State>, ops: seq<Op>, i: nat) {
    i < |ops| && i + 1 < |states| && Took(states[i], ops[i], states[i + 1])
  }

  lemma {:induction false} RunBooted(states: seq<State>, ops: seq<Op>, n: nat)
    requires History(states, ops) && Booted(states[0]) && n <= |ops|
    ensures Booted(states[n])
  {
    if n != 0 {
      RunBooted(states, ops, n - 1);
      assert TookAt(states, ops, n - 1);
      StepBooted(states[n - 1], ops[n - 1], states[n]);
    }
  }

  /** Whatever has been mapped and unmapped, created and destroyed in between: all address spaces walk to the same
      entries in the kernel half. */
  lemma RunCoherent(states: seq<State>, ops: seq<Op>, n: nat, s: Frame, u: Frame, v: nat)
    requires History(states, ops) && Booted(states[0]) && n <= |ops|
    requires s in states[n].spaces && u in states[n].spaces && v < PAGES && Index(v, 4) >= 256
    ensures Walk(states[n].mem, s, 4, v) == Walk(states[n].mem, u, 4, v)
    ensures Leaf(states[n].mem, s, v) == Leaf(states[n].mem, u, v)
  {
    RunBooted(states, ops, n);
    KernelHalfShared(states[n], s, u, v);
  }

  /** An address space that no operation is about keeps its user half. */
  lemma {:induction false} RunIsolated(states: seq<State>, ops: seq<Op>, n: nat, u: Frame, w: nat)
    requires History(states, ops) && Booted(states[0]) && n <= |ops| && u in states[0].spaces
    requires w < PAGES && Index(w, 4) < 256 && forall i: nat {:trigger ops[i]} | i < n :: ops[i].s != u
    ensures u in states[n].spaces && Leaf(states[n].mem, u, w) == Leaf(states[0].mem, u, w)
  {
    if n != 0 {
      RunIsolated(states, ops, n - 1, u, w);
      RunBooted(states, ops, n - 1);
      var t, op, t' := states[n - 1], ops[n - 1], states[n];
      assert TookAt(states, ops, n - 1);
      match op
      case Change(s, edit, first, k) =>
        assert Leaf(t'.mem, u, w) == Leaf(t.mem, u, w);
      case Create(s) =>
        OpenMeaning(t, s, u, w);
      case Destroy(s) =>
        CloseMeaning(t, s, u, w);
    }
  }
}
