/** Address spaces come and go: the constructor that shares the kernel half, and the destructor that gives the tables
    of the user half back. */
module PtSpaces {
  import opened PtEntry
  import opened PtState
  import opened PtSteps

  // ----- a new address space

  /** The entries of the kernel half before entry n have their tables. */
  ghost predicate HalfFilled(t: State, n: nat) {
    forall i: nat {:trigger Role(t.kernel, 3, i)} | 256 <= i < n :: Role(t.kernel, 3, i) in t.slot
  }

  ghost predicate CanOpen(t: State, a: Frame) {
    Ok(t) && a in t.pool && HalfFilled(t, 512)
  }

  /** An empty user half and the kernel's entries. */
  function NewRoot(root: seq<Word>): (r: seq<Word>)
    requires |root| == 512
    ensures |r| == 512 && (forall i | 0 <= i < 256 :: r[i] == 0) && forall i | 256 <= i < 512 :: r[i] == root[i]
  {
    EmptyTable()[..256] + root[256..]
  }

  lemma KernelRoot(t: State)
    requires Ok(t)
    ensures RoleOk(t, Role(t.kernel, 4, 0)) && TableOk(t, t.kernel) && t.slot[Role(t.kernel, 4, 0)] == t.kernel
  {
    assert SpaceOk(t, t.kernel);
    assert RoleOk(t, Role(t.kernel, 4, 0));
  }

  ghost function Opened(t: State, a: Frame): State
    requires CanOpen(t, a)
  {
    KernelRoot(t);
    t.(mem := t.mem[a := NewRoot(t.mem[t.kernel])], pool := t.pool - {a}, spaces := t.spaces + {a},
       slot := t.slot[Role(a, 4, 0) := a], role := t.role[a := Role(a, 4, 0)])
  }

  lemma OpenFacts(t: State, a: Frame)
    requires CanOpen(t, a)
    ensures FrameOk(a) && a !in t.mem && a !in t.role && a !in t.spaces && a != t.kernel
    ensures !Link(0)
    ensures forall l: nat, p: nat :: Role(a, l, p) !in t.slot
  {
    assert a in t.mem || a in t.role ==> TableOk(t, a);
    assert a in t.spaces ==> SpaceOk(t, a);
    KernelRoot(t);
    forall l: nat, p: nat ensures Role(a, l, p) !in t.slot {
      NoTreeWithoutRoot(t, Role(a, l, p));
    }
  }

  lemma NoTreeWithoutRoot(t: State, r: Role)
    requires Ok(t) && r.owner !in t.spaces
    ensures r !in t.slot
    decreases 4 - r.level
  {
    if r in t.slot {
      assert RoleOk(t, r);
      if r.level < 4 {
        NoTreeWithoutRoot(t, Up(r));
      }
    }
  }

  lemma OpenKeepsLink(t: State, a: Frame, r: Role, i: nat)
    requires CanOpen(t, a) && r.level > 1 && i < 512 && (r in t.slot || r == Role(a, 4, 0))
    ensures LinkOk(Opened(t, a), r, i)
  {
    OpenFacts(t, a);
    KernelRoot(t);
    if r in t.slot {
      assert RoleOk(t, r) && LinkOk(t, r, i);
    } else {
      assert LinkOk(t, Role(t.kernel, 4, 0), i);
    }
  }

  lemma OpenKeepsOk(t: State, a: Frame)
    requires CanOpen(t, a)
    ensures Ok(Opened(t, a))
  {
    OpenFacts(t, a);
    KernelRoot(t);
    var t' := Opened(t, a);
    forall b {:trigger TableOk(t', b)} | b in t'.mem || b in t'.role ensures TableOk(t', b) {
      assert b != a ==> TableOk(t, b);
    }
    forall q {:trigger RoleOk(t', q)} | q in t'.slot ensures RoleOk(t', q) {
      assert q in t.slot ==> RoleOk(t, q);
    }
    forall q: Role, j: nat {:trigger LinkOk(t', q, j)} | q in t'.slot && q.level > 1 && j < 512
      ensures LinkOk(t', q, j)
    {
      OpenKeepsLink(t, a, q, j);
    }
    forall s {:trigger SpaceOk(t', s)} | s in t'.spaces ensures SpaceOk(t', s) {
      assert s != a ==> SpaceOk(t, s);
    }
    forall j: nat {:trigger HalfOk(t', j)} | 256 <= j < 512 ensures HalfOk(t', j) {
      assert Role(t.kernel, 3, j) in t.slot;
    }
  }

  /** The new address space maps nothing below the kernel half and shows the kernel half; the others stay as they
      are. */
  lemma OpenMeaning(t: State, a: Frame, u: Frame, w: nat)
    requires CanOpen(t, a) && w < PAGES && (u in t.spaces || u == a)
    ensures Leaf(Opened(t, a).mem, u, w) ==
            if u != a then Leaf(t.mem, u, w) else if Index(w, 4) >= 256 then Leaf(t.mem, t.kernel, w) else 0
  {
    OpenFacts(t, a);
    OpenKeepsOk(t, a);
    var t' := Opened(t, a);
    LeafIs(t', u, w);
    var s := if u != a then u else t.kernel;
    LeafIs(t, s, w);
    if LeafRole(t, s, w) in t.slot {
      assert RoleOk(t, LeafRole(t, s, w));
    }
  }

  // ----- an address space goes away

  /** The role of the table at a level above, in the same tree. */
  function Top(q: Role, level: nat): (r: Role)
    ensures q.level <= level ==> r.level == level
    decreases level - q.level
  {
    if q.level >= level then q else Top(Up(q), level)
  }

  lemma {:induction false} TopStep(q: Role, level: nat)
    requires q.level <= level
    ensures Top(q, level + 1) == Up(Top(q, level))
    decreases level - q.level
  {
    if q.level < level {
      TopStep(Up(q), level);
    }
  }

  lemma {:induction false} TopPresent(t: State, q: Role, level: nat)
    requires Ok(t) && q in t.slot && q.level <= level <= 4
    ensures Top(q, level) in t.slot && Top(q, level).owner == q.owner
    decreases level - q.level
  {
    if q.level < level {
      assert RoleOk(t, q);
      TopPresent(t, Up(q), level);
    }
  }

  /** q is in the tree under the table with role r, reached through one of the entries from `start` to before `end`. */
  predicate Under(t: State, q: Role, r: Role, start: nat, end: nat) {
    && 0 < q.level < r.level
    && var c := Top(q, r.level - 1);
       start <= c.prefix % 512 < end && Child(t, r, c.prefix % 512) == c
  }

  /** The tables there. */
  ghost function Branch(t: State, r: Role, start: nat, end: nat): set<Frame> {
    set a | a in t.role && Under(t, t.role[a], r, start, end)
  }

  /** The table at c and all below it. */
  ghost function Tree(t: State, c: Role): set<Frame>
    requires c in t.slot
  {
    Branch(t, c, 0, 512) + {t.slot[c]}
  }

  lemma UnderStep(t: State, q: Role, r: Role, i: nat)
    requires Ok(t) && q in t.slot && r in t.slot && r.level > 1 && i < 512
    ensures Under(t, q, r, i, i + 1) <==>
            Child(t, r, i) in t.slot && (q == Child(t, r, i) || Under(t, q, Child(t, r, i), 0, 512))
  {
    var c := Child(t, r, i);
    assert RoleOk(t, q) && RoleOk(t, r);
    if q.level < c.level {
      TopStep(q, c.level - 1);
      TopPresent(t, q, c.level - 1);
      TopPresent(t, q, c.level);
      var d := Top(q, c.level - 1);
      assert RoleOk(t, d);
      assert Top(q, c.level) == Up(d);
      assert (r.prefix * 512 + i) % 512 == i;
    }
  }

  /** What entry i leads to. */
  lemma BranchStep(t: State, r: Role, start: nat, i: nat)
    requires Ok(t) && r in t.slot && r.level > 1 && start <= i < 512
    ensures Branch(t, r, start, i + 1) ==
            Branch(t, r, start, i) + if Child(t, r, i) in t.slot then Tree(t, Child(t, r, i)) else {}
    ensures Child(t, r, i) in t.slot ==> Branch(t, r, start, i) !! Tree(t, Child(t, r, i))
  {
    var c := Child(t, r, i);
    if c in t.slot {
      assert RoleOk(t, c);
    }
    forall a | a in t.role
      ensures a in Branch(t, r, start, i + 1) <==>
              a in Branch(t, r, start, i) || (c in t.slot && a in Tree(t, c))
      ensures !(a in Branch(t, r, start, i) && c in t.slot && a in Tree(t, c))
    {
      assert TableOk(t, a);
      UnderStep(t, t.role[a], r, i);
    }
  }

  lemma BranchEmpty(t: State, r: Role, i: nat)
    ensures Branch(t, r, i, i) == {}
    ensures r.level <= 1 ==> forall j: nat :: Branch(t, r, i, j) == {}
  {
  }

  /** Everything in the tree of an address space other than the kernel's is its root, or under its user half. */
  lemma WholeTree(t: State, s: Frame)
    requires Ok(t) && s in t.spaces && s != t.kernel
    ensures Role(s, 4, 0) in t.slot && t.slot[Role(s, 4, 0)] == s
    ensures Branch(t, Role(s, 4, 0), 0, 256) + {s} == Owned(t, s)
  {
    var r := Role(s, 4, 0);
    assert SpaceOk(t, s);
    assert RoleOk(t, r);
    forall a | a in t.role ensures a in Branch(t, r, 0, 256) + {s} <==> t.role[a].owner == s {
      var q := t.role[a];
      assert TableOk(t, a) && RoleOk(t, q);
      if q.level < 4 {
        TopPresent(t, q, 3);
        assert RoleOk(t, Top(q, 3)) && RoleOk(t, Up(Top(q, 3)));
      }
    }
  }

  ghost function Owned(t: State, s: Frame): set<Frame> {
    set a | a in t.role && t.role[a].owner == s
  }

  /** Without the tables of s. */
  ghost function Closed(t: State, s: Frame): State {
    t.(mem := t.mem - Owned(t, s), pool := t.pool + Owned(t, s), spaces := t.spaces - {s},
       slot := map r | r in t.slot && r.owner != s :: t.slot[r], role := t.role - Owned(t, s))
  }

  lemma CloseKeepsOk(t: State, s: Frame)
    requires Ok(t) && s in t.spaces && s != t.kernel
    ensures Ok(Closed(t, s))
  {
    var t' := Closed(t, s);
    forall b {:trigger TableOk(t', b)} | b in t'.mem || b in t'.role ensures TableOk(t', b) {
      assert TableOk(t, b);
    }
    forall q {:trigger RoleOk(t', q)} | q in t'.slot ensures RoleOk(t', q) {
      assert RoleOk(t, q);
      assert TableOk(t, t.slot[q]);
    }
    forall q: Role, j: nat {:trigger LinkOk(t', q, j)} | q in t'.slot && q.level > 1 && j < 512
      ensures LinkOk(t', q, j)
    {
      assert RoleOk(t, q) && LinkOk(t, q, j);
    }
    KernelRoot(t);
    forall u {:trigger SpaceOk(t', u)} | u in t'.spaces ensures SpaceOk(t', u) {
      assert SpaceOk(t, u);
      assert RoleOk(t, Role(u, 4, 0));
    }
    forall j: nat {:trigger HalfOk(t', j)} | 256 <= j < 512 ensures HalfOk(t', j) {
      assert HalfOk(t, j);
    }
    forall a | a in t'.pool ensures FrameOk(a) {
      assert a in t.role ==> TableOk(t, a);
    }
  }

  /** The other address spaces, and with them the kernel half, stay as they are. */
  lemma CloseMeaning(t: State, s: Frame, u: Frame, w: nat)
    requires Ok(t) && s in t.spaces && s != t.kernel && u in t.spaces && u != s && w < PAGES
    ensures Leaf(Closed(t, s).mem, u, w) == Leaf(t.mem, u, w)
  {
    CloseKeepsOk(t, s);
    LeafIs(t, u, w);
    LeafIs(Closed(t, s), u, w);
    if LeafRole(t, u, w) in t.slot {
      assert RoleOk(t, LeafRole(t, u, w));
    }
  }

  // ----- the recursion of the destructor

  lemma TreeTop(t: State, r: Role)
    requires Ok(t) && r in t.slot
    ensures t.slot[r] in t.mem && |t.mem[t.slot[r]]| == 512 && t.slot[r] in t.role && t.role[t.slot[r]] == r
    ensures forall i: nat, j: nat :: t.slot[r] !in Branch(t, r, i, j)
  {
    assert RoleOk(t, r);
    assert TableOk(t, t.slot[r]);
  }

  /** What entry i of the table with role r leads to is the next part of the branch. */
  lemma BranchesGrow(t: State, r: Role, start: nat, i: nat, end: nat)
    requires Ok(t) && r in t.slot && start <= i < end <= 512
    ensures t.slot[r] in t.mem && i < |t.mem[t.slot[r]]| && r.level > 0
    ensures var e := t.mem[t.slot[r]][i]; var c := Child(t, r, i);
            && Branch(t, r, start, i) <= Branch(t, r, start, i + 1) <= Branch(t, r, start, end)
            && (r.level > 1 && Link(e) ==>
                  && c in t.slot && t.slot[c] == Target(e) && c.level == r.level - 1
                  && Branch(t, r, start, i + 1) == Branch(t, r, start, i) + (Branch(t, c, 0, 512) + {Target(e)})
                  && Branch(t, r, start, i) !! (Branch(t, c, 0, 512) + {Target(e)}))
            && (r.level <= 1 || !Link(e) ==> Branch(t, r, start, i + 1) == Branch(t, r, start, i))
  {
    TreeTop(t, r);
    assert RoleOk(t, r);
    if r.level > 1 {
      assert LinkOk(t, r, i);
      BranchStep(t, r, start, i);
    } else {
      BranchEmpty(t, r, start);
    }
  }

  lemma OwnedPresent(t: State, s: Frame)
    requires Ok(t)
    ensures forall a {:trigger a in t.mem} | a in Owned(t, s) :: a in t.mem
  {
    forall a | a in Owned(t, s) ensures a in t.mem {
      assert TableOk(t, a);
    }
  }
}
