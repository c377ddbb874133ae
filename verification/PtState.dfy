/** The page tables of all address spaces together: which table stands where in which tree. */
module PtState {
  import opened PtEntry

  /** Page numbers have 36 bits: four indices of 9. */
  const PAGES: nat := 0x10_0000_0000

  /** Table `prefix` among the tables of a level, in the tree of `owner`; level 4 is the root, and the entries of
      level 1 are the leaves. The tables below the kernel half belong to the kernel's address space. */
  datatype Role = Role(owner: Frame, level: nat, prefix: nat)

  /** `mem` is what is in memory, `pool` the free frames; `kernel` and `spaces` are the roots. `slot` and `role`
      are inverse to each other. */
  datatype State = State(mem: map<Frame, seq<Word>>, pool: set<Frame>, kernel: Frame, spaces: set<Frame>,
                         slot: map<Role, Frame>, role: map<Frame, Role>)

  function Child(t: State, r: Role, i: nat): Role
    requires r.level > 0
  {
    Role(if r.level == 4 && i >= 256 then t.kernel else r.owner, r.level - 1, r.prefix * 512 + i)
  }

  ghost predicate TableOk(t: State, a: Frame) {
    && a in t.mem && |t.mem[a]| == 512 && FrameOk(a) && a !in t.pool
    && a in t.role && t.role[a] in t.slot && t.slot[t.role[a]] == a
  }

  ghost predicate RoleOk(t: State, r: Role) {
    && r in t.slot && t.slot[r] in t.mem && t.slot[r] in t.role && t.role[t.slot[r]] == r
    && 1 <= r.level <= 4
    && if r.level == 4 then r.prefix == 0 && r.owner in t.spaces && t.slot[r] == r.owner
       else Up(r) in t.slot && Child(t, Up(r), r.prefix % 512) == r
  }

  /** The table that a table hangs from; for the kernel half, the one in the kernel's own tree. */
  function Up(r: Role): Role {
    Role(r.owner, r.level + 1, r.prefix / 512)
  }

  /** Entry i of a table above level 1 leads to the table that belongs there, if there is one, and is empty otherwise.
      */
  ghost predicate LinkOk(t: State, r: Role, i: nat)
    requires r.level > 0
  {
    && r in t.slot && t.slot[r] in t.mem && i < |t.mem[t.slot[r]]|
    && var e := t.mem[t.slot[r]][i]; var c := Child(t, r, i);
       (Link(e) <==> c in t.slot) && if Link(e) then t.slot[c] == Target(e) && e == TableEntry(Target(e)) else e == 0
  }

  ghost predicate SpaceOk(t: State, s: Frame) {
    && Role(s, 4, 0) in t.slot && s in t.mem && t.kernel in t.mem
    && |t.mem[s]| == |t.mem[t.kernel]| == 512 && t.mem[s][256..] == t.mem[t.kernel][256..]
  }

  /** The kernel half is complete, or there is no other address space yet. */
  ghost predicate HalfOk(t: State, i: nat) {
    t.spaces == {t.kernel} || Role(t.kernel, 3, i) in t.slot
  }

  ghost predicate Ok(t: State) {
    && t.kernel in t.spaces
    && (forall a {:trigger TableOk(t, a)} | a in t.mem || a in t.role :: TableOk(t, a))
    && (forall r {:trigger RoleOk(t, r)} | r in t.slot :: RoleOk(t, r))
    && (forall r: Role, i: nat {:trigger LinkOk(t, r, i)} | r in t.slot && r.level > 1 && i < 512 :: LinkOk(t, r, i))
    && (forall s {:trigger SpaceOk(t, s)} | s in t.spaces :: SpaceOk(t, s))
    && (forall i: nat {:trigger HalfOk(t, i)} | 256 <= i < 512 :: HalfOk(t, i))
    && (forall a {:trigger FrameOk(a)} | a in t.pool :: FrameOk(a))
  }

  // ----- page numbers and their indices

  function Shifted(v: nat, n: nat): nat {
    if n == 0 then v else Shifted(v, n - 1) / 512
  }

  /** The index of page v in a table of a level. */
  function Index(v: nat, level: nat): (i: nat)
    requires level > 0
    ensures i < 512
  {
    Shifted(v, level - 1) % 512
  }

  /** The root of the tree in which page v of address space s is found. */
  function Owner(t: State, s: Frame, v: nat): Frame {
    if Index(v, 4) >= 256 then t.kernel else s
  }

  /** The role of the table at a level on the way to page v. */
  function OnPath(t: State, s: Frame, v: nat, level: nat): Role {
    Role(if level == 4 then s else Owner(t, s, v), level, Shifted(v, level))
  }

  lemma OnPathStep(t: State, s: Frame, v: nat, level: nat)
    requires 1 < level <= 4
    ensures Child(t, OnPath(t, s, v, level), Index(v, level)) == OnPath(t, s, v, level - 1)
    ensures level < 4 ==> Up(OnPath(t, s, v, level - 1)) == OnPath(t, s, v, level)
  {
    assert Shifted(v, level) == Shifted(v, level - 1) / 512;
  }

  lemma TopPrefix(v: nat)
    requires v < PAGES
    ensures Shifted(v, 4) == 0 && Shifted(v, 1) == v / 512
  {
    ShiftedSteps(v);
  }

  lemma ShiftedSteps(v: nat)
    ensures Shifted(v, 0) == v && Shifted(v, 1) == v / 512 && Shifted(v, 2) == Shifted(v, 1) / 512
    ensures Shifted(v, 3) == Shifted(v, 2) / 512 && Shifted(v, 4) == Shifted(v, 3) / 512
  {
    assert Shifted(v, 0) == v;
    assert Shifted(v, 1) == Shifted(v, 0) / 512;
    assert Shifted(v, 2) == Shifted(v, 1) / 512;
    assert Shifted(v, 3) == Shifted(v, 2) / 512;
    assert Shifted(v, 4) == Shifted(v, 3) / 512;
  }

  // ----- the walk

  /** What the hardware and `getpte` do: from table a down to the table of level 1 that holds the entry of page v. */
  function Walk(mem: map<Frame, seq<Word>>, a: Frame, level: nat, v: nat): Option
    decreases level
  {
    if a !in mem || |mem[a]| != 512 then Nothing
    else if level <= 1 then Table(a)
    else
      var e := mem[a][Index(v, level)];
      if Link(e) then Walk(mem, Target(e), level - 1, v) else Nothing
  }

  datatype Option = Nothing | Table(a: Frame)

  /** The entry of page v in address space s; nothing is mapped where a table is missing. */
  function Leaf(mem: map<Frame, seq<Word>>, s: Frame, v: nat): Word {
    match Walk(mem, s, 4, v)
    case Nothing => 0
    case Table(a) => if a in mem && |mem[a]| == 512 then mem[a][v % 512] else 0
  }

  /** Where the roles say the entry of page v is. */
  ghost function LeafRole(t: State, s: Frame, v: nat): Role {
    OnPath(t, s, v, 1)
  }

  lemma PathClosed(t: State, s: Frame, v: nat, level: nat)
    requires Ok(t) && 1 <= level < 4 && LeafRole(t, s, v) in t.slot
    ensures OnPath(t, s, v, level) in t.slot
  {
    if level > 1 {
      PathClosed(t, s, v, level - 1);
      OnPathStep(t, s, v, level);
      assert RoleOk(t, OnPath(t, s, v, level - 1));
    }
  }

  lemma {:induction false} WalkFollowsRoles(t: State, s: Frame, v: nat, level: nat)
    requires Ok(t) && 1 <= level <= 4 && OnPath(t, s, v, level) in t.slot
    ensures Walk(t.mem, t.slot[OnPath(t, s, v, level)], level, v) ==
            if LeafRole(t, s, v) in t.slot then Table(t.slot[LeafRole(t, s, v)]) else Nothing
    decreases level
  {
    var r := OnPath(t, s, v, level);
    assert RoleOk(t, r);
    assert TableOk(t, t.slot[r]);
    if level > 1 {
      OnPathStep(t, s, v, level);
      assert LinkOk(t, r, Index(v, level));
      var c := OnPath(t, s, v, level - 1);
      if c in t.slot {
        WalkFollowsRoles(t, s, v, level - 1);
      } else if LeafRole(t, s, v) in t.slot {
        PathClosed(t, s, v, level - 1);
        assert false;
      }
    }
  }

  /** The walk from a root arrives at the table whose role it is, if there is one. */
  lemma LeafIs(t: State, s: Frame, v: nat)
    requires Ok(t) && s in t.spaces && v < PAGES
    ensures Walk(t.mem, s, 4, v) == if LeafRole(t, s, v) in t.slot then Table(t.slot[LeafRole(t, s, v)]) else Nothing
    ensures LeafRole(t, s, v) in t.slot ==>
              TableOk(t, t.slot[LeafRole(t, s, v)]) && Leaf(t.mem, s, v) == t.mem[t.slot[LeafRole(t, s, v)]][v % 512]
    ensures LeafRole(t, s, v) !in t.slot ==> Leaf(t.mem, s, v) == 0
  {
    TopPrefix(v);
    assert SpaceOk(t, s);
    var r := OnPath(t, s, v, 4);
    assert r == Role(s, 4, 0) && RoleOk(t, r);
    WalkFollowsRoles(t, s, v, 4);
    if LeafRole(t, s, v) in t.slot {
      assert RoleOk(t, LeafRole(t, s, v));
      assert TableOk(t, t.slot[LeafRole(t, s, v)]);
    }
  }

  /** Page v of address space s has the same entry as page w of address space u, as one memory cell. */
  predicate SamePage(t: State, s: Frame, v: nat, u: Frame, w: nat) {
    v == w && (s == u || Index(v, 4) >= 256)
  }

  /** The kernel half is one and the same in all address spaces, now and whatever is written to it. */
  lemma KernelHalfShared(t: State, s: Frame, u: Frame, v: nat)
    requires Ok(t) && s in t.spaces && u in t.spaces && v < PAGES && Index(v, 4) >= 256
    ensures Walk(t.mem, s, 4, v) == Walk(t.mem, u, 4, v) && Leaf(t.mem, s, v) == Leaf(t.mem, u, v)
  {
    LeafIs(t, s, v);
    LeafIs(t, u, v);
  }

  /** Different pages have different entries: only the same page of one address space, or of the kernel half, leads
      to the same cell. */
  lemma PagesApart(t: State, s: Frame, v: nat, u: Frame, w: nat)
    requires Ok(t) && s in t.spaces && u in t.spaces && v < PAGES && w < PAGES
    requires Walk(t.mem, s, 4, v) == Walk(t.mem, u, 4, w) != Nothing && v % 512 == w % 512
    ensures SamePage(t, s, v, u, w)
  {
    LeafIs(t, s, v);
    LeafIs(t, u, w);
    assert RoleOk(t, LeafRole(t, s, v)) && RoleOk(t, LeafRole(t, u, w));
    assert LeafRole(t, s, v) == LeafRole(t, u, w);
    TopPrefix(v);
    TopPrefix(w);
    assert v == w;
  }
}
