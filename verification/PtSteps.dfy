/** The changes to the page tables, and what they do to the pages. */
module PtSteps {
  import opened PtEntry
  import opened PtState

  function EmptyTable(): (z: seq<Word>)
    ensures |z| == 512 && forall i {:trigger z[i]} | 0 <= i < 512 :: z[i] == 0
  {
    seq(512, _ => 0)
  }

  // ----- a new table

  ghost predicate CanAdd(t: State, r: Role, i: nat, a: Frame) {
    Ok(t) && r in t.slot && 2 <= r.level && i < 512 && Child(t, r, i) !in t.slot && a in t.pool
  }

  lemma AddFacts(t: State, r: Role, i: nat, a: Frame)
    requires CanAdd(t, r, i, a)
    ensures RoleOk(t, r) && TableOk(t, t.slot[r]) && FrameOk(a) && a !in t.mem && a !in t.role && a != t.slot[r]
    ensures Link(TableEntry(a)) && Target(TableEntry(a)) == a && !Link(0)
    ensures r.level == 4 && i >= 256 ==> t.spaces == {t.kernel} && r.owner == t.kernel
  {
    assert RoleOk(t, r);
    assert TableOk(t, t.slot[r]);
    assert a in t.mem || a in t.role ==> TableOk(t, a);
    TableEntryLinks(a);
    if r.level == 4 && i >= 256 {
      assert HalfOk(t, i);
    }
  }

  /** Nothing can hang from a table that is not there. */
  lemma NothingBelow(t: State, r: Role, j: nat)
    requires Ok(t) && 1 < r.level < 4 && r !in t.slot && j < 512
    ensures Child(t, r, j) !in t.slot
  {
    var c := Child(t, r, j);
    assert Up(c) == r;
    assert c in t.slot ==> RoleOk(t, c);
  }

  /** Entry i of the table with role r gets a new, empty table at a. */
  ghost function Added(t: State, r: Role, i: nat, a: Frame): State
    requires CanAdd(t, r, i, a)
  {
    AddFacts(t, r, i, a);
    var p := t.slot[r];
    t.(mem := t.mem[a := EmptyTable()][p := t.mem[p][i := TableEntry(a)]], pool := t.pool - {a},
       slot := t.slot[Child(t, r, i) := a], role := t.role[a := Child(t, r, i)])
  }

  lemma ChildApart(t: State, r: Role, i: nat, a: Frame, q: Role, j: nat)
    requires CanAdd(t, r, i, a) && q in t.slot && 2 <= q.level && j < 512 && (q, j) != (r, i)
    ensures Child(t, q, j) != Child(t, r, i)
  {
    AddFacts(t, r, i, a);
    assert RoleOk(t, q);
  }

  lemma AddKeepsLink(t: State, r: Role, i: nat, a: Frame, q: Role, j: nat)
    requires CanAdd(t, r, i, a) && q in t.slot && q.level > 1 && j < 512
    ensures LinkOk(Added(t, r, i, a), q, j)
  {
    AddFacts(t, r, i, a);
    assert RoleOk(t, q) && LinkOk(t, q, j);
    if (q, j) != (r, i) {
      ChildApart(t, r, i, a, q, j);
    }
  }

  lemma AddKeepsRole(t: State, r: Role, i: nat, a: Frame, q: Role)
    requires CanAdd(t, r, i, a) && q in t.slot
    ensures RoleOk(Added(t, r, i, a), q)
  {
    AddFacts(t, r, i, a);
    assert RoleOk(t, q);
  }

  lemma AddKeepsSpace(t: State, r: Role, i: nat, a: Frame, s: Frame)
    requires CanAdd(t, r, i, a) && s in t.spaces
    ensures SpaceOk(Added(t, r, i, a), s)
  {
    AddFacts(t, r, i, a);
    assert SpaceOk(t, s) && SpaceOk(t, t.kernel);
    assert RoleOk(t, Role(s, 4, 0)) && RoleOk(t, Role(t.kernel, 4, 0));
    var p, m := t.slot[r], Added(t, r, i, a).mem;
    if r.level != 4 || i < 256 {
      assert p == s ==> r == Role(s, 4, 0);
      assert p == t.kernel ==> r == Role(t.kernel, 4, 0);
      assert m[s][256..] == t.mem[s][256..];
      assert m[t.kernel][256..] == t.mem[t.kernel][256..];
    }
  }

  lemma AddKeepsOk(t: State, r: Role, i: nat, a: Frame)
    requires CanAdd(t, r, i, a)
    ensures Ok(Added(t, r, i, a))
  {
    AddFacts(t, r, i, a);
    var t', c := Added(t, r, i, a), Child(t, r, i);
    forall b {:trigger TableOk(t', b)} | b in t'.mem || b in t'.role ensures TableOk(t', b) {
      assert b != a ==> TableOk(t, b);
    }
    forall q {:trigger RoleOk(t', q)} | q in t'.slot ensures RoleOk(t', q) {
      if q != c {
        AddKeepsRole(t, r, i, a, q);
      }
    }
    forall q: Role, j: nat {:trigger LinkOk(t', q, j)} | q in t'.slot && q.level > 1 && j < 512
      ensures LinkOk(t', q, j)
    {
      if q != c {
        AddKeepsLink(t, r, i, a, q, j);
      } else {
        NothingBelow(t, c, j);
      }
    }
    forall s {:trigger SpaceOk(t', s)} | s in t'.spaces ensures SpaceOk(t', s) {
      AddKeepsSpace(t, r, i, a, s);
    }
    forall j: nat {:trigger HalfOk(t', j)} | 256 <= j < 512 ensures HalfOk(t', j) {
      assert HalfOk(t, j);
    }
  }

  /** A new table maps nothing. */
  lemma AddKeepsLeaf(t: State, r: Role, i: nat, a: Frame, s: Frame, v: nat)
    requires CanAdd(t, r, i, a) && s in t.spaces && v < PAGES
    ensures Leaf(Added(t, r, i, a).mem, s, v) == Leaf(t.mem, s, v)
  {
    AddFacts(t, r, i, a);
    AddKeepsOk(t, r, i, a);
    LeafIs(t, s, v);
    LeafIs(Added(t, r, i, a), s, v);
    assert LeafRole(t, s, v) == LeafRole(Added(t, r, i, a), s, v);
    if LeafRole(t, s, v) in t.slot {
      AddKeepsRole(t, r, i, a, LeafRole(t, s, v));
      assert RoleOk(t, LeafRole(t, s, v));
    }
  }

  // ----- a new leaf entry

  ghost predicate CanSet(t: State, s: Frame, v: nat) {
    Ok(t) && s in t.spaces && v < PAGES && LeafRole(t, s, v) in t.slot
  }

  ghost function Set(t: State, s: Frame, v: nat, e: Word): State
    requires CanSet(t, s, v)
  {
    LeafIs(t, s, v);
    var a := t.slot[LeafRole(t, s, v)];
    t.(mem := t.mem[a := t.mem[a][v % 512 := e]])
  }

  lemma SetKeepsOk(t: State, s: Frame, v: nat, e: Word)
    requires CanSet(t, s, v)
    ensures Ok(Set(t, s, v, e))
  {
    LeafIs(t, s, v);
    var t', r := Set(t, s, v, e), LeafRole(t, s, v);
    assert RoleOk(t, r);
    forall b {:trigger TableOk(t', b)} | b in t'.mem || b in t'.role ensures TableOk(t', b) {
      assert TableOk(t, b);
    }
    forall q {:trigger RoleOk(t', q)} | q in t'.slot ensures RoleOk(t', q) {
      assert RoleOk(t, q);
    }
    forall q: Role, j: nat {:trigger LinkOk(t', q, j)} | q in t'.slot && q.level > 1 && j < 512
      ensures LinkOk(t', q, j)
    {
      assert RoleOk(t, q) && LinkOk(t, q, j) && t.slot[q] != t.slot[r];
      assert Child(t', q, j) == Child(t, q, j);
    }
    forall u {:trigger SpaceOk(t', u)} | u in t'.spaces ensures SpaceOk(t', u) {
      assert SpaceOk(t, u) && RoleOk(t, Role(u, 4, 0)) && SpaceOk(t, t.kernel) && RoleOk(t, Role(t.kernel, 4, 0));
    }
    forall j: nat {:trigger HalfOk(t', j)} | 256 <= j < 512 ensures HalfOk(t', j) {
      assert HalfOk(t, j);
    }
  }

  /** Writing one leaf entry changes that page, for a page of the kernel half in all address spaces, and no other. */
  lemma SetMeaning(t: State, s: Frame, v: nat, e: Word, u: Frame, w: nat)
    requires CanSet(t, s, v) && u in t.spaces && w < PAGES
    ensures Leaf(Set(t, s, v, e).mem, u, w) == if SamePage(t, s, v, u, w) then e else Leaf(t.mem, u, w)
  {
    var t' := Set(t, s, v, e);
    SetKeepsOk(t, s, v, e);
    LeafIs(t, s, v);
    LeafIs(t, u, w);
    LeafIs(t', u, w);
    assert LeafRole(t', u, w) == LeafRole(t, u, w);
    assert SamePage(t, s, v, u, w) ==> LeafRole(t, u, w) == LeafRole(t, s, v);
    if LeafRole(t, u, w) in t.slot && t.slot[LeafRole(t, u, w)] == t.slot[LeafRole(t, s, v)] && w % 512 == v % 512 {
      PagesApart(t, s, v, u, w);
    }
  }

  // ----- a range of pages

  /** What an operation writes to the entry of its page k. */
  datatype Edit = MapTo(paddr: Word, flags: Word) | Clear | Protect(newFlags: Word)

  /** The physical address of page k of a mapping, in 64 bits. */
  function PageAddr(paddr: Word, k: nat): Word {
    if k == 0 then paddr else PageAddr(paddr, k - 1) + 0x1000
  }

  function Apply(edit: Edit, k: nat, e: Word): Word {
    match edit
    case MapTo(paddr, flags) => LeafEntry(PageAddr(paddr, k), flags)
    case Clear => 0
    case Protect(flags) => Reflagged(e, flags)
  }

  /** The entry of page v, which was e, after the first n pages from `first` on, page numbers wrapping around. */
  function Edited(edit: Edit, first: nat, n: nat, v: nat, e: Word): Word {
    if n == 0 then e
    else
      var e' := Edited(edit, first, n - 1, v, e);
      if (first + n - 1) % PAGES == v then Apply(edit, n - 1, e') else e'
  }

  predicate Hits(first: nat, k: nat, v: nat) {
    (first + k) % PAGES == v
  }

  lemma {:induction false} EditedOutside(edit: Edit, first: nat, n: nat, v: nat, e: Word)
    requires forall k: nat {:trigger Hits(first, k, v)} | k < n :: !Hits(first, k, v)
    ensures Edited(edit, first, n, v, e) == e
  {
    if n != 0 {
      EditedOutside(edit, first, n - 1, v, e);
      assert !Hits(first, n - 1, v);
    }
  }

  /** A range that does not wrap around changes each of its pages once and the others not at all. */
  lemma {:induction false} EditedOnce(edit: Edit, first: nat, n: nat, v: nat, e: Word)
    requires first + n <= PAGES && v < PAGES
    ensures Edited(edit, first, n, v, e) == if first <= v < first + n then Apply(edit, v - first, e) else e
  {
    if n != 0 {
      EditedOnce(edit, first, n - 1, v, e);
      assert (first + n - 1) % PAGES == first + n - 1;
    }
  }

  /** Whatever table there was is still there. */
  ghost predicate TablesStay(t: State, t': State) {
    t.slot.Keys <= t'.slot.Keys
  }

  /** The pages of address space s from `first` on have been edited, those of the kernel half in all of them. */
  ghost predicate Done(t: State, t': State, edit: Edit, s: Frame, first: nat, n: nat) {
    && t'.spaces == t.spaces && t'.kernel == t.kernel && TablesStay(t, t')
    && forall u: Frame, w: nat {:trigger Leaf(t'.mem, u, w)} | u in t.spaces && w < PAGES ::
         Leaf(t'.mem, u, w) ==
         if u == s || Index(w, 4) >= 256 then Edited(edit, first, n, w, Leaf(t.mem, u, w)) else Leaf(t.mem, u, w)
  }

  /** For a range that does not wrap around: exactly its pages are edited, each by its own number. */
  lemma DoneOnce(t: State, t': State, edit: Edit, s: Frame, first: nat, n: nat, u: Frame, w: nat)
    requires Done(t, t', edit, s, first, n) && first + n <= PAGES && u in t.spaces && w < PAGES
    ensures Leaf(t'.mem, u, w) ==
            if (u == s || Index(w, 4) >= 256) && first <= w < first + n then Apply(edit, w - first, Leaf(t.mem, u, w))
            else Leaf(t.mem, u, w)
  {
    EditedOnce(edit, first, n, w, Leaf(t.mem, u, w));
  }

  lemma {:induction false} EditedAround(edit: Edit, first: nat, n: nat, v: nat, e: Word)
    ensures Edited(edit, first % PAGES, n, v, e) == Edited(edit, first, n, v, e)
  {
    if n != 0 {
      EditedAround(edit, first, n - 1, v, e);
      SamePageNumber(first, n - 1);
    }
  }

  lemma SamePageNumber(first: nat, k: nat)
    ensures (first % PAGES + k) % PAGES == (first + k) % PAGES
  {
  }

  /** Only the number of the first page in the address space matters. */
  lemma DoneAround(t: State, t': State, edit: Edit, s: Frame, first: nat, n: nat)
    requires Done(t, t', edit, s, first, n)
    ensures Done(t, t', edit, s, first % PAGES, n)
  {
    forall u: Frame, w: nat | u in t.spaces && w < PAGES
      ensures Leaf(t'.mem, u, w) ==
              if u == s || Index(w, 4) >= 256 then Edited(edit, first % PAGES, n, w, Leaf(t.mem, u, w))
              else Leaf(t.mem, u, w)
    {
      EditedAround(edit, first, n, w, Leaf(t.mem, u, w));
    }
  }

  ghost predicate SameLeaves(t: State, t': State) {
    && t'.spaces == t.spaces && t'.kernel == t.kernel && TablesStay(t, t')
    && forall u: Frame, w: nat {:trigger Leaf(t'.mem, u, w)} | u in t.spaces && w < PAGES ::
         Leaf(t'.mem, u, w) == Leaf(t.mem, u, w)
  }

  /** The table for page number first + j is there. */
  predicate HasTable(mem: map<Frame, seq<Word>>, s: Frame, first: nat, j: nat) {
    Walk(mem, s, 4, (first + j) % PAGES) != Nothing
  }

  /** The page numbers from `first` on lead to tables, for n pages. */
  ghost predicate AllTables(mem: map<Frame, seq<Word>>, s: Frame, first: nat, n: nat) {
    forall j: nat {:trigger HasTable(mem, s, first, j)} | j < n :: HasTable(mem, s, first, j)
  }

  /** No table has come or gone. */
  ghost predicate SameTables(t: State, t': State) {
    && t'.mem.Keys == t.mem.Keys && t'.pool == t.pool && t'.slot == t.slot && t'.role == t.role
    && t'.kernel == t.kernel && t'.spaces == t.spaces
  }

  lemma TablesWalk(t: State, t': State, s: Frame, first: nat, j: nat)
    requires Ok(t) && Ok(t') && SameTables(t, t') && s in t.spaces
    ensures HasTable(t'.mem, s, first, j) == HasTable(t.mem, s, first, j)
  {
    TablesKept(t, t', s, (first + j) % PAGES);
  }

  /** Which tables are there is a matter of the roles alone. */
  lemma TablesKept(t: State, t': State, s: Frame, v: nat)
    requires Ok(t) && Ok(t') && t'.slot == t.slot && t'.kernel == t.kernel && t'.spaces == t.spaces
    requires s in t.spaces && v < PAGES
    ensures Walk(t'.mem, s, 4, v) == Walk(t.mem, s, 4, v)
  {
    LeafIs(t, s, v);
    LeafIs(t', s, v);
  }

  lemma SameTransitive(t: State, t': State, t'': State)
    requires SameLeaves(t, t') && SameLeaves(t', t'')
    ensures SameLeaves(t, t'')
  {
    forall u: Frame, w: nat | u in t.spaces && w < PAGES ensures Leaf(t''.mem, u, w) == Leaf(t.mem, u, w) {
      assert Leaf(t'.mem, u, w) == Leaf(t.mem, u, w);
    }
  }

  lemma AddSame(t: State, r: Role, i: nat, a: Frame)
    requires CanAdd(t, r, i, a)
    ensures Ok(Added(t, r, i, a)) && SameLeaves(t, Added(t, r, i, a))
  {
    AddKeepsOk(t, r, i, a);
    forall u: Frame, w: nat | u in t.spaces && w < PAGES
      ensures Leaf(Added(t, r, i, a).mem, u, w) == Leaf(t.mem, u, w)
    {
      AddKeepsLeaf(t, r, i, a, u, w);
    }
  }

  /** One more page, whose table is there: from `was` to t the edits before it, then perhaps new tables, then the
      entry itself. */
  lemma DoneStep(was: State, t: State, t': State, edit: Edit, s: Frame, first: nat, n: nat, v: nat)
    requires Ok(was) && s in was.spaces && Done(was, t, edit, s, first, n) && SameLeaves(t, t')
    requires v == (first + n) % PAGES && CanSet(t', s, v)
    ensures var e := Apply(edit, n, Leaf(t'.mem, s, v));
            Ok(Set(t', s, v, e)) && Done(was, Set(t', s, v, e), edit, s, first, n + 1)
  {
    var e := Apply(edit, n, Leaf(t'.mem, s, v));
    SetKeepsOk(t', s, v, e);
    forall u: Frame, w: nat | u in was.spaces && w < PAGES
      ensures Leaf(Set(t', s, v, e).mem, u, w) ==
              if u == s || Index(w, 4) >= 256 then Edited(edit, first, n + 1, w, Leaf(was.mem, u, w))
              else Leaf(was.mem, u, w)
    {
      DoneAt(was, t, t', edit, s, first, n, v, u, w);
    }
  }

  lemma DoneAt(was: State, t: State, t': State, edit: Edit, s: Frame, first: nat, n: nat, v: nat, u: Frame, w: nat)
    requires Ok(was) && s in was.spaces && Done(was, t, edit, s, first, n) && SameLeaves(t, t')
    requires v == (first + n) % PAGES && CanSet(t', s, v) && u in was.spaces && w < PAGES
    ensures Leaf(Set(t', s, v, Apply(edit, n, Leaf(t'.mem, s, v))).mem, u, w) ==
            if u == s || Index(w, 4) >= 256 then Edited(edit, first, n + 1, w, Leaf(was.mem, u, w))
            else Leaf(was.mem, u, w)
  {
    SetMeaning(t', s, v, Apply(edit, n, Leaf(t'.mem, s, v)), u, w);
    if SamePage(t', s, v, u, w) && u != s {
      KernelHalfShared(t', s, u, w);
    }
    assert Leaf(t'.mem, u, w) == Leaf(t.mem, u, w);
  }

  /** One more page whose table is missing, where nothing was mapped and nothing is to be cleared. */
  lemma DoneHole(was: State, t: State, s: Frame, first: nat, n: nat, v: nat)
    requires Ok(t) && s in t.spaces && Done(was, t, Clear, s, first, n)
    requires v == (first + n) % PAGES && Walk(t.mem, s, 4, v) == Nothing
    ensures Done(was, t, Clear, s, first, n + 1)
  {
    forall u: Frame, w: nat | u in was.spaces && w < PAGES
      ensures Leaf(t.mem, u, w) ==
              if u == s || Index(w, 4) >= 256 then Edited(Clear, first, n + 1, w, Leaf(was.mem, u, w))
              else Leaf(was.mem, u, w)
    {
      if SamePage(t, s, v, u, w) && u != s {
        KernelHalfShared(t, s, u, w);
      }
    }
  }
}
