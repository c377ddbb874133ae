/** The free lists of the page allocator: one doubly linked list per order, threaded through the free pages.

    A list node is written here as the frame number of the page that holds it, and 0 is the null pointer (frame 0
    is never managed).  The ghost `Stacks` keeps every list as a sequence with the list head at its end. */
module PmmLists {

  const ORDERS := 16

  datatype Lists = Lists(top: seq<nat>, prev: seq<nat>, next: seq<nat>)

  datatype Stacks = Stacks(list: seq<seq<nat>>, home: seq<int>, rank: seq<int>)

  ghost predicate Listed(s: Stacks, f: int) {
    0 < f < |s.home| && 0 <= s.home[f]
  }

  ghost function Item(q: seq<nat>, i: int): nat {
    if 0 <= i < |q| then q[i] else 0
  }

  ghost predicate Sizes(l: Lists, s: Stacks) {
    |l.top| == |s.list| == ORDERS && 0 < |l.prev| == |l.next| == |s.home| == |s.rank|
  }

  /** The i-th item of list k knows where it is. */
  ghost predicate Slot(s: Stacks, k: nat, i: nat)
    requires k < |s.list| && i < |s.list[k]| && |s.home| == |s.rank|
  {
    var f := s.list[k][i];
    0 < f < |s.home| && s.home[f] == k && s.rank[f] == i
  }

  /** A listed frame is where it says, and its list node points to its two neighbours. */
  ghost predicate Frame(l: Lists, s: Stacks, f: nat)
    requires Sizes(l, s) && Listed(s, f)
  {
    && s.home[f] < ORDERS && 0 <= s.rank[f] < |s.list[s.home[f]]| && s.list[s.home[f]][s.rank[f]] == f
    && l.next[f] == Item(s.list[s.home[f]], s.rank[f] - 1)
    && l.prev[f] == Item(s.list[s.home[f]], s.rank[f] + 1)
  }

  ghost predicate Linked(l: Lists, s: Stacks) {
    && Sizes(l, s)
    && (forall k, i {:trigger Slot(s, k, i)} | 0 <= k < ORDERS && 0 <= i < |s.list[k]| :: Slot(s, k, i))
    && (forall f {:trigger Frame(l, s, f)} | Listed(s, f) :: Frame(l, s, f))
    && (forall k | 0 <= k < ORDERS :: l.top[k] == Item(s.list[k], |s.list[k]| - 1))
  }

  /** The list heads, and the neighbours of a listed frame, are listed. */
  lemma TopListed(l: Lists, s: Stacks, k: nat)
    requires Linked(l, s) && k < ORDERS
    ensures l.top[k] < |s.home|
    ensures l.top[k] != 0 ==>
              && s.list[k] != [] && Listed(s, l.top[k]) && s.home[l.top[k]] == k && s.rank[l.top[k]] == |s.list[k]| - 1
    ensures l.top[k] == 0 ==> s.list[k] == []
  {
    if s.list[k] != [] {
      assert Slot(s, k, |s.list[k]| - 1);
    }
  }

  lemma NeighboursListed(l: Lists, s: Stacks, f: nat)
    requires Linked(l, s) && Listed(s, f)
    ensures Frame(l, s, f) && l.next[f] < |s.home| && l.prev[f] < |s.home|
    ensures l.next[f] != 0 ==>
              Listed(s, l.next[f]) && s.home[l.next[f]] == s.home[f] && s.rank[l.next[f]] == s.rank[f] - 1
    ensures l.prev[f] != 0 ==>
              Listed(s, l.prev[f]) && s.home[l.prev[f]] == s.home[f] && s.rank[l.prev[f]] == s.rank[f] + 1
    ensures l.next[f] == 0 <==> s.rank[f] == 0
    ensures l.prev[f] == 0 <==> s.rank[f] == |s.list[s.home[f]]| - 1
    ensures l.prev[f] == 0 <==> l.top[s.home[f]] == f
  {
    assert Frame(l, s, f);
    var k, r := s.home[f], s.rank[f];
    if 0 < r {
      assert Slot(s, k, r - 1);
    }
    if r + 1 < |s.list[k]| {
      assert Slot(s, k, r + 1);
    }
    TopListed(l, s, k);
  }

  /** f goes to the head of list k. */
  ghost function Pushed(l: Lists, k: nat, f: nat): Lists
    requires k < |l.top| && f < |l.prev| == |l.next| && l.top[k] < |l.prev|
  {
    Lists(l.top[k := f],
          if l.top[k] != 0 then l.prev[f := 0][l.top[k] := f] else l.prev[f := 0],
          l.next[f := l.top[k]])
  }

  ghost function Push(s: Stacks, k: nat, f: nat): Stacks
    requires k < |s.list| && f < |s.home| == |s.rank|
  {
    Stacks(s.list[k := s.list[k] + [f]], s.home[f := k], s.rank[f := |s.list[k]|])
  }

  lemma PushKeepsLinked(l: Lists, s: Stacks, k: nat, f: nat)
    requires Linked(l, s) && k < ORDERS && 0 < f < |s.home| && !Listed(s, f)
    ensures l.top[k] < |s.home| && Linked(Pushed(l, k, f), Push(s, k, f))
  {
    TopListed(l, s, k);
    var l', s' := Pushed(l, k, f), Push(s, k, f);
    forall j, i | 0 <= j < ORDERS && 0 <= i < |s'.list[j]| ensures Slot(s', j, i) {
      assert j != k || i < |s.list[k]| ==> Slot(s, j, i);
    }
    forall g | Listed(s', g) ensures Frame(l', s', g) {
      if g != f {
        NeighboursListed(l, s, g);
      }
      PushFrame(l, l', s, s', k, f, g);
    }
  }

  lemma PushFrame(l: Lists, l': Lists, s: Stacks, s': Stacks, k: nat, f: nat, g: nat)
    requires Sizes(l, s) && k < ORDERS && 0 < f < |s.home| && !Listed(s, f) && Sizes(l', s')
    requires l.top[k] < |l.prev| && l' == Pushed(l, k, f) && s' == Push(s, k, f)
    requires l.top[k] == Item(s.list[k], |s.list[k]| - 1) && l.top[k] != f
    requires g == f || (Listed(s, g) && Frame(l, s, g))
    requires g != f && s.home[g] < ORDERS ==> (l.prev[g] == 0 <==> l.top[s.home[g]] == g)
    requires g != f ==> (l.prev[g] == 0 <==> s.rank[g] == |s.list[s.home[g]]| - 1)
    requires g != f && g == l.top[k] ==> s.home[g] == k
    ensures Frame(l', s', g)
  {
  }

  /** f leaves its list: `rem` does this to the head, and the merging loop to any frame. */
  ghost function Unlinked(l: Lists, k: nat, f: nat): Lists
    requires k < |l.top| && f < |l.prev| == |l.next| && l.prev[f] < |l.prev| && l.next[f] < |l.prev|
  {
    Lists(if l.prev[f] != 0 then l.top else l.top[k := l.next[f]],
          if l.next[f] != 0 then l.prev[l.next[f] := l.prev[f]] else l.prev,
          if l.prev[f] != 0 then l.next[l.prev[f] := l.next[f]] else l.next)
  }

  /** The frames above f in its list move down by one. */
  ghost predicate Dropped(s: Stacks, s': Stacks, f: nat)
    requires Listed(s, f) && |s.rank| == |s.home| && s.home[f] < |s.list| && 0 <= s.rank[f] < |s.list[s.home[f]]|
  {
    var k, r := s.home[f], s.rank[f];
    && s'.list == s.list[k := s.list[k][..r] + s.list[k][r + 1..]]
    && s'.home == s.home[f := -1]
    && |s'.rank| == |s.rank|
    && forall g | 0 <= g < |s.rank| ::
         s'.rank[g] == if s.home[g] == k && s.rank[g] > r then s.rank[g] - 1 else s.rank[g]
  }

  ghost function Drop(s: Stacks, f: nat): (s': Stacks)
    requires Listed(s, f) && |s.rank| == |s.home| && s.home[f] < |s.list| && 0 <= s.rank[f] < |s.list[s.home[f]]|
    ensures Dropped(s, s', f)
  {
    var k, r := s.home[f], s.rank[f];
    Stacks(s.list[k := s.list[k][..r] + s.list[k][r + 1..]], s.home[f := -1],
           seq(|s.rank|, g requires 0 <= g < |s.rank| =>
             if s.home[g] == k && s.rank[g] > r then s.rank[g] - 1 else s.rank[g]))
  }

  lemma DropKeepsLinked(l: Lists, s: Stacks, f: nat)
    requires Linked(l, s) && Listed(s, f)
    ensures Frame(l, s, f) && l.prev[f] < |l.prev| && l.next[f] < |l.prev|
    ensures Linked(Unlinked(l, s.home[f], f), Drop(s, f))
  {
    NeighboursListed(l, s, f);
    var k, r := s.home[f], s.rank[f];
    var l', s' := Unlinked(l, k, f), Drop(s, f);
    forall j, i | 0 <= j < ORDERS && 0 <= i < |s'.list[j]| ensures Slot(s', j, i) {
      var i' := if j == k && i >= r then i + 1 else i;
      assert Slot(s, j, i');
      DropSlot(s, s', f, j, i, i');
    }
    forall g | Listed(s', g) ensures Frame(l', s', g) {
      NeighboursListed(l, s, g);
      DropFrame(l, l', s, s', f, g);
    }
    DropTop(l, s, f);
  }

  lemma DropTop(l: Lists, s: Stacks, f: nat)
    requires Linked(l, s) && Listed(s, f) && Frame(l, s, f) && l.prev[f] < |l.prev| && l.next[f] < |l.prev|
    requires l.prev[f] == 0 <==> s.rank[f] == |s.list[s.home[f]]| - 1
    ensures var l', s' := Unlinked(l, s.home[f], f), Drop(s, f);
            forall k | 0 <= k < ORDERS :: l'.top[k] == Item(s'.list[k], |s'.list[k]| - 1)
  {
  }

  lemma DropSlot(s: Stacks, s': Stacks, f: nat, j: nat, i: nat, i': nat)
    requires Listed(s, f) && |s.rank| == |s.home| && s.home[f] < |s.list| && 0 <= s.rank[f] < |s.list[s.home[f]]|
    requires Dropped(s, s', f) && j < |s.list| && i' < |s.list[j]| && Slot(s, j, i')
    requires i' == if j == s.home[f] && i >= s.rank[f] then i + 1 else i
    ensures i < |s'.list[j]| && |s'.home| == |s'.rank| && Slot(s', j, i)
  {
  }

  lemma DropFrame(l: Lists, l': Lists, s: Stacks, s': Stacks, f: nat, g: nat)
    requires Sizes(l, s) && Sizes(l', s') && Listed(s, f) && Listed(s, g) && Frame(l, s, f) && Frame(l, s, g) && f != g
    requires l.prev[f] < |l.prev| && l.next[f] < |l.prev| && l' == Unlinked(l, s.home[f], f) && Dropped(s, s', f)
    requires l.next[f] != 0 ==>
               Listed(s, l.next[f]) && s.home[l.next[f]] == s.home[f] && s.rank[l.next[f]] == s.rank[f] - 1
    requires l.prev[f] != 0 ==>
               Listed(s, l.prev[f]) && s.home[l.prev[f]] == s.home[f] && s.rank[l.prev[f]] == s.rank[f] + 1
    requires l.next[f] == 0 <==> s.rank[f] == 0
    requires l.prev[f] == 0 <==> s.rank[f] == |s.list[s.home[f]]| - 1
    ensures Frame(l', s', g)
  {
    if s.home[g] == s.home[f] {
      assert s.rank[g] != s.rank[f];
    } else {
    }
  }
}
