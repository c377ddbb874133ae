/** How many numbers fit below a bound. */
module FiniteSets {

  lemma {:induction false} Bounded(s: set<nat>, n: nat)
    requires forall i {:trigger i in s} | i in s :: i < n
    ensures |s| <= n
  {
    if n == 0 {
      assert s == {};
    } else {
      Bounded(s - {n - 1}, n - 1);
      assert |s| <= |s - {n - 1}| + 1;
    }
  }
}
