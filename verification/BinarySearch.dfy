/** The search routine every lookup of the log goes through: Go's sort.Search. */
module BinarySearch {

  ghost predicate Monotone(n: nat, f: nat --> bool)
    requires forall k: nat :: k < n ==> f.requires(k)
  {
    forall j: nat, k: nat :: j <= k < n && f(j) ==> f(k)
  }

  /** The boundary of `f` on `[0, n)`. The first three clauses need nothing of
      `f`; when `f` is monotone the boundary separates all of `[0, n)`. */
  method Search(n: nat, f: nat --> bool) returns (i: nat)
    requires forall k: nat :: k < n ==> f.requires(k)
    ensures i <= n
    ensures i < n ==> f(i)
    ensures i > 0 ==> !f(i - 1)
    ensures Monotone(n, f) ==> forall k: nat :: k < n ==> (f(k) <==> i <= k)
  {
    i := 0;
    var j := n;
    while i < j
      invariant i <= j <= n
      invariant j < n ==> f(j)
      invariant i > 0 ==> !f(i - 1)
    {
      var h := (i + j) / 2;
      if !f(h) {
        i := h + 1;
      } else {
        j := h;
      }
    }
  }
}
