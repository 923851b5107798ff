/** Looking for the last element that hits. */
module Search {

  /** The last of the first `n` elements that hits, or `n` if none does. */
  function Last<T>(xs: seq<T>, n: nat, hits: T -> bool): (k: nat)
    requires n <= |xs|
    ensures k <= n && (k < n ==> hits(xs[k]))
    ensures forall i :: k < i < n ==> !hits(xs[i])
    ensures k == n ==> forall i :: 0 <= i < n ==> !hits(xs[i])
  {
    if n == 0 then 0
    else if hits(xs[n - 1]) then n - 1
    else
      var k := Last(xs, n - 1, hits);
      if k == n - 1 then n else k
  }
}
