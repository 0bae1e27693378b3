/** Slices of sequences, and sequences put together. */
module Slices {

  /** All parts in a row. */
  function Flat<T>(parts: seq<seq<T>>): seq<T> {
    if parts == [] then [] else parts[0] + Flat(parts[1..])
  }

  lemma SliceOfSlice<T>(s: seq<T>, i: nat, n: nat, j: nat, k: nat)
    requires i <= n <= |s| && j <= k <= n - i
    ensures s[i..n][j..k] == s[i + j..i + k]
  {
    var a, b := s[i..n][j..k], s[i + j..i + k];
    assert |a| == |b| && forall x | 0 <= x < |a| :: a[x] == s[i + j + x] == b[x];
  }

  lemma {:induction false} FlatSum<T>(a: seq<seq<T>>, b: seq<seq<T>>)
    ensures Flat(a + b) == Flat(a) + Flat(b)
    decreases |a|
  {
    if a == [] {
      assert a + b == b;
    } else {
      assert (a + b)[1..] == a[1..] + b;
      FlatSum(a[1..], b);
    }
  }
}
