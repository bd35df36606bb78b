// Facts about sequences that several modules need.
module Sequences {
  lemma Associate<T>(a: seq<T>, b: seq<T>, c: seq<T>)
    ensures a + b + c == a + (b + c)
  {}

  lemma SliceOfSlice<T>(s: seq<T>, k: nat, n: nat, i: nat, j: nat)
    requires k + n <= |s| && i <= j <= n
    ensures s[k..k + n][i..j] == s[k + i..k + j]
  {
    var a, b := s[k..k + n][i..j], s[k + i..k + j];
    forall x | 0 <= x < |a| ensures a[x] == b[x] { assert a[x] == s[k..k + n][i + x]; }
  }

  predicate Ascending(s: seq<nat>) {
    forall i, j | 0 <= i < j < |s| :: s[i] < s[j]
  }

  lemma Appended(s: seq<nat>, x: nat)
    requires Ascending(s) && forall c <- s :: c < x
    ensures Ascending(s + [x])
  {
    forall i | 0 <= i < |s| ensures s[i] < x { assert s[i] in s; }
  }
}
