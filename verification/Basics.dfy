// Shared by several modules: optional values, sequences without repeats and powers of two.
module Basics {

  datatype Option<T> = None | Some(value: T)

  // s without position k.
  function Cut<T>(s: seq<T>, k: int): (r: seq<T>)
    requires 0 <= k < |s|
    ensures |r| == |s| - 1 && forall i {:trigger r[i]} :: 0 <= i < |r| ==> r[i] == if i < k then s[i] else s[i + 1]
  { s[..k] + s[k + 1..] }

  ghost predicate Different<T>(s: seq<T>) { forall i, j :: 0 <= i < j < |s| ==> s[i] != s[j] }

  // Different elements that all occur in t are no more than t has.
  lemma {:induction false} Crowd<T>(s: seq<T>, t: seq<T>)
    requires Different(s) && forall i :: 0 <= i < |s| ==> s[i] in t
    ensures |s| <= |t|
  {
    if s != [] {
      var n := |s| - 1;
      var k :| 0 <= k < |t| && t[k] == s[n];
      forall i | 0 <= i < n ensures s[..n][i] in Cut(t, k) {
        var j :| 0 <= j < |t| && t[j] == s[i];
        assert Cut(t, k)[if j < k then j else j - 1] == s[i];
      }
      Crowd(s[..n], Cut(t, k));
    }
  }

  function Pow2(n: nat): (r: nat)
    ensures r > 0
  { if n == 0 then 1 else 2 * Pow2(n - 1) }

  lemma {:induction false} Pow2Sum(a: nat, b: nat)
    ensures Pow2(a + b) == Pow2(a) * Pow2(b)
  {
    if a > 0 { Pow2Sum(a - 1, b); }
  }

  lemma {:induction false} Pow2Monotone(a: nat, b: nat)
    requires a <= b
    ensures Pow2(a) <= Pow2(b)
  {
    if a < b { Pow2Monotone(a, b - 1); }
  }
}
