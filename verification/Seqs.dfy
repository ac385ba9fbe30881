/**
 Small facts about sequences and numbers that several modules share.
 */
module Seqs {

  function Max(a: int, b: int): int
  {
    if a > b then a else b
  }

  predicate Distinct<T(==)>(s: seq<T>)
  {
    forall i, j :: 0 <= i < j < |s| ==> s[i] != s[j]
  }

  /** The elements of the first `k` sequences, in order. */
  function Flat<T>(ss: seq<seq<T>>, k: nat): seq<T>
    requires k <= |ss|
  {
    if k == 0 then [] else Flat(ss, k - 1) + ss[k - 1]
  }

  lemma {:induction false} FlatSame<T>(a: seq<seq<T>>, b: seq<seq<T>>, k: nat)
    requires k <= |a| && k <= |b| && forall j :: 0 <= j < k ==> a[j] == b[j]
    ensures Flat(a, k) == Flat(b, k)
  {
    if k > 0 {
      FlatSame(a, b, k - 1);
    }
  }

  /** What is added to the last sequence comes last. */
  lemma {:induction false} FlatMore<T>(ss: seq<seq<T>>, more: seq<T>)
    requires |ss| > 0
    ensures Flat(ss[|ss| - 1 := ss[|ss| - 1] + more], |ss|) == Flat(ss, |ss|) + more
  {
    var n := |ss| - 1;
    var tt := ss[n := ss[n] + more];
    FlatSame(ss, tt, n);
    assert Flat(ss, n) + (ss[n] + more) == Flat(ss, n) + ss[n] + more;
  }

  lemma {:induction false} FlatNone<T>(ss: seq<seq<T>>)
    ensures Flat(ss + [[]], |ss| + 1) == Flat(ss, |ss|)
  {
    FlatSame(ss, ss + [[]], |ss|);
  }
}
