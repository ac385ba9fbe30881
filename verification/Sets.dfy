/** Finite sets of small numbers. */
module Sets {

  function Elems(s: seq<nat>): set<nat>
  {
    set x | x in s
  }

  /** The numbers below `n`. */
  function Below(n: nat): (s: set<nat>)
    ensures forall b: nat :: b in s <==> b < n
  {
    if n == 0 then {} else Below(n - 1) + {n - 1}
  }

  lemma {:induction false} BelowCount(n: nat)
    ensures |Below(n)| == n
  {
    if n > 0 {
      BelowCount(n - 1);
    }
  }

  lemma {:induction false} SubsetCount(s: set<nat>, t: set<nat>)
    requires s <= t
    ensures |s| <= |t|
  {
    if s != {} {
      var x :| x in s;
      SubsetCount(s - {x}, t - {x});
    }
  }

  lemma BelowBound(s: set<nat>, n: nat)
    requires s <= Below(n)
    ensures |s| <= n
  {
    BelowCount(n);
    SubsetCount(s, Below(n));
  }
}
