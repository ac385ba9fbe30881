/**
 Path semantics of the set-propagating passes: what it means to lie on every path
 from the sources to a node, or to reach it, and why one sweep in topological order
 computes exactly that.  A node's successors are listed; blocks and edges of a flow
 graph are both instances.
 */
module Dataflow {
  import opened Sets

  type Digraph = seq<seq<nat>>

  predicate Arrow(d: Digraph, a: nat, b: nat)
  {
    a < |d| && b < |d| && b in d[a]
  }

  ghost predicate Path(d: Digraph, sources: set<nat>, path: seq<nat>)
  {
    && |path| > 0
    && path[0] in sources
    && path[0] < |d|
    && forall i :: 0 <= i < |path| - 1 ==> Arrow(d, path[i], path[i + 1])
  }

  ghost predicate PathTo(d: Digraph, sources: set<nat>, path: seq<nat>, x: nat)
  {
    Path(d, sources, path) && path[|path| - 1] == x
  }

  ghost predicate Reached(d: Digraph, sources: set<nat>, x: nat)
  {
    exists path :: PathTo(d, sources, path, x)
  }

  /** `y` lies on every path from the sources to `x`. */
  ghost predicate Dominates(d: Digraph, sources: set<nat>, y: nat, x: nat)
  {
    forall path :: PathTo(d, sources, path, x) ==> y in path
  }

  /** No path enters a source. */
  ghost predicate SourcesFirst(d: Digraph, sources: set<nat>)
  {
    forall a, b :: Reached(d, sources, a) && Arrow(d, a, b) ==> b !in sources
  }

  lemma PathExtends(d: Digraph, sources: set<nat>, path: seq<nat>, a: nat, b: nat)
    requires PathTo(d, sources, path, a) && Arrow(d, a, b)
    ensures PathTo(d, sources, path + [b], b)
  {
  }

  lemma PathShrinks(d: Digraph, sources: set<nat>, path: seq<nat>, b: nat)
    requires PathTo(d, sources, path, b) && |path| > 1
    ensures PathTo(d, sources, path[..|path| - 1], path[|path| - 2]) && Arrow(d, path[|path| - 2], b)
  {
    assert Arrow(d, path[|path| - 2], path[|path| - 2 + 1]);
    var q := path[..|path| - 1];
    forall i | 0 <= i < |q| - 1
      ensures Arrow(d, q[i], q[i + 1])
    {
      assert Arrow(d, path[i], path[i + 1]);
    }
  }

  lemma ReachedPath(d: Digraph, sources: set<nat>, path: seq<nat>)
    requires Path(d, sources, path)
    ensures Reached(d, sources, path[|path| - 1])
  {
    assert PathTo(d, sources, path, path[|path| - 1]);
  }

  lemma ReachedStep(d: Digraph, sources: set<nat>, a: nat, b: nat)
    requires Reached(d, sources, a) && Arrow(d, a, b)
    ensures Reached(d, sources, b)
  {
    var path :| PathTo(d, sources, path, a);
    PathExtends(d, sources, path, a, b);
  }

  /** The dominators of a source are itself alone. */
  lemma DominatesSource(d: Digraph, sources: set<nat>, y: nat, x: nat)
    requires SourcesFirst(d, sources) && x in sources && x < |d|
    ensures Dominates(d, sources, y, x) <==> y == x
  {
    assert PathTo(d, sources, [x], x);
    forall path | PathTo(d, sources, path, x)
      ensures path == [x]
    {
      if |path| > 1 {
        PathShrinks(d, sources, path, x);
        ReachedPath(d, sources, path[..|path| - 1]);
      }
    }
  }

  /** Elsewhere they are the node itself and what dominates every reached predecessor. */
  lemma DominatesStep(d: Digraph, sources: set<nat>, y: nat, x: nat)
    requires x !in sources
    ensures Dominates(d, sources, y, x) <==>
            y == x || forall a :: Reached(d, sources, a) && Arrow(d, a, x) ==> Dominates(d, sources, y, a)
  {
    if y != x && forall a :: Reached(d, sources, a) && Arrow(d, a, x) ==> Dominates(d, sources, y, a) {
      forall path | PathTo(d, sources, path, x)
        ensures y in path
      {
        PathShrinks(d, sources, path, x);
        var q := path[..|path| - 1];
        assert Reached(d, sources, q[|q| - 1]);
        assert Dominates(d, sources, y, q[|q| - 1]);
        assert y in q;
      }
    }
    if y != x && Dominates(d, sources, y, x) {
      forall a | Reached(d, sources, a) && Arrow(d, a, x)
        ensures Dominates(d, sources, y, a)
      {
        forall path | PathTo(d, sources, path, a)
          ensures y in path
        {
          PathExtends(d, sources, path, a, x);
          assert y in path + [x];
        }
      }
    }
  }

  // ---------------------------------------------------------- intersecting sweep

  /** The state of an intersecting sweep after the nodes of `seen`: their sets are final, and
      every other set holds what dominates the predecessors seen so far. */
  ghost predicate DomState(d: Digraph, sources: set<nat>, seen: set<nat>, dom: seq<set<nat>>)
  {
    && |dom| == |d|
    && (forall x, y :: 0 <= x < |d| && 0 <= y < |d| && x in seen ==> (y in dom[x] <==> Dominates(d, sources, y, x)))
    && (forall x, y :: 0 <= x < |d| && 0 <= y < |d| && x !in seen ==>
                         (y in dom[x] <==> SeenDominate(d, sources, seen, y, x)))
  }

  ghost predicate SeenDominate(d: Digraph, sources: set<nat>, seen: set<nat>, y: nat, x: nat)
  {
    x !in sources && forall a :: a in seen && Arrow(d, a, x) ==> Dominates(d, sources, y, a)
  }

  /** Before a node is visited its predecessors were, and none of its successors. */
  ghost predicate Next(d: Digraph, sources: set<nat>, seen: set<nat>, x: nat)
  {
    && x < |d| && x !in seen
    && Reached(d, sources, x)
    && (forall a :: a in seen ==> Reached(d, sources, a))
    && (forall a :: Reached(d, sources, a) && Arrow(d, a, x) ==> a in seen)
    && (forall b :: Arrow(d, x, b) ==> b !in seen && b != x)
  }

  lemma DomInit(d: Digraph, sources: set<nat>, dom: seq<set<nat>>)
    requires |dom| == |d|
    requires forall x, y :: 0 <= x < |d| && 0 <= y < |d| ==> (y in dom[x] <==> x !in sources)
    ensures DomState(d, sources, {}, dom)
  {
  }

  /** Inserting a visited node into its own set makes that set its dominators. */
  lemma DomSelf(d: Digraph, sources: set<nat>, seen: set<nat>, dom: seq<set<nat>>, x: nat)
    requires DomState(d, sources, seen, dom) && SourcesFirst(d, sources) && Next(d, sources, seen, x)
    ensures forall y :: 0 <= y < |d| ==> (y in dom[x] + {x} <==> Dominates(d, sources, y, x))
  {
    forall y | 0 <= y < |d|
      ensures y in dom[x] + {x} <==> Dominates(d, sources, y, x)
    {
      if x in sources {
        DominatesSource(d, sources, y, x);
      } else {
        DominatesStep(d, sources, y, x);
        assert y in dom[x] <==> SeenDominate(d, sources, seen, y, x);
      }
    }
  }

  /** One visit: insert the node, then intersect its set into its successors' sets. */
  lemma DomVisit(d: Digraph, sources: set<nat>, seen: set<nat>, dom: seq<set<nat>>, x: nat, dom': seq<set<nat>>)
    requires DomState(d, sources, seen, dom) && SourcesFirst(d, sources) && Next(d, sources, seen, x)
    requires |dom'| == |d| && dom'[x] == dom[x] + {x}
    requires forall b :: 0 <= b < |d| && b != x ==> dom'[b] == if b in d[x] then dom[b] * dom'[x] else dom[b]
    ensures DomState(d, sources, seen + {x}, dom')
  {
    DomSelf(d, sources, seen, dom, x);
    forall b, y | 0 <= b < |d| && 0 <= y < |d| && b !in seen + {x}
      ensures y in dom'[b] <==> SeenDominate(d, sources, seen + {x}, y, b)
    {
      assert y in dom[b] <==> SeenDominate(d, sources, seen, y, b);
      if b in d[x] {
        assert Arrow(d, x, b);
        assert b !in sources;
      }
    }
    forall b, y | 0 <= b < |d| && 0 <= y < |d| && b in seen
      ensures y in dom'[b] <==> Dominates(d, sources, y, b)
    {
      assert !Arrow(d, x, b);
    }
  }

  // ---------------------------------------------------------------- uniting sweep

  /** `y` is on some path to `x`, hence an ancestor of `x` or `x` itself. */
  ghost predicate Precedes(d: Digraph, sources: set<nat>, y: nat, x: nat)
  {
    exists path :: PathTo(d, sources, path, x) && y in path
  }

  lemma PrecedesStep(d: Digraph, sources: set<nat>, y: nat, x: nat)
    requires Reached(d, sources, x)
    ensures Precedes(d, sources, y, x) <==>
            y == x || exists a :: Reached(d, sources, a) && Arrow(d, a, x) && Precedes(d, sources, y, a)
  {
    var toX :| PathTo(d, sources, toX, x);
    assert toX[|toX| - 1] == x;
    if Precedes(d, sources, y, x) && y != x {
      var path :| PathTo(d, sources, path, x) && y in path;
      PathShrinks(d, sources, path, x);
      var q := path[..|path| - 1];
      assert y in q;
      assert PathTo(d, sources, q, q[|q| - 1]);
    }
    if a :| Reached(d, sources, a) && Arrow(d, a, x) && Precedes(d, sources, y, a) {
      var path :| PathTo(d, sources, path, a) && y in path;
      PathExtends(d, sources, path, a, x);
      assert y in path + [x];
    }
  }

  ghost predicate SeenPrecede(d: Digraph, sources: set<nat>, seen: set<nat>, y: nat, x: nat)
  {
    exists a :: a in seen && Arrow(d, a, x) && Precedes(d, sources, y, a)
  }

  ghost predicate ClosureState(d: Digraph, sources: set<nat>, seen: set<nat>, closure: seq<set<nat>>)
  {
    && |closure| == |d|
    && (forall x, y :: 0 <= x < |d| && 0 <= y && x in seen ==> (y in closure[x] <==> Precedes(d, sources, y, x)))
    && (forall x, y :: 0 <= x < |d| && 0 <= y && x !in seen ==> (y in closure[x] <==> SeenPrecede(d, sources, seen, y, x)))
  }

  lemma ClosureVisit(d: Digraph, sources: set<nat>, seen: set<nat>, closure: seq<set<nat>>, x: nat, closure': seq<set<nat>>)
    requires ClosureState(d, sources, seen, closure) && Next(d, sources, seen, x)
    requires |closure'| == |d| && closure'[x] == closure[x] + {x}
    requires forall b :: 0 <= b < |d| && b != x ==> closure'[b] == if b in d[x] then closure[b] + closure'[x] else closure[b]
    ensures ClosureState(d, sources, seen + {x}, closure')
  {
    forall y | 0 <= y
      ensures y in closure'[x] <==> Precedes(d, sources, y, x)
    {
      PrecedesStep(d, sources, y, x);
      assert y in closure[x] <==> SeenPrecede(d, sources, seen, y, x);
    }
    forall b, y | 0 <= b < |d| && 0 <= y && b !in seen + {x}
      ensures y in closure'[b] <==> SeenPrecede(d, sources, seen + {x}, y, b)
    {
      assert y in closure[b] <==> SeenPrecede(d, sources, seen, y, b);
      assert Arrow(d, x, b) <==> b in d[x];
    }
    forall b, y | 0 <= b < |d| && 0 <= y && b in seen
      ensures y in closure'[b] <==> Precedes(d, sources, y, b)
    {
      assert !Arrow(d, x, b);
    }
  }
}
