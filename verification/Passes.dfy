/**
 Leveling of the flow graph and the three set-propagating passes that run over the
 levels from the root down: dominators, edge dominators and backward closure.
 */
module Passes {
  import opened Bpf
  import opened FlowGraph
  import opened Sets
  import opened Seqs
  import opened Dataflow

  // ------------------------------------------------------------------- leveling

  /** A block at level `l` sits on a chain of `l + 1` distinct blocks, so levels fit the table. */
  lemma {:induction false} LevelChain(g: Graph, b: nat) returns (s: set<nat>)
    requires Acyclic(g) && b < |g|
    ensures s <= Below(|g|) && |s| == Level(g, b) + 1
    ensures forall c :: c in s ==> c < |g| && Level(g, c) <= Level(g, b)
    decreases Level(g, b)
  {
    match g[b].s
    case Ret(_, _) => s := {b};
    case Jump(_, _, _, jt, jf) =>
      s := LevelChain(g, if Level(g, jt) > Level(g, jf) then jt else jf);
      assert b !in s;
      s := s + {b};
  }

  lemma LevelBound(g: Graph, b: nat)
    requires Acyclic(g) && b < |g|
    ensures Level(g, b) < |g|
  {
    var s := LevelChain(g, b);
    BelowBound(s, |g|);
  }

  /** The level lists hold exactly the blocks of `placed`, each once, at its level. */
  ghost predicate Leveled(g: Graph, placed: set<nat>, level: seq<nat>, lists: seq<seq<nat>>)
    requires Acyclic(g)
  {
    && |level| == |g| && |lists| == |g|
    && (forall b :: b in placed ==> b < |g| && level[b] == Level(g, b) < |g| && b in lists[Level(g, b)])
    && (forall l, b {:trigger b in lists[l]} :: 0 <= l < |g| && b in lists[l] ==> b in placed && Level(g, b) == l)
    && forall l :: 0 <= l < |g| ==> Distinct(lists[l])
  }

  lemma LeveledAdd(g: Graph, placed: set<nat>, level: seq<nat>, lists: seq<seq<nat>>, b: nat)
    requires Acyclic(g) && b < |g| && Leveled(g, placed, level, lists) && b !in placed
    requires Level(g, b) < |g|
    ensures var l := Level(g, b);
            Leveled(g, placed + {b}, level[b := l], lists[l := [b] + lists[l]])
  {
    var l := Level(g, b);
    var lists' := lists[l := [b] + lists[l]];
    forall c | c in placed + {b}
      ensures c in lists'[Level(g, c)]
    {
      assert c == b || c in lists[Level(g, c)];
    }
    forall m, c | 0 <= m < |g| && c in lists'[m]
      ensures c in placed + {b} && Level(g, c) == m
    {
      assert c == b || c in lists[m];
    }
    assert b !in lists[l];
  }

  /** The blocks of `stack` are at levels above that of `b`. */
  ghost predicate Higher(g: Graph, b: nat, stack: set<nat>)
    requires Acyclic(g) && b < |g|
  {
    forall c :: c in stack ==> c < |g| && Level(g, b) < Level(g, c)
  }

  lemma HigherSucc(g: Graph, b: nat, stack: set<nat>, stack': set<nat>)
    requires Acyclic(g) && b < |g| && g[b].s.Jump? && Higher(g, b, stack) && stack' <= stack + {b}
    ensures Higher(g, g[b].s.jt, stack') && Higher(g, g[b].s.jf, stack')
  {
  }

  lemma PlacedDone(g: Graph, b: nat, p0: set<nat>, m0: set<nat>, p1: set<nat>, m1: set<nat>)
    requires p0 <= m0 && b !in m0 && p0 <= p1 <= m1 && m1 - p1 == m0 + {b} - p0 && Closed(g, p1)
    requires b < |g| && (g[b].s.Jump? ==> g[b].s.jt in p1 && g[b].s.jf in p1) && OnlyBelow(g, b, p0, p1)
    ensures b !in p1 && p1 + {b} <= m1 && m1 - (p1 + {b}) == m0 - p0
    ensures Closed(g, p1 + {b}) && OnlyBelow(g, b, p0, p1 + {b})
  {
    assert b in m1 - p1;
    assert m1 - (p1 + {b}) == (m1 - p1) - {b};
  }

  class LevelTable {
    const g: Graph
    var marked: set<nat>
    var level: seq<nat>
    var lists: seq<seq<nat>>
    ghost var placed: set<nat>

    constructor (g: Graph)
      ensures this.g == g
    {
      this.g := g;
      marked, level, lists, placed := {}, [], [], {};
    }

    method FindLevelsR(b: nat)
      requires Acyclic(g) && b < |g| && Leveled(g, placed, level, lists) && Closed(g, placed)
      requires placed <= marked && Higher(g, b, marked - placed)
      modifies this
      ensures Leveled(g, placed, level, lists) && Closed(g, placed)
      ensures old(placed) <= placed && b in placed && placed <= marked && marked - placed == old(marked) - old(placed)
      ensures OnlyBelow(g, b, old(placed), placed)
      decreases Level(g, b)
    {
      if b in marked {
        return;
      }
      marked := marked + {b};
      var l := 0;
      if g[b].s.Jump? {
        HigherSucc(g, b, old(marked) - placed, marked - placed);
        FindLevelsR(g[b].s.jt);
        ghost var placed1 := placed;
        FindLevelsR(g[b].s.jf);
        OnlyBelowBoth(g, b, old(placed), placed1, placed);
        l := Max(level[g[b].s.jt], level[g[b].s.jf]) + 1;
      }
      PlacedDone(g, b, old(placed), old(marked), placed, marked);
      Place(b, l);
    }

    /** Records the level of `b` and puts it at the front of that level's list. */
    method Place(b: nat, l: nat)
      requires Acyclic(g) && b < |g| && Leveled(g, placed, level, lists) && b !in placed && l == Level(g, b)
      modifies this`level, this`lists, this`placed
      ensures Leveled(g, placed, level, lists) && placed == old(placed) + {b}
    {
      LevelBound(g, b);
      LeveledAdd(g, placed, level, lists, b);
      level := level[b := l];
      lists := lists[l := [b] + lists[l]];
      placed := placed + {b};
    }

    /** Levels the graph: every edge then leads to a strictly lower level. */
    method FindLevels(root: nat)
      requires Acyclic(g) && root < |g|
      modifies this
      ensures Sweepable(g, root, placed, level, lists)
      ensures forall a: nat, b: nat :: a in placed && Edge(g, a, b) ==> level[b] < level[a]
    {
      lists := seq(|g|, _ => []);
      level := seq(|g|, _ => 0);
      marked, placed := {}, {};
      FindLevelsR(root);
    }
  }

  // --------------------------------------------------- blocks and edges as digraphs

  /** Successors of each block. */
  function BlockGraph(g: Graph): (d: Digraph)
    ensures |d| == |g|
  {
    seq(|g|, b requires 0 <= b < |g| => if g[b].s.Jump? then [g[b].s.jt, g[b].s.jf] else [])
  }

  /** Edge `e` leaves block `e % |g|`: by its true branch below `|g|`, by its false one above. */
  function Owner(g: Graph, e: nat): (b: nat)
    requires e < 2 * |g|
    ensures b < |g|
  {
    if e < |g| then e else e - |g|
  }

  function Target(g: Graph, e: nat): nat
    requires e < 2 * |g| && g[Owner(g, e)].s.Jump?
  {
    if e < |g| then g[Owner(g, e)].s.jt else g[Owner(g, e)].s.jf
  }

  /** Edge `e` is followed by both edges of the block it leads to. */
  function EdgeGraph(g: Graph): (d: Digraph)
    ensures |d| == 2 * |g|
  {
    seq(2 * |g|, e requires 0 <= e < 2 * |g| =>
      if g[Owner(g, e)].s.Jump? then [Target(g, e), Target(g, e) + |g|] else [])
  }

  lemma BlockArrow(g: Graph, a: nat, b: nat)
    requires WellFormed(g)
    ensures Arrow(BlockGraph(g), a, b) <==> Edge(g, a, b)
  {
  }

  lemma EdgeArrow(g: Graph, e: nat, f: nat)
    requires WellFormed(g) && e < 2 * |g| && f < 2 * |g|
    ensures Arrow(EdgeGraph(g), e, f) <==> g[Owner(g, e)].s.Jump? && Target(g, e) == Owner(g, f)
  {
  }

  lemma {:induction false} PathStays(g: Graph, root: nat, placed: set<nat>, path: seq<nat>)
    requires WellFormed(g) && Path(BlockGraph(g), {root}, path) && root in placed && Closed(g, placed)
    ensures path[|path| - 1] in placed
  {
    if |path| > 1 {
      PathShrinks(BlockGraph(g), {root}, path, path[|path| - 1]);
      PathStays(g, root, placed, path[..|path| - 1]);
      BlockArrow(g, path[|path| - 2], path[|path| - 1]);
      assert Edge(g, path[|path| - 2], path[|path| - 1]);
    }
  }

  /** Being reachable and lying at the end of a path from the root are the same. */
  lemma BlockReached(g: Graph, root: nat, placed: set<nat>)
    requires WellFormed(g) && root < |g| && IsReach(g, root, placed) && forall b :: b in placed ==> b < |g|
    ensures forall b: nat :: Reached(BlockGraph(g), {root}, b) <==> b in placed
  {
    var d := BlockGraph(g);
    forall b: nat | Reached(d, {root}, b)
      ensures b in placed
    {
      var path :| PathTo(d, {root}, path, b);
      PathStays(g, root, placed, path);
    }
    var r := set b | b in placed && Reached(d, {root}, b);
    assert PathTo(d, {root}, [root], root);
    forall b | b in r && b < |g| && g[b].s.Jump?
      ensures g[b].s.jt in r && g[b].s.jf in r
    {
      ReachedStep(d, {root}, b, g[b].s.jt);
      ReachedStep(d, {root}, b, g[b].s.jf);
    }
    assert Closed(g, r);
  }

  lemma {:induction false} EdgePathStays(g: Graph, root: nat, placed: set<nat>, path: seq<nat>)
    requires WellFormed(g) && root < |g| && Path(EdgeGraph(g), {root, root + |g|}, path)
    requires root in placed && Closed(g, placed)
    ensures path[|path| - 1] < 2 * |g| && Owner(g, path[|path| - 1]) in placed
  {
    if |path| > 1 {
      var d := EdgeGraph(g);
      PathShrinks(d, {root, root + |g|}, path, path[|path| - 1]);
      EdgePathStays(g, root, placed, path[..|path| - 1]);
      EdgeArrow(g, path[|path| - 2], path[|path| - 1]);
      assert Edge(g, Owner(g, path[|path| - 2]), Owner(g, path[|path| - 1]));
    }
  }

  lemma EdgeReached(g: Graph, root: nat, placed: set<nat>)
    requires WellFormed(g) && root < |g| && IsReach(g, root, placed) && forall b :: b in placed ==> b < |g|
    ensures forall e: nat :: Reached(EdgeGraph(g), {root, root + |g|}, e) <==> e < 2 * |g| && Owner(g, e) in placed
  {
    var d, sources, n := EdgeGraph(g), {root, root + |g|}, |g|;
    forall e: nat | Reached(d, sources, e)
      ensures e < 2 * |g| && Owner(g, e) in placed
    {
      var path :| PathTo(d, sources, path, e);
      EdgePathStays(g, root, placed, path);
    }
    PlacedEdgesReached(g, root, placed);
  }

  lemma PlacedEdgesReached(g: Graph, root: nat, placed: set<nat>)
    requires WellFormed(g) && root < |g| && IsReach(g, root, placed) && forall b :: b in placed ==> b < |g|
    ensures forall e: nat :: e < 2 * |g| && Owner(g, e) in placed ==> Reached(EdgeGraph(g), {root, root + |g|}, e)
  {
    var d, sources, n := EdgeGraph(g), {root, root + |g|}, |g|;
    var r := set b | b in placed && Reached(d, sources, b) && Reached(d, sources, b + n);
    assert root in r by {
      assert PathTo(d, sources, [root], root) && PathTo(d, sources, [root + n], root + n);
    }
    forall b | b in r && b < |g| && g[b].s.Jump?
      ensures g[b].s.jt in r && g[b].s.jf in r
    {
      SuccReached(g, sources, b);
      assert Edge(g, b, g[b].s.jt) && Edge(g, b, g[b].s.jf);
    }
    assert Closed(g, r);
    assert placed <= r;
  }

  lemma SuccReached(g: Graph, sources: set<nat>, b: nat)
    requires WellFormed(g) && b < |g| && g[b].s.Jump?
    requires Reached(EdgeGraph(g), sources, b) && Reached(EdgeGraph(g), sources, b + |g|)
    ensures forall c: nat :: Edge(g, b, c) ==> Reached(EdgeGraph(g), sources, c) && Reached(EdgeGraph(g), sources, c + |g|)
  {
    BothReached(g, sources, b);
    BothReached(g, sources, b + |g|);
  }

  lemma BothReached(g: Graph, sources: set<nat>, e: nat)
    requires WellFormed(g) && e < 2 * |g| && g[Owner(g, e)].s.Jump? && Reached(EdgeGraph(g), sources, e)
    ensures Reached(EdgeGraph(g), sources, Target(g, e)) && Reached(EdgeGraph(g), sources, Target(g, e) + |g|)
  {
    EdgeArrow(g, e, Target(g, e));
    EdgeArrow(g, e, Target(g, e) + |g|);
    ReachedStep(EdgeGraph(g), sources, e, Target(g, e));
    ReachedStep(EdgeGraph(g), sources, e, Target(g, e) + |g|);
  }

  // --------------------------------------------------------------- sweeping down

  /** The placed blocks at level `l` or above. */
  ghost function AtLeast(g: Graph, placed: set<nat>, l: nat): set<nat>
    requires Acyclic(g)
  {
    set b | b in placed && b < |g| && Level(g, b) >= l
  }

  lemma RootHighest(g: Graph, root: nat, placed: set<nat>)
    requires Acyclic(g) && root < |g| && IsReach(g, root, placed) && forall b :: b in placed ==> b < |g|
    ensures forall b :: b in placed ==> Level(g, b) <= Level(g, root)
    ensures forall b: nat :: b in placed ==> !Edge(g, b, root)
  {
    var low := set b | b in placed && b < |g| && Level(g, b) <= Level(g, root);
    assert Closed(g, low);
  }

  /** What a sweep has seen when it comes to the `j`-th block of level `i`. */
  ghost function Seen(g: Graph, placed: set<nat>, lists: seq<seq<nat>>, i: nat, j: nat): set<nat>
    requires Acyclic(g) && i < |lists| && j <= |lists[i]|
  {
    AtLeast(g, placed, i + 1) + Elems(lists[i][..j])
  }

  lemma SeenEnd(g: Graph, placed: set<nat>, level: seq<nat>, lists: seq<seq<nat>>, i: nat)
    requires Acyclic(g) && Leveled(g, placed, level, lists) && i < |g|
    ensures Seen(g, placed, lists, i, |lists[i]|) == AtLeast(g, placed, i)
  {
    assert lists[i][..|lists[i]|] == lists[i];
    forall b | b in placed
      ensures b in AtLeast(g, placed, i) <==> b in AtLeast(g, placed, i + 1) || b in lists[i]
    {
    }
    forall b | b in lists[i]
      ensures b in placed && Level(g, b) == i
    {
    }
  }

  lemma SeenStep(g: Graph, placed: set<nat>, lists: seq<seq<nat>>, i: nat, j: nat)
    requires Acyclic(g) && i < |lists| && j < |lists[i]|
    ensures Seen(g, placed, lists, i, j + 1) == Seen(g, placed, lists, i, j) + {lists[i][j]}
  {
    var s := lists[i];
    assert s[..j + 1] == s[..j] + [s[j]];
  }

  /** `x` comes next in a sweep: all its predecessors were seen and none of its successors. */
  ghost predicate BlockNext(g: Graph, placed: set<nat>, seen: set<nat>, x: nat)
  {
    && x < |g| && x in placed && x !in seen && seen <= placed
    && (forall a: nat :: a in placed && Edge(g, a, x) ==> a in seen)
    && (forall b: nat :: Edge(g, x, b) ==> b !in seen && b != x)
  }

  lemma SeenBlock(g: Graph, placed: set<nat>, level: seq<nat>, lists: seq<seq<nat>>, i: nat, j: nat)
    requires Acyclic(g) && Leveled(g, placed, level, lists) && i < |g| && j < |lists[i]|
    ensures BlockNext(g, placed, Seen(g, placed, lists, i, j), lists[i][j])
  {
    var x, seen := lists[i][j], Seen(g, placed, lists, i, j);
    assert x in lists[i] && x in placed && Level(g, x) == i;
    forall y | y in Elems(lists[i][..j])
      ensures y in placed && Level(g, y) == i && y != x
    {
      assert y in lists[i];
    }
  }

  lemma NextBlock(g: Graph, root: nat, placed: set<nat>, level: seq<nat>, lists: seq<seq<nat>>, i: nat, j: nat)
    requires Acyclic(g) && root < |g| && IsReach(g, root, placed) && Leveled(g, placed, level, lists)
    requires i < |g| && j < |lists[i]|
    ensures Next(BlockGraph(g), {root}, Seen(g, placed, lists, i, j), lists[i][j])
  {
    SeenBlock(g, placed, level, lists, i, j);
    BlockReached(g, root, placed);
    forall a: nat, b: nat
      ensures Arrow(BlockGraph(g), a, b) <==> Edge(g, a, b)
    {
      BlockArrow(g, a, b);
    }
  }

  lemma BlockSources(g: Graph, root: nat, placed: set<nat>)
    requires Acyclic(g) && root < |g| && IsReach(g, root, placed) && forall b :: b in placed ==> b < |g|
    ensures SourcesFirst(BlockGraph(g), {root})
  {
    BlockReached(g, root, placed);
    RootHighest(g, root, placed);
    forall a: nat, b: nat
      ensures Arrow(BlockGraph(g), a, b) <==> Edge(g, a, b)
    {
      BlockArrow(g, a, b);
    }
  }

  /** `level` and `lists` are what leveling from `root` leaves, `placed` the live blocks. */
  ghost predicate Sweepable(g: Graph, root: nat, placed: set<nat>, level: seq<nat>, lists: seq<seq<nat>>)
  {
    Acyclic(g) && root < |g| && IsReach(g, root, placed) && Leveled(g, placed, level, lists)
  }

  // ------------------------------------------------------------------ dominators

  /** Both successors' sets intersected with the set of `b`, after `b` joined its own. */
  method VisitDom(g: Graph, dom: seq<set<nat>>, b: nat) returns (dom': seq<set<nat>>)
    requires WellFormed(g) && |dom| == |g| && b < |g| && !Edge(g, b, b)
    ensures |dom'| == |g| && dom'[b] == dom[b] + {b}
    ensures forall c :: 0 <= c < |g| && c != b ==> dom'[c] == if c in BlockGraph(g)[b] then dom[c] * dom'[b] else dom[c]
  {
    dom' := dom[b := dom[b] + {b}];
    if g[b].s.Jump? {
      var jt, jf := g[b].s.jt, g[b].s.jf;
      assert Edge(g, b, jt) && Edge(g, b, jf);
      dom' := dom'[jt := dom'[jt] * dom'[b]];
      dom' := dom'[jf := dom'[jf] * dom'[b]];
    }
  }

  method SweepDom(g: Graph, root: nat, ghost placed: set<nat>, level: seq<nat>, lists: seq<seq<nat>>, dom: seq<set<nat>>, i: nat) returns (dom': seq<set<nat>>)
    requires Sweepable(g, root, placed, level, lists)
    requires i < |g| && SourcesFirst(BlockGraph(g), {root})
    requires DomState(BlockGraph(g), {root}, AtLeast(g, placed, i + 1), dom)
    ensures DomState(BlockGraph(g), {root}, AtLeast(g, placed, i), dom')
  {
    dom' := dom;
    assert Seen(g, placed, lists, i, 0) == AtLeast(g, placed, i + 1);
    for j := 0 to |lists[i]|
      invariant DomState(BlockGraph(g), {root}, Seen(g, placed, lists, i, j), dom')
    {
      NextBlock(g, root, placed, level, lists, i, j);
      SeenStep(g, placed, lists, i, j);
      BlockArrow(g, lists[i][j], lists[i][j]);
      ghost var before := dom';
      dom' := VisitDom(g, dom', lists[i][j]);
      DomVisit(BlockGraph(g), {root}, Seen(g, placed, lists, i, j), before, lists[i][j], dom');
    }
    SeenEnd(g, placed, level, lists, i);
  }

  /** Afterwards each live block's set holds precisely the blocks on every path from the root. */
  method FindDom(g: Graph, root: nat, ghost placed: set<nat>, level: seq<nat>, lists: seq<seq<nat>>) returns (dom: seq<set<nat>>)
    requires Sweepable(g, root, placed, level, lists)
    ensures |dom| == |g|
    ensures forall b, y :: b in placed && 0 <= y < |g| ==> (y in dom[b] <==> Dominates(BlockGraph(g), {root}, y, b))
  {
    var all := Below(|g|);
    dom := seq(|g|, _ => all);
    dom := dom[root := {}];
    DomInit(BlockGraph(g), {root}, dom);
    BlockSources(g, root, placed);
    LevelsTop(g, root, placed);
    for i := level[root] + 1 downto 0
      invariant DomState(BlockGraph(g), {root}, AtLeast(g, placed, i), dom)
    {
      dom := SweepDom(g, root, placed, level, lists, dom, i);
    }
    DomFinal(BlockGraph(g), {root}, placed, dom);
  }

  lemma DomFinal(d: Digraph, sources: set<nat>, seen: set<nat>, dom: seq<set<nat>>)
    requires DomState(d, sources, seen, dom)
    ensures forall b, y :: b in seen && 0 <= b < |d| && 0 <= y < |d| ==> (y in dom[b] <==> Dominates(d, sources, y, b))
  {
  }

  // -------------------------------------------------------------------- closure

  method VisitClosure(g: Graph, closure: seq<set<nat>>, b: nat) returns (closure': seq<set<nat>>)
    requires WellFormed(g) && |closure| == |g| && b < |g| && !Edge(g, b, b)
    ensures |closure'| == |g| && closure'[b] == closure[b] + {b}
    ensures forall c :: 0 <= c < |g| && c != b ==>
                          closure'[c] == if c in BlockGraph(g)[b] then closure[c] + closure'[b] else closure[c]
  {
    closure' := closure[b := closure[b] + {b}];
    if g[b].s.Jump? {
      var jt, jf := g[b].s.jt, g[b].s.jf;
      assert Edge(g, b, jt) && Edge(g, b, jf);
      closure' := closure'[jt := closure'[jt] + closure'[b]];
      closure' := closure'[jf := closure'[jf] + closure'[b]];
    }
  }

  lemma ClosureInit(d: Digraph, sources: set<nat>, closure: seq<set<nat>>)
    requires |closure| == |d| && forall b :: 0 <= b < |d| ==> closure[b] == {}
    ensures ClosureState(d, sources, {}, closure)
  {
  }

  lemma ClosureFinal(d: Digraph, sources: set<nat>, seen: set<nat>, closure: seq<set<nat>>)
    requires ClosureState(d, sources, seen, closure)
    ensures forall b, y :: b in seen && 0 <= b < |d| && 0 <= y ==> (y in closure[b] <==> Precedes(d, sources, y, b))
  {
  }

  method SweepClosure(g: Graph, root: nat, ghost placed: set<nat>, level: seq<nat>, lists: seq<seq<nat>>, closure: seq<set<nat>>, i: nat) returns (closure': seq<set<nat>>)
    requires Sweepable(g, root, placed, level, lists)
    requires i < |g| && ClosureState(BlockGraph(g), {root}, AtLeast(g, placed, i + 1), closure)
    ensures ClosureState(BlockGraph(g), {root}, AtLeast(g, placed, i), closure')
  {
    closure' := closure;
    assert Seen(g, placed, lists, i, 0) == AtLeast(g, placed, i + 1);
    for j := 0 to |lists[i]|
      invariant ClosureState(BlockGraph(g), {root}, Seen(g, placed, lists, i, j), closure')
    {
      NextBlock(g, root, placed, level, lists, i, j);
      SeenStep(g, placed, lists, i, j);
      BlockArrow(g, lists[i][j], lists[i][j]);
      ghost var before := closure';
      closure' := VisitClosure(g, closure', lists[i][j]);
      ClosureVisit(BlockGraph(g), {root}, Seen(g, placed, lists, i, j), before, lists[i][j], closure');
    }
    SeenEnd(g, placed, level, lists, i);
  }

  /** Afterwards each live block's set holds precisely its ancestors and itself. */
  method FindClosure(g: Graph, root: nat, ghost placed: set<nat>, level: seq<nat>, lists: seq<seq<nat>>) returns (closure: seq<set<nat>>)
    requires Sweepable(g, root, placed, level, lists)
    ensures |closure| == |g|
    ensures forall b, y :: b in placed && 0 <= y ==> (y in closure[b] <==> Precedes(BlockGraph(g), {root}, y, b))
  {
    closure := seq(|g|, _ => {});
    ClosureInit(BlockGraph(g), {root}, closure);
    LevelsTop(g, root, placed);
    for i := level[root] + 1 downto 0
      invariant ClosureState(BlockGraph(g), {root}, AtLeast(g, placed, i), closure)
    {
      closure := SweepClosure(g, root, placed, level, lists, closure, i);
    }
    ClosureFinal(BlockGraph(g), {root}, placed, closure);
  }

  // ------------------------------------------------------------- edge dominators

  /** The edges that leave the blocks of `s`. */
  ghost function EdgesOf(g: Graph, s: set<nat>): set<nat>
  {
    set e | e in Below(2 * |g|) && Owner(g, e) in s
  }

  lemma NextEdge(g: Graph, root: nat, placed: set<nat>, s: set<nat>, seen: set<nat>, e: nat)
    requires WellFormed(g) && root < |g| && IsReach(g, root, placed) && (forall b :: b in placed ==> b < |g|)
    requires e < 2 * |g| && BlockNext(g, placed, s, Owner(g, e))
    requires EdgesOf(g, s) <= seen <= EdgesOf(g, s + {Owner(g, e)}) - {e}
    ensures Next(EdgeGraph(g), {root, root + |g|}, seen, e)
  {
    EdgeReached(g, root, placed);
    var d, sources := EdgeGraph(g), {root, root + |g|};
    forall a: nat | Reached(d, sources, a) && Arrow(d, a, e)
      ensures a in seen
    {
      EdgeArrow(g, a, e);
      assert Edge(g, Owner(g, a), Owner(g, e));
      assert a in Below(2 * |g|);
    }
    forall f: nat | Arrow(d, e, f)
      ensures f !in seen && f != e
    {
      EdgeArrow(g, e, f);
      assert Edge(g, Owner(g, e), Owner(g, f));
    }
  }

  lemma EdgeSources(g: Graph, root: nat, placed: set<nat>)
    requires Acyclic(g) && root < |g| && IsReach(g, root, placed) && forall b :: b in placed ==> b < |g|
    ensures SourcesFirst(EdgeGraph(g), {root, root + |g|})
  {
    EdgeReached(g, root, placed);
    RootHighest(g, root, placed);
    forall e: nat, f: nat | Reached(EdgeGraph(g), {root, root + |g|}, e) && Arrow(EdgeGraph(g), e, f)
      ensures f !in {root, root + |g|}
    {
      EdgeArrow(g, e, f);
      assert Edge(g, Owner(g, e), Owner(g, f));
    }
  }

  method Propedom(g: Graph, edom: seq<set<nat>>, e: nat) returns (edom': seq<set<nat>>)
    requires WellFormed(g) && |edom| == 2 * |g| && e < 2 * |g| && !Edge(g, Owner(g, e), Owner(g, e))
    ensures |edom'| == 2 * |g| && edom'[e] == edom[e] + {e}
    ensures forall f :: 0 <= f < 2 * |g| && f != e ==>
                          edom'[f] == if f in EdgeGraph(g)[e] then edom[f] * edom'[e] else edom[f]
  {
    edom' := edom[e := edom[e] + {e}];
    if g[Owner(g, e)].s.Jump? {
      var t := Target(g, e);
      assert Edge(g, Owner(g, e), t);
      edom' := edom'[t := edom'[t] * edom'[e]];
      edom' := edom'[t + |g| := edom'[t + |g|] * edom'[e]];
    }
  }

  lemma EdgesOfAdd(g: Graph, s: set<nat>, b: nat)
    requires b < |g|
    ensures EdgesOf(g, s + {b}) == EdgesOf(g, s) + {b} + {b + |g|}
  {
    forall e | e in EdgesOf(g, s) + {b} + {b + |g|}
      ensures e in EdgesOf(g, s + {b})
    {
      assert e in Below(2 * |g|);
    }
  }

  /** Afterwards the set of each edge of a live block holds precisely the edges on every path from
      the root that goes through it. */
  method FindEdom(g: Graph, root: nat, ghost placed: set<nat>, level: seq<nat>, lists: seq<seq<nat>>) returns (edom: seq<set<nat>>)
    requires Sweepable(g, root, placed, level, lists)
    ensures |edom| == 2 * |g|
    ensures forall e, y :: 0 <= e < 2 * |g| && Owner(g, e) in placed && 0 <= y < 2 * |g| ==>
                             (y in edom[e] <==> Dominates(EdgeGraph(g), {root, root + |g|}, y, e))
  {
    hide SeenDominate, Dominates;
    edom := InitEdom(g, root);
    EdgeSources(g, root, placed);
    LevelsTop(g, root, placed);
    for i := level[root] + 1 downto 0
      invariant DomState(EdgeGraph(g), {root, root + |g|}, EdgesOf(g, AtLeast(g, placed, i)), edom)
    {
      edom := SweepEdges(g, root, placed, level, lists, edom, i);
    }
    EdgesOfAll(g, placed);
    DomFinal(EdgeGraph(g), {root, root + |g|}, EdgesOf(g, placed), edom);
  }

  lemma LevelsTop(g: Graph, root: nat, placed: set<nat>)
    requires Acyclic(g) && root < |g| && IsReach(g, root, placed) && forall b :: b in placed ==> b < |g|
    ensures Level(g, root) < |g| && AtLeast(g, placed, Level(g, root) + 1) == {} && AtLeast(g, placed, 0) == placed
    ensures EdgesOf(g, AtLeast(g, placed, Level(g, root) + 1)) == {}
  {
    RootHighest(g, root, placed);
    LevelBound(g, root);
  }

  lemma EdgesOfAll(g: Graph, s: set<nat>)
    ensures forall e :: 0 <= e < 2 * |g| && Owner(g, e) in s ==> e in EdgesOf(g, s)
  {
    forall e | 0 <= e < 2 * |g| && Owner(g, e) in s
      ensures e in EdgesOf(g, s)
    {
      assert e in Below(2 * |g|);
    }
  }

  method InitEdom(g: Graph, root: nat) returns (edom: seq<set<nat>>)
    requires root < |g|
    ensures DomState(EdgeGraph(g), {root, root + |g|}, {}, edom)
  {
    var all := Below(2 * |g|);
    edom := seq(2 * |g|, _ => all);
    edom := edom[root := {}];
    edom := edom[root + |g| := {}];
    DomInit(EdgeGraph(g), {root, root + |g|}, edom);
  }

  method SweepEdges(g: Graph, root: nat, ghost placed: set<nat>, level: seq<nat>, lists: seq<seq<nat>>, edom: seq<set<nat>>, i: nat) returns (edom': seq<set<nat>>)
    requires Sweepable(g, root, placed, level, lists)
    requires i < |g| && SourcesFirst(EdgeGraph(g), {root, root + |g|})
    requires DomState(EdgeGraph(g), {root, root + |g|}, EdgesOf(g, AtLeast(g, placed, i + 1)), edom)
    ensures DomState(EdgeGraph(g), {root, root + |g|}, EdgesOf(g, AtLeast(g, placed, i)), edom')
  {
    edom' := edom;
    assert Seen(g, placed, lists, i, 0) == AtLeast(g, placed, i + 1);
    for j := 0 to |lists[i]|
      invariant DomState(EdgeGraph(g), {root, root + |g|}, EdgesOf(g, Seen(g, placed, lists, i, j)), edom')
    {
      edom' := VisitEdges(g, root, placed, level, lists, edom', i, j);
    }
    SeenEnd(g, placed, level, lists, i);
  }

  method VisitEdges(g: Graph, root: nat, ghost placed: set<nat>, level: seq<nat>, lists: seq<seq<nat>>, edom: seq<set<nat>>, i: nat, j: nat) returns (edom': seq<set<nat>>)
    requires Sweepable(g, root, placed, level, lists)
    requires i < |g| && j < |lists[i]| && SourcesFirst(EdgeGraph(g), {root, root + |g|})
    requires DomState(EdgeGraph(g), {root, root + |g|}, EdgesOf(g, Seen(g, placed, lists, i, j)), edom)
    ensures DomState(EdgeGraph(g), {root, root + |g|}, EdgesOf(g, Seen(g, placed, lists, i, j + 1)), edom')
  {
    SeenBlock(g, placed, level, lists, i, j);
    SeenStep(g, placed, lists, i, j);
    edom' := PropBoth(g, root, placed, Seen(g, placed, lists, i, j), edom, lists[i][j]);
  }

  /** Both edges of block `b`, the true one first. */
  method PropBoth(g: Graph, root: nat, ghost placed: set<nat>, ghost s: set<nat>, edom: seq<set<nat>>, b: nat)
    returns (edom': seq<set<nat>>)
    requires Acyclic(g) && root < |g| && IsReach(g, root, placed) && (forall b :: b in placed ==> b < |g|)
    requires b < |g| && BlockNext(g, placed, s, b) && SourcesFirst(EdgeGraph(g), {root, root + |g|})
    requires DomState(EdgeGraph(g), {root, root + |g|}, EdgesOf(g, s), edom)
    ensures DomState(EdgeGraph(g), {root, root + |g|}, EdgesOf(g, s + {b}), edom')
  {
    ghost var seen := EdgesOf(g, s);
    EdgesOfAdd(g, s, b);
    assert !Edge(g, b, b);
    NextEdge(g, root, placed, s, seen, b);
    NextEdge(g, root, placed, s, seen + {b}, b + |g|);
    edom' := PropOne(g, root, seen, edom, b);
    edom' := PropOne(g, root, seen + {b}, edom', b + |g|);
  }

  method PropOne(g: Graph, root: nat, ghost seen: set<nat>, edom: seq<set<nat>>, e: nat) returns (edom': seq<set<nat>>)
    requires WellFormed(g) && root < |g| && e < 2 * |g| && SourcesFirst(EdgeGraph(g), {root, root + |g|})
    requires !Edge(g, Owner(g, e), Owner(g, e)) && Next(EdgeGraph(g), {root, root + |g|}, seen, e)
    requires DomState(EdgeGraph(g), {root, root + |g|}, seen, edom)
    ensures DomState(EdgeGraph(g), {root, root + |g|}, seen + {e}, edom')
  {
    edom' := Propedom(g, edom, e);
    DomVisit(EdgeGraph(g), {root, root + |g|}, seen, edom, e, edom');
  }
}
