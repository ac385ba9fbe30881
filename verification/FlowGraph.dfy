/**
 The flow graph of a filter: numbered blocks of straight-line statements, each
 ending in a two-way branch or a return, and the meaning of a run through it.
 */
module FlowGraph {
  import opened Bpf
  import opened Seqs

  datatype Block = Block(stmts: seq<Stmt>, s: Term)
  type Graph = seq<Block>

  predicate WellFormed(g: Graph)
  {
    forall b :: 0 <= b < |g| && g[b].s.Jump? ==> g[b].s.jt < |g| && g[b].s.jf < |g|
  }

  /** `rank` strictly decreases along every edge. */
  predicate Ranked(g: Graph, rank: seq<nat>)
    requires WellFormed(g)
  {
    && |rank| == |g|
    && forall b :: 0 <= b < |g| && g[b].s.Jump? ==> rank[g[b].s.jt] < rank[b] && rank[g[b].s.jf] < rank[b]
  }

  ghost predicate Acyclic(g: Graph)
  {
    WellFormed(g) && exists rank :: Ranked(g, rank)
  }

  ghost function RankOf(g: Graph): (rank: seq<nat>)
    requires Acyclic(g)
    ensures Ranked(g, rank)
  {
    var rank :| Ranked(g, rank); rank
  }

  predicate Edge(g: Graph, a: nat, b: nat)
  {
    a < |g| && g[a].s.Jump? && (b == g[a].s.jt || b == g[a].s.jf)
  }

  /** The verdict of a run that enters block `b` with registers `r`. */
  ghost function Walk(g: Graph, b: nat, r: Regs, p: Packet): Verdict
    requires Acyclic(g) && b < |g|
    decreases RankOf(g)[b]
  {
    match ExecAll(g[b].stmts, r, p)
    case Reject => Accept(0)
    case Undef => Undefined
    case Val(r') =>
      match g[b].s
      case Ret(useA, k) => Answer(useA, k, r')
      case Jump(op, useX, k, jt, jf) => Walk(g, if Holds(op, useX, k, r') then jt else jf, r', p)
  }

  // ------------------------------------------------------------- reachability

  ghost predicate Closed(g: Graph, s: set<nat>)
  {
    forall b: nat, c: nat {:trigger Edge(g, b, c)} :: b in s && Edge(g, b, c) ==> c in s
  }

  lemma ClosedSucc(g: Graph, s: set<nat>, b: nat)
    requires Closed(g, s) && b in s && b < |g| && g[b].s.Jump?
    ensures g[b].s.jt in s && g[b].s.jf in s
  {
    assert Edge(g, b, g[b].s.jt) && Edge(g, b, g[b].s.jf);
  }

  /** `s` is the set of blocks reachable from `root`: the least closed set holding it. */
  ghost predicate IsReach(g: Graph, root: nat, s: set<nat>)
  {
    && root in s
    && Closed(g, s)
    && forall c: set<nat> :: root in c && Closed(g, c) ==> s <= c
  }

  lemma ReachUnique(g: Graph, root: nat, s: set<nat>, t: set<nat>)
    requires IsReach(g, root, s) && IsReach(g, root, t)
    ensures s == t
  {
  }

  ghost predicate IsPath(g: Graph, path: seq<nat>)
  {
    && |path| > 0
    && (forall i :: 0 <= i < |path| ==> path[i] < |g|)
    && forall i :: 0 <= i < |path| - 1 ==> Edge(g, path[i], path[i + 1])
  }

  // ------------------------------------------------------------------- levels

  /** The length of the longest walk out of `b`. */
  ghost function Level(g: Graph, b: nat): nat
    requires Acyclic(g) && b < |g|
    decreases RankOf(g)[b]
  {
    match g[b].s
    case Ret(_, _) => 0
    case Jump(_, _, _, jt, jf) => Max(Level(g, jt), Level(g, jf)) + 1
  }

  ghost function Levels(g: Graph): (rank: seq<nat>)
    requires Acyclic(g)
    ensures Ranked(g, rank)
    ensures forall b: nat :: b < |g| ==> rank[b] == Level(g, b)
  {
    seq(|g|, b requires 0 <= b < |g| => Level(g, b))
  }

  /** The blocks of `s'` that are not in `s` have their successors in `s'`. */
  ghost predicate ClosedFrom(g: Graph, s: set<nat>, s': set<nat>)
  {
    forall b: nat, c: nat {:trigger Edge(g, b, c)} :: b in s' && b !in s && Edge(g, b, c) ==> c in s'
  }

  /** `s'` adds to `s` only blocks reachable from `b`. */
  ghost predicate OnlyBelow(g: Graph, b: nat, s: set<nat>, s': set<nat>)
  {
    forall c: set<nat> :: b in c && Closed(g, c) ==> s' <= s + c
  }

  lemma OnlyBelowBoth(g: Graph, b: nat, s: set<nat>, s': set<nat>, s'': set<nat>)
    requires b < |g| && g[b].s.Jump?
    requires OnlyBelow(g, g[b].s.jt, s, s') && OnlyBelow(g, g[b].s.jf, s', s'')
    ensures OnlyBelow(g, b, s, s'')
  {
    forall c: set<nat> | b in c && Closed(g, c)
      ensures s'' <= s + c
    {
      ClosedSucc(g, c, b);
    }
  }

  /** Marks `p` and every block below it that is not marked yet. */
  method MakeMarks(g: Graph, p: nat, marked: set<nat>, ghost rank: seq<nat>) returns (marked': set<nat>)
    requires WellFormed(g) && Ranked(g, rank) && p < |g|
    requires forall b :: b in marked ==> b < |g|
    ensures marked <= marked' && p in marked' && forall b :: b in marked' ==> b < |g|
    ensures ClosedFrom(g, marked, marked') && OnlyBelow(g, p, marked, marked')
    decreases rank[p]
  {
    marked' := marked;
    if p !in marked {
      marked' := marked' + {p};
      if g[p].s.Jump? {
        marked' := MakeMarks(g, g[p].s.jt, marked', rank);
        ghost var mid := marked';
        marked' := MakeMarks(g, g[p].s.jf, marked', rank);
        OnlyBelowBoth(g, p, marked + {p}, mid, marked');
      }
    }
  }

  /** The blocks that are alive: exactly those reachable from `root`. */
  method MarkCode(g: Graph, root: nat) returns (marked: set<nat>)
    requires Acyclic(g) && root < |g|
    ensures IsReach(g, root, marked) && forall b :: b in marked ==> b < |g|
  {
    marked := MakeMarks(g, root, {}, RankOf(g));
  }
}
