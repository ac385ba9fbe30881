/**
 Merging equal blocks.  Each round links every live block to a later equal one and
 redirects the edges that led to it; rounds repeat until no edge was redirected.
 */
module Intern {
  import opened Bpf
  import opened FlowGraph
  import opened Linearize
  import opened Sets

  datatype Link = NoLink | To(b: nat)

  /** Two blocks are interchangeable: same end, same successors, same live statements. */
  predicate Equal(x: Block, y: Block)
  {
    x.s == y.s && Live(x.stmts) == Live(y.stmts)
  }

  lemma {:induction false} LiveCons(s: Stmt, t: seq<Stmt>)
    ensures Live([s] + t) == (if s.code == Nop then [] else [s]) + Live(t)
  {
    if |t| == 0 {
      assert ([s] + t)[..0] == [];
    } else {
      var init, last := t[..|t| - 1], t[|t| - 1];
      LiveCons(s, init);
      assert ([s] + t)[..|t|] == [s] + init;
    }
  }

  lemma LiveDrop(s: seq<Stmt>, i: nat)
    requires i < |s|
    ensures Live(s[i..]) == (if s[i].code == Nop then [] else [s[i]]) + Live(s[i + 1..])
  {
    LiveCons(s[i], s[i + 1..]);
    assert s[i..] == [s[i]] + s[i + 1..];
  }

  method SkipNops(x: seq<Stmt>, i: nat) returns (i': nat)
    requires i <= |x|
    ensures i <= i' <= |x| && Live(x[i'..]) == Live(x[i..]) && (i' < |x| ==> x[i'].code != Nop)
  {
    i' := i;
    while i' < |x| && x[i'].code == Nop
      invariant i <= i' <= |x| && Live(x[i'..]) == Live(x[i..])
    {
      LiveDrop(x, i');
      i' := i' + 1;
    }
  }

  /** Compares two statement lists, deleted statements apart. */
  method EqSlist(x: seq<Stmt>, y: seq<Stmt>) returns (eq: bool)
    ensures eq <==> Live(x) == Live(y)
  {
    var i, j := 0, 0;
    while true
      invariant i <= |x| && j <= |y|
      invariant Live(x) == Live(y) <==> Live(x[i..]) == Live(y[j..])
      decreases |x| - i
    {
      i := SkipNops(x, i);
      j := SkipNops(y, j);
      if i < |x| {
        LiveDrop(x, i);
      }
      if j < |y| {
        LiveDrop(y, j);
      }
      if i == |x| {
        return j == |y|;
      }
      if j == |y| {
        return false;
      }
      if x[i] != y[j] {
        assert Live(x[i..])[0] == x[i] && Live(y[j..])[0] == y[j];
        return false;
      }
      assert Live(x[i..])[1..] == Live(x[i + 1..]) && Live(y[j..])[1..] == Live(y[j + 1..]);
      i, j := i + 1, j + 1;
    }
  }

  method EqBlk(x: Block, y: Block) returns (eq: bool)
    ensures eq <==> Equal(x, y)
  {
    if x.s != y.s {
      return false;
    }
    eq := EqSlist(x.stmts, y.stmts);
  }

  // ---------------------------------------------------------------- one round

  /** Links lead from live blocks to equal live blocks that are not linked themselves. */
  predicate LinksOk(g: Graph, marked: set<nat>, link: seq<Link>)
  {
    && |link| == |g|
    && forall i :: 0 <= i < |g| && link[i].To? ==>
                     i in marked && link[i].b in marked && link[i].b < |g| && link[link[i].b] == NoLink
                     && Equal(g[i], g[link[i].b])
  }

  function Redirect(link: seq<Link>, b: nat): nat
  {
    if b < |link| && link[b].To? then link[b].b else b
  }

  function RedirectTerm(link: seq<Link>, s: Term): Term
  {
    if s.Jump? then s.(jt := Redirect(link, s.jt), jf := Redirect(link, s.jf)) else s
  }

  /** `g` with every edge redirected through `link`. */
  function Redirected(g: Graph, link: seq<Link>): (g': Graph)
    ensures |g'| == |g|
  {
    seq(|g|, i requires 0 <= i < |g| => g[i].(s := RedirectTerm(link, g[i].s)))
  }

  lemma RedirectedWellFormed(g: Graph, marked: set<nat>, link: seq<Link>)
    requires WellFormed(g) && LinksOk(g, marked, link)
    ensures WellFormed(Redirected(g, link))
  {
  }

  /** Equal blocks are at equal levels, so levels still decrease after redirection. */
  lemma RedirectedAcyclic(g: Graph, marked: set<nat>, link: seq<Link>)
    requires Acyclic(g) && LinksOk(g, marked, link)
    ensures Acyclic(Redirected(g, link))
  {
    RedirectedWellFormed(g, marked, link);
    assert Ranked(Redirected(g, link), Levels(g));
  }

  lemma EqualWalks(g: Graph, a: nat, b: nat, r: Regs, p: Packet)
    requires Acyclic(g) && a < |g| && b < |g| && Equal(g[a], g[b])
    ensures Walk(g, a, r, p) == Walk(g, b, r, p)
  {
    LiveRuns(g[a].stmts, r, p);
    LiveRuns(g[b].stmts, r, p);
  }

  /** One round of merging preserves the verdict from every block. */
  lemma {:induction false} RedirectedMeans(g: Graph, marked: set<nat>, link: seq<Link>, b: nat, r: Regs, p: Packet)
    requires Acyclic(g) && LinksOk(g, marked, link) && b < |g|
    requires Acyclic(Redirected(g, link))
    ensures Walk(Redirected(g, link), b, r, p) == Walk(g, b, r, p)
    decreases Level(g, b)
  {
    var g' := Redirected(g, link);
    match ExecAll(g[b].stmts, r, p)
    case Reject =>
    case Undef =>
    case Val(r') =>
      match g[b].s
      case Ret(_, _) =>
      case Jump(op, useX, k, jt, jf) =>
        var next := if Holds(op, useX, k, r') then jt else jf;
        var next' := Redirect(link, next);
        assert Level(g, next') == Level(g, next);
        RedirectedMeans(g, marked, link, next', r', p);
        if next' != next {
          EqualWalks(g, next, next', r', p);
        }
  }

  // ------------------------------------------------------------ progress

  /** A block reachable from the root by at least one edge is below it. */
  lemma RootNotLinked(g: Graph, root: nat, marked: set<nat>, link: seq<Link>)
    requires Acyclic(g) && root < |g| && IsReach(g, root, marked) && LinksOk(g, marked, link)
    ensures link[root] == NoLink
  {
    if link[root].To? {
      var lower := set b | b in marked && b < |g| && (b == root || Level(g, b) < Level(g, root));
      assert Closed(g, lower);
      assert false;
    }
  }

  /** The blocks that no link leads away from stay closed, so linked blocks are dead. */
  lemma SurvivorsClosed(g: Graph, root: nat, marked: set<nat>, link: seq<Link>)
    requires Acyclic(g) && root < |g| && IsReach(g, root, marked) && LinksOk(g, marked, link)
    requires forall b :: b in marked ==> b < |g|
    ensures root in Survivors(marked, link) && Closed(Redirected(g, link), Survivors(marked, link))
  {
    RootNotLinked(g, root, marked, link);
    forall b: nat | b in marked && b < |g| && g[b].s.Jump?
      ensures g[b].s.jt in marked && g[b].s.jf in marked
    {
      ClosedSucc(g, marked, b);
    }
  }

  function Survivors(marked: set<nat>, link: seq<Link>): set<nat>
  {
    set b | b in marked && b < |link| && link[b] == NoLink
  }

  /** Every live block other than the root has a live predecessor. */
  lemma HasPredecessor(g: Graph, root: nat, marked: set<nat>, c: nat)
    requires WellFormed(g) && IsReach(g, root, marked) && c in marked && c != root
    requires forall b :: b in marked ==> b < |g|
    ensures exists b :: b in marked && Edge(g, b, c)
  {
    if forall b :: b in marked ==> !Edge(g, b, c) {
      assert Closed(g, marked - {c});
    }
  }

  ghost predicate NoTwins(g: Graph, marked: set<nat>)
  {
    forall i, j :: 0 <= i < j < |g| && i in marked && j in marked ==> !Equal(g[i], g[j])
  }

  // ------------------------------------------------------------ the pass

  /** Links so far start at block `i` or later and lead forward. */
  predicate LinksFrom(link: seq<Link>, i: nat)
  {
    forall j :: 0 <= j < |link| && link[j].To? ==> i <= j < link[j].b
  }

  /** The unlinked live blocks from `i` on have no later equal block. */
  predicate Searched(g: Graph, marked: set<nat>, link: seq<Link>, i: nat)
    requires |link| == |g|
  {
    forall j, k :: i <= j < k < |g| && j in marked && k in marked && link[j] == NoLink ==> !Equal(g[j], g[k])
  }

  predicate TwinOf(g: Graph, marked: set<nat>, link: seq<Link>, i: nat, l: Link)
    requires |link| == |g| && i < |g|
  {
    && (l.To? ==> l.b in marked && i < l.b < |g| && link[l.b] == NoLink && Equal(g[i], g[l.b]))
    && (l == NoLink ==> forall j :: i < j < |g| && j in marked ==> !Equal(g[i], g[j]))
  }

  /** Links block `i` to the first later live block equal to it, or to where that one leads. */
  method FindTwin(g: Graph, marked: set<nat>, link: seq<Link>, i: nat) returns (l: Link)
    requires i < |g| && i in marked && LinksOk(g, marked, link) && LinksFrom(link, i + 1)
    ensures TwinOf(g, marked, link, i, l)
  {
    l := NoLink;
    for j := i + 1 to |g|
      invariant forall j' :: i < j' < j && j' in marked ==> !Equal(g[i], g[j'])
    {
      if j in marked {
        var eq := EqBlk(g[i], g[j]);
        if eq {
          l := if link[j].To? then link[j] else To(j);
          return;
        }
      }
    }
  }

  lemma LinkStep(g: Graph, marked: set<nat>, link: seq<Link>, i: nat, l: Link)
    requires i < |g| && i in marked && LinksOk(g, marked, link) && LinksFrom(link, i + 1) && TwinOf(g, marked, link, i, l)
    requires Searched(g, marked, link, i + 1)
    ensures LinksOk(g, marked, link[i := l]) && LinksFrom(link[i := l], i) && Searched(g, marked, link[i := l], i)
  {
  }

  method FindLinks(g: Graph, marked: set<nat>) returns (link: seq<Link>)
    ensures LinksOk(g, marked, link)
    ensures (forall i :: 0 <= i < |g| ==> link[i] == NoLink) ==> NoTwins(g, marked)
  {
    link := seq(|g|, _ => NoLink);
    if |g| == 0 {
      return;
    }
    for i := |g| - 1 downto 0
      invariant LinksOk(g, marked, link) && LinksFrom(link, i) && Searched(g, marked, link, i)
    {
      if i in marked {
        var l := FindTwin(g, marked, link, i);
        LinkStep(g, marked, link, i, l);
        link := link[i := l];
      }
    }
  }

  /** Redirects the edges of every block, dead ones included. */
  method RedirectEdges(blocks: array<Block>, link: seq<Link>) returns (done1: bool)
    requires |link| == blocks.Length
    modifies blocks
    ensures blocks[..] == Redirected(old(blocks[..]), link)
    ensures done1 <==> forall b: nat, c: nat :: Edge(old(blocks[..]), b, c) && c < |link| ==> link[c] == NoLink
  {
    ghost var g := blocks[..];
    done1 := true;
    for i := 0 to blocks.Length
      invariant forall j :: i <= j < blocks.Length ==> blocks[j] == g[j]
      invariant forall j :: 0 <= j < i ==> blocks[j] == Redirected(g, link)[j]
      invariant done1 <==> forall b: nat, c: nat :: b < i && Edge(g, b, c) && c < |link| ==> link[c] == NoLink
    {
      var s := blocks[i].s;
      if s.Jump? {
        assert Edge(g, i, s.jt) && Edge(g, i, s.jf);
        if s.jt < |link| && link[s.jt].To? {
          done1 := false;
          blocks[i] := blocks[i].(s := blocks[i].s.(jt := link[s.jt].b));
        }
        if s.jf < |link| && link[s.jf].To? {
          done1 := false;
          blocks[i] := blocks[i].(s := blocks[i].s.(jf := link[s.jf].b));
        }
      }
    }
  }

  /** The whole pass: every run keeps its verdict, from every block, and in the end no two
      live blocks are equal. */
  method InternBlocks(blocks: array<Block>, root: nat) returns (marked: set<nat>)
    requires Acyclic(blocks[..]) && root < blocks.Length
    modifies blocks
    ensures Acyclic(blocks[..])
    ensures forall b: nat, r: Regs, p: Packet :: b < blocks.Length ==> Walk(blocks[..], b, r, p) == Walk(old(blocks[..]), b, r, p)
    ensures IsReach(blocks[..], root, marked) && NoTwins(blocks[..], marked)
  {
    ghost var g0 := blocks[..];
    ghost var bound := Below(blocks.Length);
    while true
      invariant Acyclic(blocks[..])
      invariant forall b: nat, r: Regs, p: Packet :: b < blocks.Length ==> Walk(blocks[..], b, r, p) == Walk(g0, b, r, p)
      invariant root in bound && Closed(blocks[..], bound)
      decreases |bound|
    {
      ghost var g := blocks[..];
      marked := MarkCode(blocks[..], root);
      var link := FindLinks(blocks[..], marked);
      RedirectedAcyclic(g, marked, link);
      forall b: nat, r: Regs, p: Packet | b < |g|
        ensures Walk(Redirected(g, link), b, r, p) == Walk(g0, b, r, p)
      {
        RedirectedMeans(g, marked, link, b, r, p);
      }
      var done1 := RedirectEdges(blocks, link);
      if done1 {
        NoLinksLeft(g, root, marked, link);
        assert blocks[..] == g;
        return;
      }
      SurvivorsClosed(g, root, marked, link);
      SurvivorsFewer(g, bound, marked, link);
      bound := Survivors(marked, link);
    }
  }

  /** If no edge leads to a linked block then there is no link at all. */
  lemma NoLinksLeft(g: Graph, root: nat, marked: set<nat>, link: seq<Link>)
    requires Acyclic(g) && root < |g| && IsReach(g, root, marked) && LinksOk(g, marked, link)
    requires forall b :: b in marked ==> b < |g|
    requires forall b: nat, c: nat :: Edge(g, b, c) && c < |link| ==> link[c] == NoLink
    ensures forall i :: 0 <= i < |g| ==> link[i] == NoLink
    ensures Redirected(g, link) == g
  {
    RootNotLinked(g, root, marked, link);
    forall i | 0 <= i < |g|
      ensures link[i] == NoLink
    {
      if link[i].To? {
        HasPredecessor(g, root, marked, i);
      }
    }
  }

  lemma SurvivorsFewer(g: Graph, bound: set<nat>, marked: set<nat>, link: seq<Link>)
    requires LinksOk(g, marked, link) && marked <= bound
    requires exists b: nat, c: nat :: Edge(g, b, c) && c < |link| && link[c].To?
    ensures |Survivors(marked, link)| < |bound|
  {
    var b: nat, c: nat :| Edge(g, b, c) && c < |link| && link[c].To?;
    var s := Survivors(marked, link);
    assert s <= bound - {c};
    SubsetCount(s, bound - {c});
  }
}
