/**
 Code emission: a flow graph becomes a linear array, filled from the end in one
 depth-first traversal.  A branch whose displacement does not fit in a byte is
 flagged and the whole conversion is done again with room for a long jump.
 */
module Linearize {
  import opened Bpf
  import opened FlowGraph
  import opened Sets
  import opened Seqs

  /** What calloc and memset leave in a fresh instruction: a load immediate of 0. */
  const ZERO_INSN: Insn := Do(Stmt(LdImm, 0))

  /** The statements of a list that have not been deleted. */
  function Live(ss: seq<Stmt>): seq<Stmt>
  {
    if |ss| == 0 then []
    else if ss[|ss| - 1].code == Nop then Live(ss[..|ss| - 1])
    else Live(ss[..|ss| - 1]) + [ss[|ss| - 1]]
  }

  /** The blocks whose true (`jt`) and false (`jf`) branches need a long jump. */
  datatype Longs = Longs(jt: set<nat>, jf: set<nat>)

  function Flag(s: set<nat>, b: nat): nat
  {
    if b in s then 1 else 0
  }

  /** Array cells a block takes. */
  function Cells(g: Graph, l: Longs, b: nat): nat
    requires b < |g|
  {
    |Live(g[b].stmts)| + 1 + Flag(l.jt, b) + Flag(l.jf, b)
  }

  /** Cells of the blocks of `s` numbered below `i`. */
  function Total(g: Graph, l: Longs, s: set<nat>, i: nat): nat
    requires i <= |g|
  {
    if i == 0 then 0
    else Total(g, l, s, i - 1) + (if i - 1 in s then Cells(g, l, i - 1) else 0)
  }

  lemma {:induction false} TotalAdd(g: Graph, l: Longs, s: set<nat>, b: nat, i: nat)
    requires b < |g| && i <= |g| && b !in s
    ensures Total(g, l, s + {b}, i) == Total(g, l, s, i) + if b < i then Cells(g, l, b) else 0
  {
    if i > 0 {
      TotalAdd(g, l, s, b, i - 1);
    }
  }

  lemma {:induction false} TotalMono(g: Graph, l: Longs, s: set<nat>, t: set<nat>, i: nat)
    requires i <= |g| && s <= t
    ensures Total(g, l, s, i) <= Total(g, l, t, i)
  {
    if i > 0 {
      TotalMono(g, l, s, t, i - 1);
    }
  }

  lemma {:induction false} TotalEmpty(g: Graph, l: Longs, i: nat)
    requires i <= |g|
    ensures Total(g, l, {}, i) == 0
  {
    if i > 0 {
      TotalEmpty(g, l, i - 1);
    }
  }

  // ---------------------------------------------------- what a laid-out block is

  /** The displacement `d` stored at index `at` leads to `target`, directly or through
      one unconditional jump. */
  predicate Lands(code: seq<Insn>, at: nat, d: nat, target: nat)
  {
    || at + 1 + d == target
    || (at + 1 + d < |code| && code[at + 1 + d].Ja? && at + 1 + d + 1 + code[at + 1 + d].d == target)
  }

  predicate StmtsAt(code: seq<Insn>, o: nat, live: seq<Stmt>)
  {
    o + |live| <= |code| && forall i :: 0 <= i < |live| ==> code[o + i] == Do(live[i])
  }

  /** The instruction at `at` ends block `b`: it returns what the block returns, or branches
      strictly forward, with byte-sized displacements, to the block's successors. */
  predicate TermAt(g: Graph, code: seq<Insn>, offset: seq<nat>, b: nat, at: nat)
    requires WellFormed(g) && |offset| == |g| && b < |g|
  {
    && at < |code|
    && match g[b].s
       case Ret(useA, k) => code[at] == Return(useA, k)
       case Jump(op, useX, k, jt, jf) =>
         && at < offset[jt] && at < offset[jf]
         && code[at].Branch? && code[at].op == op && code[at].useX == useX && code[at].k == k
         && code[at].jt < 256 && code[at].jf < 256
         && Lands(code, at, code[at].jt, offset[jt])
         && Lands(code, at, code[at].jf, offset[jf])
  }

  /** Block `b` occupies the cells from its offset on: live statements, then its end. */
  predicate BlockAt(g: Graph, code: seq<Insn>, offset: seq<nat>, b: nat)
    requires WellFormed(g) && |offset| == |g| && b < |g|
  {
    var live := Live(g[b].stmts);
    StmtsAt(code, offset[b], live) && TermAt(g, code, offset, b, offset[b] + |live|)
  }

  predicate InRange(g: Graph, order: seq<nat>)
  {
    forall i :: 0 <= i < |order| ==> order[i] < |g|
  }

  /** The regions of `order` tile the cells `lo..hi`, the first block last. */
  predicate Tiles(g: Graph, l: Longs, offset: seq<nat>, order: seq<nat>, lo: nat, hi: nat)
    requires |offset| == |g| && InRange(g, order)
  {
    if |order| == 0 then lo == hi
    else
      var b := order[|order| - 1];
      offset[b] == lo && Tiles(g, l, offset, order[..|order| - 1], lo + Cells(g, l, b), hi)
  }

  lemma {:induction false} TilesFrame(g: Graph, l: Longs, offset: seq<nat>, offset': seq<nat>,
                                      order: seq<nat>, lo: nat, hi: nat)
    requires |offset| == |offset'| == |g| && InRange(g, order)
    requires forall i :: 0 <= i < |order| ==> offset[order[i]] == offset'[order[i]]
    requires Tiles(g, l, offset, order, lo, hi)
    ensures Tiles(g, l, offset', order, lo, hi)
  {
    if |order| > 0 {
      TilesFrame(g, l, offset, offset', order[..|order| - 1], lo + Cells(g, l, order[|order| - 1]), hi);
    }
  }

  lemma {:induction false} TilesSpan(g: Graph, l: Longs, offset: seq<nat>, order: seq<nat>, lo: nat, hi: nat)
    requires |offset| == |g| && InRange(g, order)
    requires Tiles(g, l, offset, order, lo, hi)
    ensures lo <= hi
  {
    if |order| > 0 {
      TilesSpan(g, l, offset, order[..|order| - 1], lo + Cells(g, l, order[|order| - 1]), hi);
    }
  }

  lemma {:induction false} TilesBounds(g: Graph, l: Longs, offset: seq<nat>, order: seq<nat>, lo: nat, hi: nat, b: nat)
    requires |offset| == |g| && InRange(g, order)
    requires Tiles(g, l, offset, order, lo, hi) && b in order
    ensures b < |g| && lo <= offset[b] && offset[b] + Cells(g, l, b) <= hi
  {
    var c := order[|order| - 1];
    TilesSpan(g, l, offset, order[..|order| - 1], lo + Cells(g, l, c), hi);
    if b != c {
      TilesBounds(g, l, offset, order[..|order| - 1], lo + Cells(g, l, c), hi, b);
    }
  }

  /** A block placed earlier lies wholly above one placed later, so jumps only go forward. */
  lemma {:induction false} TilesOrdered(g: Graph, l: Longs, offset: seq<nat>, order: seq<nat>, lo: nat, hi: nat, i: nat, j: nat)
    requires |offset| == |g| && InRange(g, order) && Tiles(g, l, offset, order, lo, hi) && i < j < |order|
    ensures offset[order[j]] + Cells(g, l, order[j]) <= offset[order[i]]
  {
    var init, c := order[..|order| - 1], order[|order| - 1];
    if j < |order| - 1 {
      TilesOrdered(g, l, offset, init, lo + Cells(g, l, c), hi, i, j);
    } else {
      assert init[i] == order[i];
      TilesBounds(g, l, offset, init, lo + Cells(g, l, c), hi, order[i]);
    }
  }

  predicate AllAt(g: Graph, code: seq<Insn>, offset: seq<nat>, order: seq<nat>)
    requires WellFormed(g) && |offset| == |g|
  {
    forall b {:trigger BlockAt(g, code, offset, b)} :: 0 <= b < |g| && b in order ==> BlockAt(g, code, offset, b)
  }

  /** A layout of the blocks of `order`: closed under edges, tiling the array from `lo` to
      its end, each block in place. */
  ghost predicate Placed(g: Graph, l: Longs, offset: seq<nat>, order: seq<nat>, lo: nat, code: seq<Insn>)
  {
    && WellFormed(g)
    && |offset| == |g|
    && InRange(g, order)
    && Distinct(order)
    && Closed(g, Elems(order))
    && Tiles(g, l, offset, order, lo, |code|)
    && AllAt(g, code, offset, order)
  }

  /** Exactly one long-jump flag was raised. */
  predicate Raised(g: Graph, l: Longs, l': Longs)
  {
    exists b :: 0 <= b < |g| &&
                ((b !in l.jt && l' == Longs(l.jt + {b}, l.jf)) || (b !in l.jf && l' == Longs(l.jt, l.jf + {b})))
  }

  predicate FlagsOk(g: Graph, l: Longs)
  {
    l.jt <= Below(|g|) && l.jf <= Below(|g|)
  }

  function Flags(l: Longs): nat
  {
    |l.jt| + |l.jf|
  }

  lemma FlagsBound(g: Graph, l: Longs)
    requires FlagsOk(g, l)
    ensures Flags(l) <= 2 * |g|
  {
    BelowBound(l.jt, |g|);
    BelowBound(l.jf, |g|);
  }

  /** There are two flags per block, so no more than that many attempts can fail. */
  lemma RaisedCounts(g: Graph, l: Longs, l': Longs)
    requires FlagsOk(g, l) && Raised(g, l, l')
    ensures FlagsOk(g, l') && Flags(l') == Flags(l) + 1 <= 2 * |g|
  {
    FlagsBound(g, l');
  }

  // ------------------------------------------------------------- meaning of code

  lemma {:induction false} RunStraight(code: seq<Insn>, pc: nat, ss: seq<Stmt>, r: Regs, p: Packet)
    requires StmtsAt(code, pc, ss)
    requires forall i :: 0 <= i < |ss| ==> ss[i].code != Nop
    ensures Run(code, pc, r, p) ==
            match ExecAll(ss, r, p)
            case Val(r') => Run(code, pc + |ss|, r', p)
            case Reject => Accept(0)
            case Undef => Undefined
    decreases |ss|
  {
    if |ss| > 0 {
      assert code[pc + 0] == Do(ss[0]);
      match Exec(ss[0], r, p)
      case Val(r') =>
        forall i | 0 <= i < |ss[1..]|
          ensures code[pc + 1 + i] == Do(ss[1..][i])
        {
          assert code[pc + (i + 1)] == Do(ss[i + 1]);
        }
        RunStraight(code, pc + 1, ss[1..], r', p);
      case Reject =>
      case Undef =>
    }
  }

  lemma ExecOne(s: Stmt, r: Regs, p: Packet)
    ensures ExecAll([s], r, p) == Exec(s, r, p)
  {
    match Exec(s, r, p)
    case Val(r') => assert ExecAll([s][1..], r', p) == Val(r');
    case Reject =>
    case Undef =>
  }

  lemma {:induction false} LiveRuns(ss: seq<Stmt>, r: Regs, p: Packet)
    ensures ExecAll(Live(ss), r, p) == ExecAll(ss, r, p)
    ensures forall i :: 0 <= i < |Live(ss)| ==> Live(ss)[i].code != Nop
  {
    if |ss| > 0 {
      var init, last := ss[..|ss| - 1], ss[|ss| - 1];
      assert ss == init + [last];
      LiveRuns(init, r, p);
      ExecAllAppend(init, [last], r, p);
      ExecAllAppend(Live(init), [last], r, p);
      match ExecAll(init, r, p)
      case Val(r') => ExecOne(last, r', p);
      case Reject =>
      case Undef =>
    }
  }

  /** Running the array from the first cell of any placed block gives the verdict of walking
      the graph from that block. */
  lemma {:induction false} PlacedMeans(g: Graph, l: Longs, offset: seq<nat>, order: seq<nat>,
                                       lo: nat, code: seq<Insn>, b: nat, r: Regs, p: Packet)
    requires Acyclic(g) && Placed(g, l, offset, order, lo, code) && b < |g| && b in order
    ensures Run(code, offset[b], r, p) == Walk(g, b, r, p)
    decreases RankOf(g)[b]
  {
    var live, o := Live(g[b].stmts), offset[b];
    assert BlockAt(g, code, offset, b);
    LiveRuns(g[b].stmts, r, p);
    RunStraight(code, o, live, r, p);
    match ExecAll(live, r, p)
    case Reject =>
    case Undef =>
    case Val(r') =>
      match g[b].s
      case Ret(useA, k) =>
      case Jump(op, useX, k, jt, jf) =>
        assert b in Elems(order);
        ClosedSucc(g, Elems(order), b);
        var next := if Holds(op, useX, k, r') then jt else jf;
        assert next in order;
        PlacedMeans(g, l, offset, order, lo, code, next, r', p);
  }

  lemma RootMeans(g: Graph, l: Longs, offset: seq<nat>, order: seq<nat>, code: seq<Insn>, root: nat)
    requires Acyclic(g) && Placed(g, l, offset, order, 0, code) && root < |g| && root in order && offset[root] == 0
    ensures forall r: Regs, p: Packet :: Run(code, 0, r, p) == Walk(g, root, r, p)
  {
    forall r: Regs, p: Packet
      ensures Run(code, 0, r, p) == Walk(g, root, r, p)
    {
      PlacedMeans(g, l, offset, order, 0, code, root, r, p);
    }
  }

  // ----------------------------------------------------------- growing a layout

  lemma BlockFrame(g: Graph, code: seq<Insn>, offset: seq<nat>, code': seq<Insn>, offset': seq<nat>, b: nat)
    requires WellFormed(g) && |offset| == |offset'| == |g| && b < |g|
    requires |code| == |code'| && offset'[b] == offset[b]
    requires g[b].s.Jump? ==> offset'[g[b].s.jt] == offset[g[b].s.jt] && offset'[g[b].s.jf] == offset[g[b].s.jf]
    requires forall i :: offset[b] <= i < |code| ==> code[i] == code'[i]
    requires BlockAt(g, code, offset, b)
    ensures BlockAt(g, code', offset', b)
  {
  }

  lemma ElemsSnoc(s: seq<nat>, x: nat)
    ensures Elems(s + [x]) == Elems(s) + {x}
  {
    forall y | y in Elems(s) + {x}
      ensures y in s + [x]
    {
      if y == x {
        assert (s + [x])[|s|] == x;
      }
    }
  }

  lemma AllAtGrows(g: Graph, l: Longs, offset: seq<nat>, order: seq<nat>, hi: nat, code: seq<Insn>,
                   offset': seq<nat>, code': seq<Insn>, p: nat)
    requires Placed(g, l, offset, order, hi, code)
    requires p < |g| && p !in order && |offset'| == |g|
    requires forall b :: 0 <= b < |g| && b != p ==> offset'[b] == offset[b]
    requires |code| == |code'| && forall i :: hi <= i < |code| ==> code[i] == code'[i]
    requires BlockAt(g, code', offset', p)
    ensures AllAt(g, code', offset', order + [p])
  {
    forall b | 0 <= b < |g| && b in order + [p]
      ensures BlockAt(g, code', offset', b)
    {
      if b != p {
        TilesBounds(g, l, offset, order, hi, |code|, b);
        assert b in Elems(order);
        if g[b].s.Jump? {
          ClosedSucc(g, Elems(order), b);
        }
        assert BlockAt(g, code, offset, b);
        BlockFrame(g, code, offset, code', offset', b);
      }
    }
  }

  lemma PlacedGrows(g: Graph, l: Longs, offset: seq<nat>, order: seq<nat>, hi: nat, code: seq<Insn>,
                    offset': seq<nat>, lo: nat, code': seq<Insn>, p: nat)
    requires Placed(g, l, offset, order, hi, code)
    requires p < |g| && p !in order && offset' == offset[p := lo] && hi == lo + Cells(g, l, p)
    requires g[p].s.Jump? ==> g[p].s.jt in order && g[p].s.jf in order
    requires |code| == |code'| && forall i :: hi <= i < |code| ==> code[i] == code'[i]
    requires BlockAt(g, code', offset', p)
    ensures Placed(g, l, offset', order + [p], lo, code')
  {
    AllAtGrows(g, l, offset, order, hi, code, offset', code', p);
    assert (order + [p])[..|order|] == order;
    TilesFrame(g, l, offset, offset', order, hi, |code|);
    ElemsSnoc(order, p);
  }

  lemma {:induction false} LivePrefix(ss: seq<Stmt>, i: nat)
    requires i <= |ss|
    ensures Live(ss[..i]) <= Live(ss)
    decreases |ss| - i
  {
    if i == |ss| {
      assert ss[..i] == ss;
    } else {
      LivePrefix(ss, i + 1);
      assert ss[..i + 1][..i] == ss[..i];
    }
  }

  // -------------------------------------------------------- the traversal's sets

  /** The blocks of `stack` all rank above `p`. */
  predicate Above(g: Graph, rank: seq<nat>, p: nat, stack: set<nat>)
    requires |rank| == |g| && p < |g|
  {
    forall b :: b in stack ==> b < |g| && rank[p] < rank[b]
  }

  lemma AboveSucc(g: Graph, rank: seq<nat>, p: nat, stack: set<nat>, stack': set<nat>)
    requires WellFormed(g) && Ranked(g, rank) && p < |g| && g[p].s.Jump?
    requires Above(g, rank, p, stack) && stack' <= stack + {p}
    ensures Above(g, rank, g[p].s.jt, stack') && Above(g, rank, g[p].s.jf, stack')
  {
  }

  /** Visiting `p` extended `order` to `order'` by blocks reachable from `p`, `p` last if new,
      and left the blocks still being visited as they were. */
  ghost predicate Visited(g: Graph, p: nat, order: seq<nat>, marked: set<nat>, order': seq<nat>, marked': set<nat>)
  {
    && order <= order'
    && p in order'
    && (p !in marked ==> order'[|order'| - 1] == p)
    && marked <= marked'
    && Elems(order') <= marked'
    && marked' - Elems(order') == marked - Elems(order)
    && OnlyFrom(g, p, order, order')
  }

  ghost predicate OnlyFrom(g: Graph, p: nat, order: seq<nat>, order': seq<nat>)
  {
    forall c: set<nat> :: p in c && Closed(g, c) ==> Elems(order') <= Elems(order) + c
  }

  lemma OnlyFromBoth(g: Graph, p: nat, o0: seq<nat>, o1: seq<nat>, o2: seq<nat>)
    requires p < |g| && g[p].s.Jump? && OnlyFrom(g, g[p].s.jf, o0, o1) && OnlyFrom(g, g[p].s.jt, o1, o2)
    ensures OnlyFrom(g, p, o0, o2)
  {
    forall c: set<nat> | p in c && Closed(g, c)
      ensures Elems(o2) <= Elems(o0) + c
    {
      ClosedSucc(g, c, p);
    }
  }

  lemma VisitedDone(g: Graph, p: nat, o0: seq<nat>, m0: set<nat>, o1: seq<nat>, m1: set<nat>)
    requires o0 <= o1 && p !in m0 && m0 + {p} <= m1 && Elems(o0) <= m0 && Elems(o1) <= m1
    requires m1 - Elems(o1) == m0 + {p} - Elems(o0) && OnlyFrom(g, p, o0, o1)
    ensures Visited(g, p, o0, m0, o1 + [p], m1)
    ensures Elems(o1 + [p]) == Elems(o1) + {p}
  {
    ElemsSnoc(o1, p);
    var e0, e1 := Elems(o0), Elems(o1);
    assert p in m1 - e1;
    assert m1 - (e1 + {p}) == m0 - e0 by {
      assert m1 - (e1 + {p}) == (m1 - e1) - {p};
    }
  }

  // ------------------------------------------------------------------ the emitter

  /** The number of statements that are not deleted. */
  method Slength(ss: seq<Stmt>) returns (n: nat)
    ensures n == |Live(ss)|
  {
    n := 0;
    for i := 0 to |ss|
      invariant n == |Live(ss[..i])|
    {
      assert ss[..i + 1][..i] == ss[..i];
      if ss[i].code != Nop {
        n := n + 1;
      }
    }
    assert ss[..|ss|] == ss;
  }

  class CodeGen {
    const g: Graph
    var long: Longs
    var marked: set<nat>
    var offset: seq<nat>
    var fp: array<Insn>
    var ftail: nat
    ghost var order: seq<nat>

    constructor (g: Graph)
      ensures this.g == g && long == Longs({}, {}) && |offset| == |g|
    {
      this.g := g;
      long, marked := Longs({}, {}), {};
      offset := seq(|g|, _ => 0);
      fp := new Insn[0];
      ftail, order := 0, [];
    }

    ghost predicate Ready()
      reads this, fp
    {
      Placed(g, long, offset, order, ftail, fp[..])
    }

    /** Counts the cells of the blocks reachable from `p` and not yet marked. */
    method CountStmts(p: nat, ghost rank: seq<nat>) returns (n: nat)
      requires WellFormed(g) && Ranked(g, rank) && p < |g|
      requires forall b :: b in marked ==> b < |g|
      modifies this`marked
      ensures old(marked) <= marked && p in marked && forall b :: b in marked ==> b < |g|
      ensures ClosedFrom(g, old(marked), marked) && OnlyBelow(g, p, old(marked), marked)
      ensures n + Total(g, long, old(marked), |g|) == Total(g, long, marked, |g|)
      decreases rank[p]
    {
      if p in marked {
        return 0;
      }
      TotalAdd(g, long, marked, p, |g|);
      marked := marked + {p};
      n := 0;
      if g[p].s.Jump? {
        var nt := CountStmts(g[p].s.jt, rank);
        ghost var mid := marked;
        var nf := CountStmts(g[p].s.jf, rank);
        OnlyBelowBoth(g, p, old(marked) + {p}, mid, marked);
        n := nt + nf;
      }
      var slen := Slength(g[p].stmts);
      n := slen + n + 1 + Flag(long.jt, p) + Flag(long.jf, p);
    }

    /** The straight-line part of a block, written at `dst`. */
    method EmitStmts(ss: seq<Stmt>, dst: nat)
      requires dst + |Live(ss)| <= fp.Length
      modifies fp
      ensures StmtsAt(fp[..], dst, Live(ss))
      ensures forall i :: 0 <= i < fp.Length && !(dst <= i < dst + |Live(ss)|) ==> fp[i] == old(fp[i])
    {
      var off := 0;
      for j := 0 to |ss|
        invariant off == |Live(ss[..j])| && Live(ss[..j]) <= Live(ss)
        invariant forall i :: 0 <= i < off ==> fp[dst + i] == Do(Live(ss[..j])[i])
        invariant forall i :: 0 <= i < fp.Length && !(dst <= i < dst + off) ==> fp[i] == old(fp[i])
      {
        assert ss[..j + 1][..j] == ss[..j];
        LivePrefix(ss, j + 1);
        if ss[j].code != Nop {
          fp[dst + off] := Do(ss[j]);
          off := off + 1;
        }
      }
      assert ss[..|ss|] == ss;
    }

    /** The end of block `p`, written at `at`, with the long jumps it needs in the cells after
        it.  Fails when a displacement does not fit and its flag was not yet up. */
    method EmitTerm(p: nat, at: nat) returns (ok: bool)
      requires WellFormed(g) && |offset| == |g| && p < |g|
      requires at + 1 + Flag(long.jt, p) + Flag(long.jf, p) <= fp.Length
      requires g[p].s.Jump? ==>
                 && at + 1 + Flag(long.jt, p) + Flag(long.jf, p) <= offset[g[p].s.jt]
                 && at + 1 + Flag(long.jt, p) + Flag(long.jf, p) <= offset[g[p].s.jf]
      modifies this`long, fp
      ensures ok ==> long == old(long) && TermAt(g, fp[..], offset, p, at)
      ensures ok ==> forall i :: 0 <= i < fp.Length && !(at <= i < at + 1 + Flag(long.jt, p) + Flag(long.jf, p)) ==>
                       fp[i] == old(fp[i])
      ensures !ok ==> Raised(g, old(long), long)
    {
      ok := true;
      match g[p].s {
        case Ret(useA, k) =>
          fp[at] := Return(useA, k);
        case Jump(op, useX, k, jt, jf) =>
          var extrajmps, bt, bf := 0, 0, 0;
          var off := offset[jt] - at - 1;
          if off >= 256 {
            if p !in long.jt {
              long := Longs(long.jt + {p}, long.jf);
              return false;
            }
            bt := extrajmps;
            extrajmps := extrajmps + 1;
            fp[at + extrajmps] := Ja(off - extrajmps);
          } else {
            bt := off;
          }
          off := offset[jf] - at - 1;
          if off >= 256 {
            if p !in long.jf {
              long := Longs(long.jt, long.jf + {p});
              return false;
            }
            bf := extrajmps;
            extrajmps := extrajmps + 1;
            fp[at + extrajmps] := Ja(off - extrajmps);
          } else {
            bf := off;
          }
          fp[at] := Branch(op, useX, k, bt % 256, bf % 256);
      }
    }

    /** Lays out block `p`, whose successors are all in place, just below them. */
    method EmitBlock(p: nat) returns (ok: bool)
      requires Ready() && p < |g| && p !in order
      requires g[p].s.Jump? ==> g[p].s.jt in order && g[p].s.jf in order
      requires Cells(g, long, p) <= ftail
      modifies this`long, this`offset, this`ftail, this`order, fp
      ensures |offset| == |g|
      ensures ok ==> Ready() && long == old(long) && order == old(order) + [p] && ftail == old(ftail) - Cells(g, long, p)
      ensures !ok ==> Raised(g, old(long), long)
    {
      ghost var code, hi, offset0 := fp[..], ftail, offset;
      TilesSpan(g, long, offset, order, ftail, fp.Length);
      if g[p].s.Jump? {
        TilesBounds(g, long, offset, order, ftail, fp.Length, g[p].s.jt);
        TilesBounds(g, long, offset, order, ftail, fp.Length, g[p].s.jf);
      }
      var slen := Slength(g[p].stmts);
      var dst := ftail - (slen + 1 + Flag(long.jt, p) + Flag(long.jf, p));
      ftail := dst;
      offset := offset[p := dst];
      EmitStmts(g[p].stmts, dst);
      ok := EmitTerm(p, dst + slen);
      if ok {
        order := order + [p];
        PlacedGrows(g, long, offset0, old(order), hi, code, offset, dst, fp[..], p);
      }
    }

    /** The depth-first conversion: false branch, true branch, then the block itself. */
    method ConvertCode(p: nat, ghost rank: seq<nat>, ghost reach: set<nat>) returns (ok: bool)
      requires Ready() && Ranked(g, rank) && p < |g|
      requires Elems(order) <= marked <= reach && p in reach && Closed(g, reach)
      requires Above(g, rank, p, marked - Elems(order))
      requires ftail + Total(g, long, Elems(order), |g|) == fp.Length == Total(g, long, reach, |g|)
      modifies this`marked, this`long, this`offset, this`ftail, this`order, fp
      ensures |offset| == |g|
      ensures !ok ==> Raised(g, old(long), long)
      ensures ok ==> Ready() && long == old(long) && ftail + Total(g, long, Elems(order), |g|) == fp.Length
      ensures ok ==> Visited(g, p, old(order), old(marked), order, marked) && marked <= reach
      decreases rank[p]
    {
      if p in marked {
        return true;
      }
      marked := marked + {p};
      if g[p].s.Jump? {
        AboveSucc(g, rank, p, old(marked) - Elems(order), marked - Elems(order));
        ClosedSucc(g, reach, p);
        ok := ConvertCode(g[p].s.jf, rank, reach);
        if !ok {
          return;
        }
        ghost var order1 := order;
        ok := ConvertCode(g[p].s.jt, rank, reach);
        if !ok {
          return;
        }
        OnlyFromBoth(g, p, old(order), order1, order);
      }
      ghost var order1 := order;
      TotalAdd(g, long, Elems(order1), p, |g|);
      TotalMono(g, long, Elems(order1) + {p}, reach, |g|);
      ok := EmitBlock(p);
      if ok {
        VisitedDone(g, p, old(order), old(marked), order1, marked);
      }
    }

    /** One attempt: count the cells, allocate them zeroed, convert. */
    method Attempt(root: nat) returns (ok: bool)
      requires Acyclic(g) && root < |g| && |offset| == |g|
      modifies this
      ensures |offset| == |g|
      ensures !ok && FlagsOk(g, old(long)) ==> FlagsOk(g, long) && Flags(long) == Flags(old(long)) + 1 <= 2 * |g|
      ensures ok ==> long == old(long) && Placed(g, long, offset, order, 0, fp[..]) && IsReach(g, root, Elems(order))
      ensures ok ==> order != [] && order[|order| - 1] == root && offset[root] == 0
    {
      ghost var rank := RankOf(g);
      marked := {};
      TotalEmpty(g, long, |g|);
      var n := CountStmts(root, rank);
      ghost var reach := marked;
      assert IsReach(g, root, reach);
      fp := new Insn[n](_ => ZERO_INSN);
      ftail, order := n, [];
      marked := {};
      assert Elems(order) == {};
      ok := ConvertCode(root, rank, reach);
      if ok {
        ReachUnique(g, root, reach, Elems(order));
      } else if FlagsOk(g, old(long)) {
        RaisedCounts(g, old(long), long);
      }
    }

    /** Converts until every displacement fits.  `retries` counts the failed attempts. */
    method IcodeToFcode(root: nat) returns (code: array<Insn>, ghost retries: nat)
      requires Acyclic(g) && root < |g| && |offset| == |g| && long == Longs({}, {})
      modifies this
      ensures forall r: Regs, p: Packet :: Run(code[..], 0, r, p) == Walk(g, root, r, p)
      ensures Placed(g, long, offset, order, 0, code[..]) && IsReach(g, root, Elems(order))
      ensures order != [] && order[|order| - 1] == root && offset[root] == 0
      ensures retries <= 2 * |g|
    {
      retries := 0;
      FlagsBound(g, long);
      var ok := Attempt(root);
      while !ok
        invariant |offset| == |g| && FlagsOk(g, long)
        invariant retries + (if ok then 0 else 1) == Flags(long) <= 2 * |g|
        invariant ok ==> Placed(g, long, offset, order, 0, fp[..]) && IsReach(g, root, Elems(order))
        invariant ok ==> order != [] && order[|order| - 1] == root && offset[root] == 0
        decreases 2 * |g| - Flags(long), !ok
      {
        retries := retries + 1;
        ok := Attempt(root);
      }
      code := fp;
      RootMeans(g, long, offset, order, code[..], root);
    }
  }
}
