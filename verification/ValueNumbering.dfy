/**
 Value numbering over the whole flow graph: blocks are visited from the root down, a
 block inherits the numbers on which all its predecessors agree, and its statements
 are symbolically executed, and rewritten, in turn.
 */
module ValueNumbering {
  import opened Bpf
  import opened FlowGraph
  import opened Linearize
  import opened Liveness
  import opened Passes
  import opened Sets
  import opened Values
  import opened ValueTable

  // ------------------------------------------------------------- lists, step by step

  /** The table only grows, by at most two, and still holds every number in use. */
  ghost predicate Grown(o: Opt, nodes: Nodes)
  {
    o.Opt? ==> WfNodes(o.nodes) && nodes <= o.nodes && InTable(o.nodes, o.val) && |o.nodes| <= |nodes| + 2
  }

  lemma DefineWf(s: Stmt, val: Vals, atom: nat, n: Node, nodes: Nodes, alter: bool)
    requires WfNodes(nodes) && InTable(nodes, val) && atom < N_ATOMS && WfNode(n, |nodes|)
    ensures Grown(Vstore(s, val, atom, Number(nodes, n), Enter(nodes, n), alter), nodes)
    ensures Grown(Opt(s, val[atom := Number(nodes, n)], Enter(nodes, n)), nodes)
  {
    EnterWf(nodes, n);
  }

  lemma MoveWf(s: Stmt, val: Vals, atom: nat, from: nat, nodes: Nodes, alter: bool)
    requires WfNodes(nodes) && InTable(nodes, val) && atom < N_ATOMS && from < N_ATOMS
    ensures Grown(Vstore(s, val, atom, val[from], nodes, alter), nodes)
  {
  }

  /** Shape of a step, whatever the statement reads. */
  lemma OptStmtWf(s: Stmt, val: Vals, nodes: Nodes, alter: bool)
    requires ValidStmt(s) && WfNodes(nodes) && InTable(nodes, val)
    ensures Grown(OptStmt(s, val, nodes, alter), nodes)
  {
    match s.code {
      case LdAbs(_) => DefineWf(s, val, A_ATOM, Node(s.code, s.k, 0), nodes, alter);
      case LdxMsh => DefineWf(s, val, X_ATOM, Node(s.code, s.k, 0), nodes, alter);
      case LdLen => DefineWf(s, val, A_ATOM, Node(s.code, 0, 0), nodes, alter);
      case LdImm => DefineWf(s, val, A_ATOM, Const(s.k), nodes, alter);
      case LdxImm => DefineWf(s, val, X_ATOM, Const(s.k), nodes, alter);
      case LdInd(_) => OptIndWf(s, val, nodes, alter);
      case Neg => OptNegWf(s, val, nodes, alter);
      case AluK(op) => OptAluKWf(s, op, val, nodes, alter);
      case AluX(op) => OptAluXWf(s, op, val, nodes, alter);
      case _ => OptMoveWf(s, val, nodes, alter);
    }
  }

  lemma OptMoveWf(s: Stmt, val: Vals, nodes: Nodes, alter: bool)
    requires ValidStmt(s) && WfNodes(nodes) && InTable(nodes, val)
    requires s.code in {Txa, Tax, LdMem, LdxMem, St, Stx, Nop, LdxLen}
    ensures Grown(OptStmt(s, val, nodes, alter), nodes)
  {
    match s.code {
      case Txa => MoveWf(s, val, A_ATOM, X_ATOM, nodes, alter);
      case Tax => MoveWf(s, val, X_ATOM, A_ATOM, nodes, alter);
      case St => MoveWf(s, val, s.k, A_ATOM, nodes, alter);
      case Stx => MoveWf(s, val, s.k, X_ATOM, nodes, alter);
      case LdMem =>
        var v := val[s.k];
        MoveWf(if alter && IsConst(nodes, v) then Stmt(LdImm, ConstVal(nodes, v)) else s, val, A_ATOM, s.k, nodes, alter);
      case LdxMem =>
        var v := val[s.k];
        MoveWf(if alter && IsConst(nodes, v) then Stmt(LdxImm, ConstVal(nodes, v)) else s, val, X_ATOM, s.k, nodes, alter);
      case _ =>
    }
  }

  lemma OptIndWf(s: Stmt, val: Vals, nodes: Nodes, alter: bool)
    requires s.code.LdInd? && WfNodes(nodes) && InTable(nodes, val)
    ensures Grown(OptStmt(s, val, nodes, alter), nodes)
  {
    if alter && IsConst(nodes, val[X_ATOM]) {
      var k := Plus(ConstVal(nodes, val[X_ATOM]), s.k);
      DefineWf(Stmt(LdAbs(s.code.size), k), val, A_ATOM, Node(LdAbs(s.code.size), k, 0), nodes, alter);
    } else {
      DefineWf(s, val, A_ATOM, Node(s.code, s.k, val[X_ATOM]), nodes, alter);
    }
  }

  lemma OptNegWf(s: Stmt, val: Vals, nodes: Nodes, alter: bool)
    requires s.code == Neg && WfNodes(nodes) && InTable(nodes, val)
    ensures Grown(OptStmt(s, val, nodes, alter), nodes)
  {
    if alter && IsConst(nodes, val[A_ATOM]) {
      var k := Negate(ConstVal(nodes, val[A_ATOM]));
      DefineWf(Stmt(LdImm, k), val, A_ATOM, Const(k), nodes, alter);
    } else {
      DefineWf(s, val, A_ATOM, Node(Neg, val[A_ATOM], 0), nodes, alter);
    }
  }

  lemma FoldWf(s: Stmt, val: Vals, op: AluOp, a: Word, b: Word, nodes: Nodes)
    requires WfNodes(nodes) && InTable(nodes, val)
    ensures var o := Fold(s, val, op, a, b, nodes);
            o.Opt? ==> WfNodes(o.nodes) && nodes <= o.nodes && InTable(o.nodes, o.val) && |o.nodes| <= |nodes| + 1
  {
    match Alu(op, false, a, b)
    case Val(c) => EnterWf(nodes, Const(c));
    case Reject =>
    case Undef =>
  }

  lemma NodeWf(s: Stmt, val: Vals, n: Node, nodes: Nodes, nodes1: Nodes)
    requires WfNodes(nodes1) && nodes <= nodes1 && |nodes1| <= |nodes| + 1 && InTable(nodes, val) && WfNode(n, |nodes1|)
    ensures Grown(Opt(s, val[A_ATOM := Number(nodes1, n)], Enter(nodes1, n)), nodes)
  {
    EnterWf(nodes1, n);
  }

  lemma OptAluKWf(s: Stmt, op: AluOp, val: Vals, nodes: Nodes, alter: bool)
    requires WfNodes(nodes) && InTable(nodes, val)
    ensures Grown(OptAluK(s, op, val, nodes, alter), nodes)
  {
    if alter && s.k == 0 && (op == Add || op == Lsh || op == Rsh || op == BitOr) {
    } else if alter && s.k == 0 && (op == Mul || op == BitAnd) {
      DefineWf(Stmt(LdImm, 0), val, A_ATOM, Const(0), nodes, alter);
    } else {
      EnterWf(nodes, Const(s.k));
      var nodes1, kn := Enter(nodes, Const(s.k)), Number(nodes, Const(s.k));
      if alter && IsConst(nodes, val[A_ATOM]) {
        FoldWf(s, val, op, ConstVal(nodes, val[A_ATOM]), s.k, nodes1);
      } else {
        NodeWf(Stmt(AluK(op), s.k), val, Node(AluK(op), val[A_ATOM], kn), nodes, nodes1);
      }
    }
  }

  lemma OptAluXWf(s: Stmt, op: AluOp, val: Vals, nodes: Nodes, alter: bool)
    requires WfNodes(nodes) && InTable(nodes, val)
    ensures Grown(OptAluX(s, op, val, nodes, alter), nodes)
  {
    var va, vx := val[A_ATOM], val[X_ATOM];
    if alter && IsConst(nodes, vx) {
      OptAluXConstWf(s, op, val, nodes);
    } else if alter && IsConst(nodes, va) && ConstVal(nodes, va) == 0 && (op == Add || op == BitOr) {
      MoveWf(s.(code := Txa), val, A_ATOM, X_ATOM, nodes, alter);
    } else if alter && IsConst(nodes, va) && ConstVal(nodes, va) == 0 && op != Sub {
      DefineWf(Stmt(LdImm, 0), val, A_ATOM, Const(0), nodes, alter);
    } else {
      NodeWf(s, val, Node(AluX(op), va, vx), nodes, nodes);
    }
  }

  lemma OptAluXConstWf(s: Stmt, op: AluOp, val: Vals, nodes: Nodes)
    requires WfNodes(nodes) && InTable(nodes, val) && IsConst(nodes, val[X_ATOM])
    ensures Grown(OptAluX(s, op, val, nodes, true), nodes)
  {
    var va, c := val[A_ATOM], ConstVal(nodes, val[X_ATOM]);
    if IsConst(nodes, va) {
      FoldWf(s, val, op, ConstVal(nodes, va), c, nodes);
    } else {
      EnterWf(nodes, Const(c));
      NodeWf(Stmt(AluK(op), c), val, Node(AluK(op), va, Number(nodes, Const(c))), nodes, Enter(nodes, Const(c)));
    }
  }

  lemma {:induction false} OptStmtsSnoc(ss: seq<Stmt>, s: Stmt, val: Vals, nodes: Nodes, alter: bool)
    requires ValidStmts(ss) && ValidStmt(s)
    ensures OptStmts(ss + [s], val, nodes, alter) ==
            match OptStmts(ss, val, nodes, alter)
            case Stopped => Stopped
            case Done(t, val1, nodes1) =>
              match OptStmt(s, val1, nodes1, alter)
              case Abandon => Stopped
              case Opt(s', val2, nodes2) => Done(t + [s'], val2, nodes2)
  {
    if |ss| == 0 {
      assert ss + [s] == [s] && [s][1..] == [];
      match OptStmt(s, val, nodes, alter)
      case Abandon =>
      case Opt(s', val1, nodes1) => assert OptStmts([s][1..], val1, nodes1, alter) == Done([], val1, nodes1);
    } else {
      assert (ss + [s])[1..] == ss[1..] + [s];
      match OptStmt(ss[0], val, nodes, alter)
      case Abandon =>
      case Opt(s1, val1, nodes1) => OptStmtsSnoc(ss[1..], s, val1, nodes1, alter);
    }
  }

  lemma OptNothing(val: Vals, nodes: Nodes, alter: bool)
    ensures OptStmts([], val, nodes, alter) == Done([], val, nodes)
  {
  }

  lemma OptNop(s: Stmt, val: Vals, nodes: Nodes, alter: bool)
    requires ValidStmt(s)
    ensures s.code == Nop ==> OptStmt(s, val, nodes, alter) == Opt(s, val, nodes)
  {
  }

  /** The statement loop of a block.  `spent` bounds the numbers given out before. */
  method OptBlkStmts(t: Table, ss: seq<Stmt>, entry: Vals, alter: bool, ghost spent: nat)
    returns (ok: bool, ss': seq<Stmt>, exit: Vals)
    requires t.Valid() && ValidStmts(ss) && InTable(t.nodes, entry)
    requires |t.nodes| <= spent && spent + 2 * |Live(ss)| < |t.vmap|
    modifies t
    ensures t.Valid() && |t.vmap| == old(|t.vmap|)
    ensures OptStmts(ss, entry, old(t.nodes), alter) == if ok then Done(ss', exit, t.nodes) else Stopped
    ensures ok ==> old(t.nodes) <= t.nodes && InTable(t.nodes, exit) && |t.nodes| <= spent + 2 * |Live(ss)|
  {
    hide OptStmt, OptStmts;
    ss', exit, ok := [], entry, true;
    OptNothing(entry, t.nodes, alter);
    assert ss[..0] == [];
    for i := 0 to |ss|
      invariant t.Valid() && |t.vmap| == old(|t.vmap|) && InTable(t.nodes, exit)
      invariant OptStmts(ss[..i], entry, old(t.nodes), alter) == Done(ss', exit, t.nodes)
      invariant old(t.nodes) <= t.nodes && |t.nodes| <= spent + 2 * |Live(ss[..i])|
    {
      assert ss[..i + 1] == ss[..i] + [ss[i]] && ss[..i + 1][..i] == ss[..i];
      LivePrefix(ss, i + 1);
      OptStmtsSnoc(ss[..i], ss[i], entry, old(t.nodes), alter);
      ghost var val0, nodes0 := exit, t.nodes;
      var s': Stmt;
      ok, s', exit := OptStmtM(t, ss[i], exit, alter);
      if !ok {
        StoppedEarly(ss, i + 1, entry, old(t.nodes), alter);
        return;
      }
      OptStmtWf(ss[i], val0, nodes0, alter);
      OptNop(ss[i], val0, nodes0, alter);
      ss' := ss' + [s'];
    }
    assert ss[..|ss|] == ss;
  }

  lemma {:induction false} StoppedEarly(ss: seq<Stmt>, i: nat, val: Vals, nodes: Nodes, alter: bool)
    requires ValidStmts(ss) && i <= |ss| && OptStmts(ss[..i], val, nodes, alter) == Stopped
    ensures OptStmts(ss, val, nodes, alter) == Stopped
    decreases |ss| - i
  {
    if i == |ss| {
      assert ss[..i] == ss;
    } else {
      assert ss[..i + 1] == ss[..i] + [ss[i]];
      OptStmtsSnoc(ss[..i], ss[i], val, nodes, alter);
      StoppedEarly(ss, i + 1, val, nodes, alter);
    }
  }

  // ------------------------------------------------------------------ entry values

  /** For every register: a number all predecessors agree on, or unknown. */
  predicate Merged(entry: Vals, exits: seq<Vals>)
  {
    forall x :: 0 <= x < N_ATOMS ==>
      entry[x] == if |exits| > 0 && (forall i :: 0 <= i < |exits| ==> exits[i][x] == exits[0][x]) then exits[0][x] else 0
  }

  method MergeEntry(exits: seq<Vals>) returns (entry: Vals)
    ensures Merged(entry, exits)
  {
    if |exits| == 0 {
      return UNKNOWN;
    }
    entry := exits[0];
    assert exits[..1] == [exits[0]];
    for i := 1 to |exits|
      invariant Merged(entry, exits[..i])
    {
      entry := MergeOne(entry, exits[..i], exits[i]);
      assert exits[..i + 1] == exits[..i] + [exits[i]];
    }
    assert exits[..|exits|] == exits;
  }

  method MergeOne(entry: Vals, ghost exits: seq<Vals>, exit: Vals) returns (entry': Vals)
    requires |exits| > 0 && Merged(entry, exits)
    ensures Merged(entry', exits + [exit])
  {
    entry' := entry;
    for x := 0 to N_ATOMS
      invariant forall y :: 0 <= y < x ==> entry'[y] == if entry[y] == exit[y] then entry[y] else 0
      invariant forall y :: x <= y < N_ATOMS ==> entry'[y] == entry[y]
    {
      if entry'[x] != exit[x] {
        entry' := entry'[x := 0];
      }
    }
    MergedOne(entry, exits, exit, entry');
  }

  lemma MergedOne(entry: Vals, exits: seq<Vals>, exit: Vals, entry': Vals)
    requires |exits| > 0 && Merged(entry, exits)
    requires forall y :: 0 <= y < N_ATOMS ==> entry'[y] == if entry[y] == exit[y] then entry[y] else 0
    ensures Merged(entry', exits + [exit])
  {
    var all := exits + [exit];
    forall x | 0 <= x < N_ATOMS
      ensures entry'[x] == if (forall i :: 0 <= i < |all| ==> all[i][x] == all[0][x]) then all[0][x] else 0
    {
      assert all[|exits|] == exit;
      if forall i :: 0 <= i < |exits| ==> exits[i][x] == exits[0][x] {
        assert entry[x] == exits[0][x];
      } else {
        var i :| 0 <= i < |exits| && exits[i][x] != exits[0][x];
        assert all[i][x] != all[0][x];
      }
    }
  }

  /** A known number on entry is the number on exit of the predecessor. */
  predicate Inherits(entry: Vals, exit: Vals)
  {
    forall x :: 0 <= x < N_ATOMS && entry[x] != 0 ==> exit[x] == entry[x]
  }

  lemma MergedInherits(entry: Vals, exits: seq<Vals>, i: nat)
    requires Merged(entry, exits) && i < |exits|
    ensures Inherits(entry, exits[i])
  {
  }

  // -------------------------------------------------------------- predecessor lists

  ghost predicate InEdges(g: Graph, from: set<nat>, inEdges: seq<seq<nat>>)
  {
    && |inEdges| == |g|
    && forall a: nat, b: nat :: b < |g| ==> (a in inEdges[b] <==> a in from && Edge(g, a, b))
  }

  method LinkInedges(g: Graph, ghost from: set<nat>, inEdges: seq<seq<nat>>, b: nat) returns (inEdges': seq<seq<nat>>)
    requires WellFormed(g) && InEdges(g, from, inEdges) && b < |g| && g[b].s.Jump?
    ensures InEdges(g, from + {b}, inEdges')
  {
    var jt, jf := g[b].s.jt, g[b].s.jf;
    inEdges' := inEdges[jt := [b] + inEdges[jt]];
    inEdges' := inEdges'[jf := [b] + inEdges'[jf]];
    forall a: nat, c: nat | c < |g|
      ensures a in inEdges'[c] <==> a in from + {b} && Edge(g, a, c)
    {
      assert a in inEdges'[c] <==> a in inEdges[c] || (a == b && (c == jt || c == jf));
    }
  }

  /** Collects the edges of all live blocks that are not leaves. */
  method FindInedges(g: Graph, root: nat, ghost placed: set<nat>, level: seq<nat>, lists: seq<seq<nat>>)
    returns (inEdges: seq<seq<nat>>)
    requires Sweepable(g, root, placed, level, lists)
    ensures InEdges(g, placed, inEdges)
  {
    inEdges := seq(|g|, _ => []);
    LevelsTop(g, root, placed);
    for i := level[root] + 1 downto 1
      invariant InEdges(g, AtLeast(g, placed, i), inEdges)
    {
      inEdges := InedgesOfLevel(g, root, placed, level, lists, inEdges, i);
    }
    InEdgesAll(g, placed, inEdges);
  }

  lemma InEdgesAll(g: Graph, placed: set<nat>, inEdges: seq<seq<nat>>)
    requires Acyclic(g) && (forall b :: b in placed ==> b < |g|) && InEdges(g, AtLeast(g, placed, 1), inEdges)
    ensures InEdges(g, placed, inEdges)
  {
    forall a: nat, b: nat | b < |g|
      ensures a in inEdges[b] <==> a in placed && Edge(g, a, b)
    {
      assert a in inEdges[b] <==> a in AtLeast(g, placed, 1) && Edge(g, a, b);
    }
  }

  method InedgesOfLevel(g: Graph, root: nat, ghost placed: set<nat>, level: seq<nat>, lists: seq<seq<nat>>,
                        inEdges: seq<seq<nat>>, i: nat)
    returns (inEdges': seq<seq<nat>>)
    requires Sweepable(g, root, placed, level, lists) && 1 <= i < |g| && InEdges(g, AtLeast(g, placed, i + 1), inEdges)
    ensures InEdges(g, AtLeast(g, placed, i), inEdges')
  {
    inEdges' := inEdges;
    assert Seen(g, placed, lists, i, 0) == AtLeast(g, placed, i + 1);
    for j := 0 to |lists[i]|
      invariant InEdges(g, Seen(g, placed, lists, i, j), inEdges')
    {
      SuccFinal(g, placed, level, lists, i, j);
      SeenStep(g, placed, lists, i, j);
      inEdges' := LinkInedges(g, Seen(g, placed, lists, i, j), inEdges', lists[i][j]);
    }
    SeenEnd(g, placed, level, lists, i);
  }

  // --------------------------------------------------------------- the size bound

  /** Statements and branches of the blocks numbered below `i`: what the table is sized for. */
  function CountAll(g: Graph, i: nat): nat
    requires i <= |g|
  {
    if i == 0 then 0 else CountAll(g, i - 1) + |Live(g[i - 1].stmts)| + 1
  }

  /** At most two numbers a statement and one a branch, over the blocks of `s` below `i`. */
  function Budget(g: Graph, s: set<nat>, i: nat): nat
    requires i <= |g|
  {
    if i == 0 then 0 else Budget(g, s, i - 1) + (if i - 1 in s then 2 * |Live(g[i - 1].stmts)| + 1 else 0)
  }

  lemma {:induction false} BudgetAdd(g: Graph, s: set<nat>, b: nat, i: nat)
    requires b < |g| && b !in s && i <= |g|
    ensures Budget(g, s + {b}, i) == Budget(g, s, i) + if b < i then 2 * |Live(g[b].stmts)| + 1 else 0
  {
    if i > 0 {
      BudgetAdd(g, s, b, i - 1);
    }
  }

  lemma {:induction false} BudgetBound(g: Graph, s: set<nat>, i: nat)
    requires i <= |g|
    ensures Budget(g, s, i) + i <= 2 * CountAll(g, i)
    ensures CountAll(g, i) >= i
  {
    if i > 0 {
      BudgetBound(g, s, i - 1);
    }
  }

  lemma BudgetFits(g: Graph, s: set<nat>, b: nat)
    requires b < |g| && b !in s
    ensures Budget(g, s, |g|) + 2 * |Live(g[b].stmts)| + 1 == Budget(g, s + {b}, |g|) < 3 * CountAll(g, |g|)
  {
    BudgetAdd(g, s, b, |g|);
    BudgetBound(g, s + {b}, |g|);
  }

  // ------------------------------------------------------------ the pass as a whole

  /** What a visit to a block leaves: its numbers on entry, the table then, its statements, its
      numbers on exit, the table after. */
  datatype Info = Info(entry: Vals, nodes0: Nodes, stmts: seq<Stmt>, exit: Vals, nodes1: Nodes)

  ghost predicate InfoOk(b: Block, info: Info, alter: bool)
  {
    && ValidStmts(b.stmts)
    && WfNodes(info.nodes0) && InTable(info.nodes0, info.entry)
    && OptStmts(b.stmts, info.entry, info.nodes0, alter) == Done(info.stmts, info.exit, info.nodes1)
    && info.nodes0 <= info.nodes1 && InTable(info.nodes1, info.exit)
  }

  predicate NothingKnown(val: Vals)
  {
    forall x :: 0 <= x < N_ATOMS ==> val[x] == 0
  }

  /** All live predecessors of `b` leave number `v` for register `x`. */
  ghost predicate Agreed(g: Graph, placed: set<nat>, infos: seq<Info>, b: nat, x: nat, v: nat)
    requires x < N_ATOMS
  {
    forall a: nat {:trigger Edge(g, a, b)} :: a in placed && Edge(g, a, b) && a < |infos| ==> infos[a].exit[x] == v
  }

  /** A number on which all live predecessors agree is taken over. */
  ghost predicate MergedFrom(g: Graph, placed: set<nat>, infos: seq<Info>, b: nat, entry: Vals)
  {
    forall a: nat, x: nat {:trigger Edge(g, a, b), entry[x]} ::
      a in placed && Edge(g, a, b) && a < |infos| && x < N_ATOMS && Agreed(g, placed, infos, b, x, infos[a].exit[x]) ==>
        entry[x] == infos[a].exit[x]
  }

  /** The blocks of `seen` were visited after all their predecessors and inherit exactly what these
      agree on; `nodes` extends every table met on the way. */
  ghost predicate PassOk(g: Graph, root: nat, placed: set<nat>, seen: set<nat>, infos: seq<Info>, nodes: Nodes, alter: bool)
  {
    && |infos| == |g|
    && (forall b :: b in seen ==> b < |g| && InfoOk(g[b], infos[b], alter) && infos[b].nodes1 <= nodes)
    && (root in seen ==> NothingKnown(infos[root].entry))
    && (forall a: nat, b: nat {:trigger Edge(g, a, b)} ::
          a in placed && b in seen && Edge(g, a, b) ==> a in seen && Inherits(infos[b].entry, infos[a].exit))
    && (forall b :: b in seen ==> MergedFrom(g, placed, infos, b, infos[b].entry))
  }

  lemma PassAdd(g: Graph, root: nat, placed: set<nat>, seen: set<nat>, infos: seq<Info>, nodes: Nodes, alter: bool,
                b: nat, info: Info, nodes': Nodes)
    requires PassOk(g, root, placed, seen, infos, nodes, alter) && BlockNext(g, placed, seen, b)
    requires InfoOk(g[b], info, alter) && nodes <= nodes' && info.nodes1 <= nodes'
    requires b == root ==> NothingKnown(info.entry)
    requires forall a: nat :: a in placed && Edge(g, a, b) ==> a in seen && Inherits(info.entry, infos[a].exit)
    requires MergedFrom(g, placed, infos, b, info.entry)
    ensures PassOk(g, root, placed, seen + {b}, infos[b := info], nodes', alter)
  {
    hide InfoOk, Inherits;
    forall c | c in seen + {b}
      ensures MergedFrom(g, placed, infos[b := info], c, infos[b := info][c].entry)
    {
      MergedKept(g, placed, seen, infos, b, info, c, infos[b := info][c].entry);
    }
  }

  /** A visited block has no unvisited predecessor, so its merge is not affected by the next visit. */
  lemma MergedKept(g: Graph, placed: set<nat>, seen: set<nat>, infos: seq<Info>, b: nat, info: Info, c: nat, entry: Vals)
    requires b < |infos| && MergedFrom(g, placed, infos, c, entry)
    requires !Edge(g, b, c)
    ensures MergedFrom(g, placed, infos[b := info], c, entry)
  {
    forall a: nat, x: nat | a in placed && Edge(g, a, c) && a < |infos| && x < N_ATOMS
                            && Agreed(g, placed, infos[b := info], c, x, infos[b := info][a].exit[x])
      ensures entry[x] == infos[b := info][a].exit[x]
    {
      assert Agreed(g, placed, infos, c, x, infos[a].exit[x]);
    }
  }

  /** `h` is `g` with the statements of the visited blocks replaced. */
  ghost predicate Rewritten(g: Graph, h: Graph, seen: set<nat>, infos: seq<Info>)
    requires |infos| == |g|
  {
    && |h| == |g|
    && forall b :: 0 <= b < |g| ==> h[b] == if b in seen then Block(infos[b].stmts, g[b].s) else g[b]
  }

  predicate ValsOk(seen: set<nat>, vals: seq<Vals>, infos: seq<Info>)
  {
    |vals| == |infos| && forall b :: b in seen && b < |vals| ==> vals[b] == infos[b].exit
  }

  method Gather(preds: seq<nat>, vals: seq<Vals>) returns (exits: seq<Vals>)
    requires forall i :: 0 <= i < |preds| ==> preds[i] < |vals|
    ensures |exits| == |preds| && forall i :: 0 <= i < |preds| ==> exits[i] == vals[preds[i]]
  {
    exits := seq(|preds|, i requires 0 <= i < |preds| => vals[preds[i]]);
  }

  /** Entry merge: inherits from every predecessor, or knows nothing at the root. */
  method EntryOf(g: Graph, root: nat, ghost placed: set<nat>, ghost seen: set<nat>, inEdges: seq<seq<nat>>,
                 vals: seq<Vals>, ghost infos: seq<Info>, b: nat, ghost nodes: Nodes)
    returns (entry: Vals)
    requires InEdges(g, placed, inEdges) && BlockNext(g, placed, seen, b) && |vals| == |g| && |infos| == |g|
    requires ValsOk(seen, vals, infos) && forall a :: a in seen ==> a < |g| && InTable(nodes, infos[a].exit)
    ensures forall a: nat :: a in placed && Edge(g, a, b) ==> a in seen && Inherits(entry, infos[a].exit)
    ensures MergedFrom(g, placed, infos, b, entry)
    ensures InTable(nodes, entry)
    ensures (forall a: nat :: a in placed ==> !Edge(g, a, b)) ==> NothingKnown(entry)
  {
    var preds := inEdges[b];
    forall i | 0 <= i < |preds|
      ensures preds[i] in seen && preds[i] < |vals| && preds[i] in placed && Edge(g, preds[i], b)
    {
      assert preds[i] in inEdges[b];
    }
    var exits := Gather(preds, vals);
    entry := MergeEntry(exits);
    forall a: nat | a in placed && Edge(g, a, b)
      ensures a in seen && Inherits(entry, infos[a].exit)
    {
      assert a in inEdges[b];
      var i :| 0 <= i < |preds| && preds[i] == a;
      MergedInherits(entry, exits, i);
    }
    MergedExact(g, placed, infos, b, preds, exits, entry);
  }

  lemma MergedExact(g: Graph, placed: set<nat>, infos: seq<Info>, b: nat, preds: seq<nat>, exits: seq<Vals>, entry: Vals)
    requires Merged(entry, exits) && |exits| == |preds|
    requires forall i :: 0 <= i < |preds| ==> preds[i] in placed && Edge(g, preds[i], b) && preds[i] < |infos| && exits[i] == infos[preds[i]].exit
    requires forall a: nat :: a in placed && Edge(g, a, b) ==> a in preds
    ensures MergedFrom(g, placed, infos, b, entry)
  {
    forall a: nat, x: nat | a in placed && Edge(g, a, b) && a < |infos| && x < N_ATOMS && Agreed(g, placed, infos, b, x, infos[a].exit[x])
      ensures entry[x] == infos[a].exit[x]
    {
      forall i | 0 <= i < |exits|
        ensures exits[i][x] == infos[a].exit[x]
      {
        assert Edge(g, preds[i], b);
      }
      assert a in preds;
    }
  }

  ghost predicate PassState(g: Graph, root: nat, placed: set<nat>, seen: set<nat>, h: Graph, vals: seq<Vals>,
                            infos: seq<Info>, nodes: Nodes, alter: bool)
  {
    && PassOk(g, root, placed, seen, infos, nodes, alter)
    && Rewritten(g, h, seen, infos)
    && ValsOk(seen, vals, infos)
    && |nodes| <= Budget(g, seen, |g|)
  }

  lemma ExitsInTable(g: Graph, root: nat, placed: set<nat>, seen: set<nat>, infos: seq<Info>, nodes: Nodes, alter: bool)
    requires PassOk(g, root, placed, seen, infos, nodes, alter)
    ensures forall a :: a in seen ==> a < |g| && InTable(nodes, infos[a].exit)
  {
  }

  /** The constant, if any, a block's branch compares with gets a number too. */
  method NumberBranch(t: Table, s: Term, exit: Vals) returns (oval: nat)
    requires t.Valid() && |t.nodes| + 1 < |t.vmap|
    modifies t
    ensures t.Valid() && |t.vmap| == old(|t.vmap|) && old(t.nodes) <= t.nodes && |t.nodes| <= old(|t.nodes|) + 1
    ensures oval == if s.Jump? && s.useX then exit[X_ATOM] else Number(old(t.nodes), Const(s.k))
  {
    if s.Jump? && s.useX {
      oval := exit[X_ATOM];
    } else {
      EnterWf(t.nodes, Const(s.k));
      oval := t.K(s.k);
    }
  }

  /** Block `b` is next, and numbering it from what its predecessors agree on meets a division by the
      constant zero. */
  ghost predicate StopsAt(g: Graph, root: nat, placed: set<nat>, seen: set<nat>, infos: seq<Info>, nodes: Nodes, alter: bool,
                          b: nat, entry: Vals)
    requires ValidGraph(g)
  {
    && PassOk(g, root, placed, seen, infos, nodes, alter) && BlockNext(g, placed, seen, b)
    && (forall a: nat :: a in placed && Edge(g, a, b) ==> Inherits(entry, infos[a].exit))
    && MergedFrom(g, placed, infos, b, entry)
    && OptStmts(g[b].stmts, entry, nodes, alter) == Stopped
  }

  ghost predicate Stops(g: Graph, root: nat, placed: set<nat>, alter: bool)
    requires ValidGraph(g)
  {
    exists seen, infos, nodes, b, entry :: StopsAt(g, root, placed, seen, infos, nodes, alter, b, entry)
  }

  method VisitBlock(t: Table, g: Graph, root: nat, ghost placed: set<nat>, ghost seen: set<nat>, inEdges: seq<seq<nat>>,
                    h: Graph, vals: seq<Vals>, ghost infos: seq<Info>, b: nat, alter: bool)
    returns (ok: bool, h': Graph, vals': seq<Vals>, ghost infos': seq<Info>)
    requires t.Valid() && |t.vmap| >= 3 * CountAll(g, |g|) && ValidGraph(g)
    requires InEdges(g, placed, inEdges) && BlockNext(g, placed, seen, b)
    requires b == root ==> forall a: nat :: a in placed ==> !Edge(g, a, b)
    requires PassState(g, root, placed, seen, h, vals, infos, t.nodes, alter)
    modifies t
    ensures t.Valid() && |t.vmap| == old(|t.vmap|)
    ensures ok ==> PassState(g, root, placed, seen + {b}, h', vals', infos', t.nodes, alter)
    ensures !ok ==> Stops(g, root, placed, alter)
  {
    hide OptStmts, MergedFrom, Inherits, InEdges, InTable, Edge;
    ExitsInTable(g, root, placed, seen, infos, t.nodes, alter);
    var entry := EntryOf(g, root, placed, seen, inEdges, vals, infos, b, t.nodes);
    BudgetFits(g, seen, b);
    ghost var nodes0 := t.nodes;
    var stmts, exit;
    ok, stmts, exit := OptBlkStmts(t, g[b].stmts, entry, alter, Budget(g, seen, |g|));
    if !ok {
      h', vals', infos' := h, vals, infos;
      assert StopsAt(g, root, placed, seen, infos, nodes0, alter, b, entry);
      return;
    }
    ghost var info := Info(entry, nodes0, stmts, exit, t.nodes);
    var oval := NumberBranch(t, g[b].s, exit);
    PassAdd(g, root, placed, seen, infos, nodes0, alter, b, info, t.nodes);
    h' := h[b := Block(stmts, h[b].s)];
    vals' := vals[b := exit];
    infos' := infos[b := info];
  }

  /** All blocks of one level. */
  method SweepBlocks(t: Table, g: Graph, root: nat, ghost placed: set<nat>, level: seq<nat>, lists: seq<seq<nat>>,
                     inEdges: seq<seq<nat>>, h: Graph, vals: seq<Vals>, ghost infos: seq<Info>, i: nat, alter: bool)
    returns (ok: bool, h': Graph, vals': seq<Vals>, ghost infos': seq<Info>)
    requires t.Valid() && |t.vmap| >= 3 * CountAll(g, |g|) && ValidGraph(g)
    requires Sweepable(g, root, placed, level, lists) && InEdges(g, placed, inEdges) && i < |g|
    requires PassState(g, root, placed, AtLeast(g, placed, i + 1), h, vals, infos, t.nodes, alter)
    modifies t
    ensures t.Valid() && |t.vmap| == old(|t.vmap|)
    ensures ok ==> PassState(g, root, placed, AtLeast(g, placed, i), h', vals', infos', t.nodes, alter)
    ensures !ok ==> Stops(g, root, placed, alter)
  {
    hide Stops;
    ok, h', vals', infos' := true, h, vals, infos;
    RootHighest(g, root, placed);
    assert Seen(g, placed, lists, i, 0) == AtLeast(g, placed, i + 1);
    for j := 0 to |lists[i]|
      invariant t.Valid() && |t.vmap| == old(|t.vmap|)
      invariant PassState(g, root, placed, Seen(g, placed, lists, i, j), h', vals', infos', t.nodes, alter)
    {
      SeenBlock(g, placed, level, lists, i, j);
      SeenStep(g, placed, lists, i, j);
      ok, h', vals', infos' := VisitBlock(t, g, root, placed, Seen(g, placed, lists, i, j), inEdges, h', vals', infos', lists[i][j], alter);
      if !ok {
        return;
      }
    }
    SeenEnd(g, placed, level, lists, i);
  }

  /** One pass over the graph with a table of the size counted for it: fewer numbers than it holds are
      given out, and every live block is numbered and rewritten as specified. */
  method OptBlks(t: Table, g: Graph, root: nat, ghost placed: set<nat>, level: seq<nat>, lists: seq<seq<nat>>, alter: bool)
    returns (ok: bool, h: Graph, vals: seq<Vals>, ghost infos: seq<Info>)
    requires t.Valid() && t.nodes == [] && |t.vmap| == 3 * CountAll(g, |g|) && ValidGraph(g)
    requires Sweepable(g, root, placed, level, lists)
    modifies t
    ensures t.Valid() && |t.nodes| < |t.vmap| == old(|t.vmap|)
    ensures ok ==> PassState(g, root, placed, placed, h, vals, infos, t.nodes, alter)
    ensures !ok ==> Stops(g, root, placed, alter)
  {
    hide Stops, PassOk, Rewritten, InEdges;
    var inEdges := FindInedges(g, root, placed, level, lists);
    LevelsTop(g, root, placed);
    ok, h, vals := true, g, seq(|g|, _ => UNKNOWN);
    infos := seq(|g|, _ => Info(UNKNOWN, [], [], UNKNOWN, []));
    PassStart(g, root, placed, vals, infos, alter);
    for i := level[root] + 1 downto 0
      invariant t.Valid() && |t.vmap| == old(|t.vmap|)
      invariant PassState(g, root, placed, AtLeast(g, placed, i), h, vals, infos, t.nodes, alter)
    {
      ok, h, vals, infos := SweepBlocks(t, g, root, placed, level, lists, inEdges, h, vals, infos, i, alter);
      if !ok {
        return;
      }
    }
  }

  lemma PassStart(g: Graph, root: nat, placed: set<nat>, vals: seq<Vals>, infos: seq<Info>, alter: bool)
    requires |vals| == |infos| == |g|
    ensures PassState(g, root, placed, {}, g, vals, infos, [], alter)
  {
    BudgetEmpty(g, |g|);
  }

  lemma {:induction false} BudgetEmpty(g: Graph, i: nat)
    requires i <= |g|
    ensures Budget(g, {}, i) == 0
  {
    if i > 0 {
      BudgetEmpty(g, i - 1);
    }
  }

  // ----------------------------------------------------- soundness over the whole graph

  /** In every live block the numbers are good enough for every statement. */
  ghost predicate AllReadable(g: Graph, placed: set<nat>, infos: seq<Info>, alter: bool)
    requires |infos| == |g| && ValidGraph(g)
  {
    forall b :: b in placed && 0 <= b < |g| ==> ReadableStmts(g[b].stmts, infos[b].entry, infos[b].nodes0, alter)
  }

  /** The pass is known to read only known registers if no block uses a register it did not set. */
  lemma SelfContainedKnown(g: Graph, placed: set<nat>, infos: seq<Info>, alter: bool)
    requires |infos| == |g| && ValidGraph(g)
    requires forall b :: b in placed && 0 <= b < |g| ==> LiveIn(g[b].stmts, {}) == {} && Supported(g[b].stmts)
    ensures AllReadable(g, placed, infos, alter)
  {
    forall b | b in placed && 0 <= b < |g|
      ensures ReadableStmts(g[b].stmts, infos[b].entry, infos[b].nodes0, alter)
    {
      KnownIfLive(g[b].stmts, infos[b].entry, infos[b].nodes0, alter);
    }
  }

  /** What all live predecessors of a block agree on is its number on entry. */
  lemma EntryTaken(g: Graph, root: nat, placed: set<nat>, infos: seq<Info>, nodes: Nodes, alter: bool, a: nat, b: nat, x: nat, v: nat)
    requires PassOk(g, root, placed, placed, infos, nodes, alter) && a in placed && b in placed && Edge(g, a, b) && x < N_ATOMS
    requires Agreed(g, placed, infos, b, x, v)
    ensures b < |infos| && infos[b].entry[x] == v
  {
    assert MergedFrom(g, placed, infos, b, infos[b].entry);
  }

  // --------------------------------------- a condition on the graph for known reads

  /** For each block, where the registers known on its entry got their values: register to block. */
  type Origins = seq<map<nat, nat>>

  /** Leaving block `a`, register `x` holds what it held on leaving block `d`. */
  predicate ComesFrom(g: Graph, org: Origins, a: nat, x: nat, d: nat)
    requires a < |g| == |org|
  {
    if a == d then x in org[a] || Writes(g[a].stmts, x)
    else x in org[a] && org[a][x] == d && !Writes(g[a].stmts, x)
  }

  /** Every register of `org[b]` reaches `b` from the same block on all ways in, and they include all
      registers that `b` reads before writing. */
  ghost predicate Certified(g: Graph, root: nat, placed: set<nat>, org: Origins, b: nat)
    requires b < |g| == |org|
  {
    && Supported(g[b].stmts) && (b == root ==> org[b] == map[])
    && (forall x :: x in LiveIn(g[b].stmts, {}) && 0 <= x < N_ATOMS ==> x in org[b])
    && (forall x :: x in org[b] ==> x < N_ATOMS && exists a: nat :: a in placed && Edge(g, a, b))
    && (forall x, a: nat :: x in org[b] && a in placed && Edge(g, a, b) ==> ComesFrom(g, org, a, x, org[b][x]))
  }

  ghost predicate AllCertified(g: Graph, root: nat, placed: set<nat>, org: Origins)
  {
    |org| == |g| && forall b :: b in placed ==> 0 <= b < |g| && Certified(g, root, placed, org, b)
  }

  /** The registers of `org[b]` have known numbers on entry of `b`: those of their origins. */
  ghost predicate EntryKnown(infos: seq<Info>, org: Origins, b: nat)
    requires b < |org| == |infos|
  {
    forall x :: x in org[b] && x < N_ATOMS ==>
      org[b][x] < |infos| && infos[b].entry[x] != 0 && infos[b].entry[x] == infos[org[b][x]].exit[x]
  }

  /** What `a` leaves for a register that comes from `d`. */
  lemma LeavesOrigin(g: Graph, root: nat, placed: set<nat>, infos: seq<Info>, nodes: Nodes, alter: bool, org: Origins,
                     a: nat, x: nat, d: nat)
    requires ValidGraph(g) && PassOk(g, root, placed, placed, infos, nodes, alter) && a in placed && a < |g| == |org| == |infos|
    requires Certified(g, root, placed, org, a) && EntryKnown(infos, org, a) && x < N_ATOMS && ComesFrom(g, org, a, x, d)
    ensures d < |infos| && infos[a].exit[x] == infos[d].exit[x] != 0
  {
    hide OptStmts, LiveIn, Writes, Supported;
    assert InfoOk(g[a], infos[a], alter);
    KnownThrough(g[a].stmts, infos[a].entry, infos[a].nodes0, alter, x);
    if a != d {
      UnwrittenKept(g[a].stmts, infos[a].entry, infos[a].nodes0, alter, x);
    }
  }

  lemma {:induction false} OriginsKnown(g: Graph, root: nat, placed: set<nat>, infos: seq<Info>, nodes: Nodes, alter: bool,
                                        org: Origins, b: nat)
    requires Acyclic(g) && ValidGraph(g) && PassOk(g, root, placed, placed, infos, nodes, alter) && AllCertified(g, root, placed, org)
    requires b in placed && b < |g|
    ensures EntryKnown(infos, org, b)
    decreases |g| - Level(g, b)
  {
    hide PassOk, Certified, LiveIn, Edge, ComesFrom, Agreed;
    PassSizes(g, root, placed, infos, nodes, alter);
    forall x | x in org[b] && x < N_ATOMS
      ensures org[b][x] < |infos| && infos[b].entry[x] != 0 && infos[b].entry[x] == infos[org[b][x]].exit[x]
    {
      var d := org[b][x];
      var a := CertifiedPred(g, root, placed, org, b, x);
      forall c: nat | c in placed && Edge(g, c, b)
        ensures d < |infos| && c < |infos| && infos[c].exit[x] == infos[d].exit[x] != 0
      {
        CertifiedEdge(g, root, placed, org, c, b, x);
        LevelsFall(g, c, b);
        OriginsKnown(g, root, placed, infos, nodes, alter, org, c);
        LeavesOrigin(g, root, placed, infos, nodes, alter, org, c, x, d);
      }
      AllAgree(g, placed, infos, b, x, infos[d].exit[x]);
      EntryTaken(g, root, placed, infos, nodes, alter, a, b, x, infos[d].exit[x]);
    }
  }

  lemma PassSizes(g: Graph, root: nat, placed: set<nat>, infos: seq<Info>, nodes: Nodes, alter: bool)
    requires PassOk(g, root, placed, placed, infos, nodes, alter)
    ensures |infos| == |g|
  {
  }

  lemma AllAgree(g: Graph, placed: set<nat>, infos: seq<Info>, b: nat, x: nat, v: nat)
    requires x < N_ATOMS && forall c: nat :: c in placed && Edge(g, c, b) ==> c < |infos| && infos[c].exit[x] == v
    ensures Agreed(g, placed, infos, b, x, v)
  {
  }

  lemma LevelsFall(g: Graph, a: nat, b: nat)
    requires Acyclic(g) && Edge(g, a, b)
    ensures a < |g| && b < |g| && Level(g, b) < Level(g, a) < |g|
  {
    LevelBound(g, a);
  }

  lemma CertifiedPred(g: Graph, root: nat, placed: set<nat>, org: Origins, b: nat, x: nat) returns (a: nat)
    requires b < |g| == |org| && Certified(g, root, placed, org, b) && x in org[b]
    ensures a in placed && Edge(g, a, b)
  {
    a :| a in placed && Edge(g, a, b);
  }

  lemma CertifiedEdge(g: Graph, root: nat, placed: set<nat>, org: Origins, a: nat, b: nat, x: nat)
    requires AllCertified(g, root, placed, org) && b in placed && x in org[b] && a in placed && Edge(g, a, b)
    ensures a < |g| && ComesFrom(g, org, a, x, org[b][x]) && Certified(g, root, placed, org, a)
  {
    assert Certified(g, root, placed, org, b);
  }

  /** So a certified graph is numbered with known reads throughout, whatever the pass does. */
  lemma {:induction false} CertifiedReadable(g: Graph, root: nat, placed: set<nat>, infos: seq<Info>, nodes: Nodes, alter: bool, org: Origins)
    requires Acyclic(g) && ValidGraph(g) && PassOk(g, root, placed, placed, infos, nodes, alter) && AllCertified(g, root, placed, org)
    ensures |infos| == |g| && AllReadable(g, placed, infos, alter)
  {
    hide PassOk, ReadableStmts;
    PassSizes(g, root, placed, infos, nodes, alter);
    forall b | b in placed && 0 <= b < |g|
      ensures ReadableStmts(g[b].stmts, infos[b].entry, infos[b].nodes0, alter)
    {
      assert Certified(g, root, placed, org, b);
      OriginsKnown(g, root, placed, infos, nodes, alter, org, b);
      KnownIfLive(g[b].stmts, infos[b].entry, infos[b].nodes0, alter);
    }
  }

  /** And so the pass keeps the verdict of every fine run of a certified graph. */
  lemma {:induction false} CertifiedMeans(g: Graph, h: Graph, root: nat, placed: set<nat>, infos: seq<Info>, nodes: Nodes, alter: bool,
                                          org: Origins, r: Regs, p: Packet)
    requires Acyclic(g) && ValidGraph(g) && IsReach(g, root, placed) && root < |g| && AllCertified(g, root, placed, org)
    requires PassOk(g, root, placed, placed, infos, nodes, alter) && Rewritten(g, h, placed, infos)
    requires FineRun(g, root, alter, r, p)
    ensures Acyclic(h) && Walk(h, root, r, p) == Walk(g, root, r, p)
  {
    CertifiedReadable(g, root, placed, infos, nodes, alter, org);
    PassMeans(g, h, root, placed, infos, nodes, alter, r, p);
  }

  /** One block, seen through the final table. */
  lemma BlockSound(b: Block, info: Info, nodes: Nodes, alter: bool, r: Regs, p: Packet)
    requires InfoOk(b, info, alter) && info.nodes1 <= nodes
    requires ReadableStmts(b.stmts, info.entry, info.nodes0, alter) && FineStmts(b.stmts, alter, r, p)
    requires Sound(nodes, info.entry, r, p)
    ensures ExecAll(info.stmts, r, p) == ExecAll(b.stmts, r, p)
    ensures ExecAll(b.stmts, r, p).Val? ==> Sound(nodes, info.exit, ExecAll(b.stmts, r, p).v, p)
  {
    hide OptStmts, ReadableStmts, FineStmts, Sound;
    SoundStable(info.nodes0, nodes, info.entry, r, p);
    OptStmtsSound(b.stmts, info.entry, info.nodes0, alter, r, p);
    if ExecAll(b.stmts, r, p).Val? {
      SoundStable(info.nodes1, nodes, info.exit, ExecAll(b.stmts, r, p).v, p);
    }
  }

  lemma InheritSound(nodes: Nodes, entry: Vals, exit: Vals, r: Regs, p: Packet)
    requires Inherits(entry, exit) && Sound(nodes, exit, r, p)
    ensures Sound(nodes, entry, r, p)
  {
  }

  /** Executes the statements of the blocks along a path, whatever the branches say. */
  function PathExec(g: Graph, path: seq<nat>, r: Regs, p: Packet): Outcome<Regs>
    requires forall i :: 0 <= i < |path| ==> path[i] < |g|
  {
    if |path| == 0 then Val(r)
    else
      match PathExec(g, path[..|path| - 1], r, p)
      case Val(r') => ExecAll(g[path[|path| - 1]].stmts, r', p)
      case Reject => Reject
      case Undef => Undef
  }

  /** Along the path nothing is undefined and no register division that might be rewritten meets zero. */
  predicate FinePath(g: Graph, path: seq<nat>, alter: bool, r: Regs, p: Packet)
    requires forall i :: 0 <= i < |path| ==> path[i] < |g|
  {
    |path| == 0 ||
    (&& FinePath(g, path[..|path| - 1], alter, r, p)
     && match PathExec(g, path[..|path| - 1], r, p)
        case Val(r') => FineStmts(g[path[|path| - 1]].stmts, alter, r', p)
        case _ => true)
  }

  /** Along every path from the root, from any registers: the rewritten blocks end like the original
      ones, rejecting paths included, and if the path runs through, a known number on exit of its
      last block equals the register's value as a function of the packet alone. */
  lemma {:induction false} PathSound(g: Graph, h: Graph, root: nat, placed: set<nat>, infos: seq<Info>, nodes: Nodes,
                                     alter: bool, path: seq<nat>, r: Regs, p: Packet)
    requires WellFormed(g) && ValidGraph(g) && root in placed && Closed(g, placed)
    requires PassOk(g, root, placed, placed, infos, nodes, alter) && Rewritten(g, h, placed, infos)
    requires AllReadable(g, placed, infos, alter)
    requires IsPath(g, path) && path[0] == root && FinePath(g, path, alter, r, p)
    ensures path[|path| - 1] in placed && PathExec(h, path, r, p) == PathExec(g, path, r, p)
    ensures PathExec(g, path, r, p).Val? ==> Sound(nodes, infos[path[|path| - 1]].exit, PathExec(g, path, r, p).v, p)
  {
    var init, b := path[..|path| - 1], path[|path| - 1];
    if |init| > 0 {
      var a := init[|init| - 1];
      forall i | 0 <= i < |init| - 1
        ensures Edge(g, init[i], init[i + 1])
      {
        assert Edge(g, path[i], path[i + 1]);
      }
      PathSound(g, h, root, placed, infos, nodes, alter, init, r, p);
      assert Edge(g, path[|path| - 2], path[|path| - 2 + 1]);
      assert Edge(g, a, b);
      if PathExec(g, init, r, p).Val? {
        InheritSound(nodes, infos[b].entry, infos[a].exit, PathExec(g, init, r, p).v, p);
      }
    }
    if PathExec(g, init, r, p).Val? {
      BlockSound(g[b], infos[b], nodes, alter, PathExec(g, init, r, p).v, p);
    }
  }

  lemma RewrittenAcyclic(g: Graph, h: Graph, seen: set<nat>, infos: seq<Info>)
    requires Acyclic(g) && |infos| == |g| && Rewritten(g, h, seen, infos)
    ensures Acyclic(h)
  {
    assert Ranked(h, RankOf(g));
  }

  /** Nothing on the run from `b` is undefined, and no register division that might be rewritten meets
      zero. */
  ghost predicate FineRun(g: Graph, b: nat, alter: bool, r: Regs, p: Packet)
    requires Acyclic(g) && b < |g|
    decreases Level(g, b)
  {
    && FineStmts(g[b].stmts, alter, r, p)
    && match ExecAll(g[b].stmts, r, p)
       case Val(r') =>
         (match g[b].s
          case Ret(_, _) => true
          case Jump(op, useX, k, jt, jf) => FineRun(g, if Holds(op, useX, k, r') then jt else jf, alter, r', p))
       case _ => true
  }

  /** The rewritten graph gives the same verdict on every such run, whether or not it rejects. */
  lemma {:induction false} RewrittenMeans(g: Graph, h: Graph, root: nat, placed: set<nat>, infos: seq<Info>, nodes: Nodes,
                                          alter: bool, b: nat, r: Regs, p: Packet)
    requires Acyclic(g) && Acyclic(h) && ValidGraph(g) && Closed(g, placed)
    requires PassOk(g, root, placed, placed, infos, nodes, alter) && Rewritten(g, h, placed, infos)
    requires AllReadable(g, placed, infos, alter)
    requires b in placed && b < |g| && Sound(nodes, infos[b].entry, r, p) && FineRun(g, b, alter, r, p)
    ensures Walk(h, b, r, p) == Walk(g, b, r, p)
    decreases Level(g, b)
  {
    BlockSound(g[b], infos[b], nodes, alter, r, p);
    match ExecAll(g[b].stmts, r, p)
    case Val(r') =>
      match g[b].s {
        case Ret(_, _) =>
        case Jump(op, useX, k, jt, jf) =>
          var next := if Holds(op, useX, k, r') then jt else jf;
          assert Edge(g, b, next);
          InheritSound(nodes, infos[next].entry, infos[b].exit, r', p);
          RewrittenMeans(g, h, root, placed, infos, nodes, alter, next, r', p);
      }
    case _ =>
  }

  /** From the root nothing is assumed of the registers. */
  lemma {:induction false} PassMeans(g: Graph, h: Graph, root: nat, placed: set<nat>, infos: seq<Info>, nodes: Nodes, alter: bool,
                                     r: Regs, p: Packet)
    requires Acyclic(g) && ValidGraph(g) && IsReach(g, root, placed) && root < |g|
    requires PassOk(g, root, placed, placed, infos, nodes, alter) && Rewritten(g, h, placed, infos)
    requires AllReadable(g, placed, infos, alter) && FineRun(g, root, alter, r, p)
    ensures Acyclic(h) && Walk(h, root, r, p) == Walk(g, root, r, p)
  {
    RewrittenAcyclic(g, h, placed, infos);
    RewrittenMeans(g, h, root, placed, infos, nodes, alter, root, r, p);
  }
}
