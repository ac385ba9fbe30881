/**
 Passes put together: what two of them preserve when one follows the other, and what they do not.
 */
module Pipeline {
  import opened Bpf
  import opened FlowGraph
  import opened Liveness
  import Intern
  import Linearize
  import opened Values
  import opened ValueNumbering

  /** Merging equal blocks and laying the result out keeps the verdict of every packet. */
  method BackEnd(blocks: array<Block>, root: nat) returns (code: array<Insn>)
    requires Acyclic(blocks[..]) && root < blocks.Length
    modifies blocks
    ensures forall r: Regs, p: Packet :: Run(code[..], 0, r, p) == Walk(old(blocks[..]), root, r, p)
  {
    var marked := Intern.InternBlocks(blocks, root);
    var gen := new Linearize.CodeGen(blocks[..]);
    ghost var retries;
    code, retries := gen.IcodeToFcode(root);
  }

  // ------------------------------------------- value numbering, then dead stores

  lemma OptStmtValid(s: Stmt, val: Vals, nodes: Nodes, alter: bool)
    requires ValidStmt(s)
    ensures OptStmt(s, val, nodes, alter).Opt? ==> ValidStmt(OptStmt(s, val, nodes, alter).s)
  {
    hide Enter, Number, IsConst, Alu, Plus, Negate;
  }

  lemma {:induction false} OptStmtsValid(ss: seq<Stmt>, val: Vals, nodes: Nodes, alter: bool)
    requires ValidStmts(ss) && OptStmts(ss, val, nodes, alter).Done?
    ensures ValidStmts(OptStmts(ss, val, nodes, alter).stmts)
  {
    hide OptStmt;
    if |ss| > 0 {
      OptStmtValid(ss[0], val, nodes, alter);
      var o := OptStmt(ss[0], val, nodes, alter);
      OptStmtsValid(ss[1..], o.val, o.nodes, alter);
    }
  }

  lemma RewrittenValid(g: Graph, h: Graph, root: nat, placed: set<nat>, infos: seq<Info>, nodes: Nodes, alter: bool)
    requires ValidGraph(g) && PassOk(g, root, placed, placed, infos, nodes, alter) && Rewritten(g, h, placed, infos)
    ensures ValidGraph(h)
  {
    hide OptStmts;
    forall b | 0 <= b < |h|
      ensures ValidStmts(h[b].stmts)
    {
      if b in placed {
        assert InfoOk(g[b], infos[b], alter);
        OptStmtsValid(g[b].stmts, infos[b].entry, infos[b].nodes0, alter);
      }
    }
  }

  // ----------------------------------------------- what rewriting does to live registers

  /** The store of a register that is unknown and not read is kept. */
  lemma FirstStoreKept(s: Stmt, val: Vals, nodes: Nodes, alter: bool, a: nat)
    requires ValidStmt(s) && OptStmt(s, val, nodes, alter).Opt? && Readable(s, val, nodes, alter)
    requires a < N_ATOMS && val[a] == 0 && a in Defs(s) && a !in Uses(s)
    ensures a in Defs(OptStmt(s, val, nodes, alter).s)
  {
    hide Enter, IsConst, Alu, Plus, Negate;
  }

  lemma {:induction false} OptStmtsShrink(ss: seq<Stmt>, val: Vals, nodes: Nodes, alter: bool)
    requires ValidStmts(ss) && OptStmts(ss, val, nodes, alter).Done?
    ensures var t := OptStmts(ss, val, nodes, alter).stmts;
            |t| == |ss| && forall i :: 0 <= i < |ss| ==> Uses(t[i]) <= Uses(ss[i]) && Defs(t[i]) <= Defs(ss[i])
  {
    hide OptStmt, Uses, Defs;
    if |ss| > 0 {
      OptStmtShrinks(ss[0], val, nodes, alter);
      var o := OptStmt(ss[0], val, nodes, alter);
      OptStmtsShrink(ss[1..], o.val, o.nodes, alter);
    }
  }

  /** A register that is unknown before a list and dead there is dead before the rewritten list, if
      it is dead after it when it is unknown and dead after the original. */
  lemma {:induction false} DeadUnknown(ss: seq<Stmt>, val: Vals, nodes: Nodes, alter: bool, a: nat, l: Atoms, m: Atoms)
    requires ValidStmts(ss) && ReadableStmts(ss, val, nodes, alter) && OptStmts(ss, val, nodes, alter).Done?
    requires a < N_ATOMS && val[a] == 0 && a !in LiveIn(ss, l)
    requires OptStmts(ss, val, nodes, alter).val[a] == 0 && a !in l ==> a !in m
    ensures a !in LiveIn(OptStmts(ss, val, nodes, alter).stmts, m)
  {
    hide OptStmt, Readable, Uses, Defs;
    if |ss| > 0 {
      OptStmtShrinks(ss[0], val, nodes, alter);
      var o := OptStmt(ss[0], val, nodes, alter);
      var rest := OptStmts(ss[1..], o.val, o.nodes, alter);
      assert ([o.s] + rest.stmts)[1..] == rest.stmts;
      if a in Defs(ss[0]) {
        FirstStoreKept(ss[0], val, nodes, alter, a);
      } else {
        DeadUnknown(ss[1..], o.val, o.nodes, alter, a, l, m);
      }
    }
  }

  /** From block `c` on, nothing mentions register `a`. */
  ghost predicate NeverMentioned(g: Graph, c: nat, a: nat)
    requires Acyclic(g) && c < |g|
    decreases Level(g, c)
  {
    && !Mentions(g[c].stmts, a) && a !in UseSet(TermAtomUse(g[c].s))
    && (g[c].s.Jump? ==> NeverMentioned(g, g[c].s.jt, a) && NeverMentioned(g, g[c].s.jf, a))
  }

  lemma {:induction false} UnusedDead(t: seq<Stmt>, a: nat, m: Atoms)
    requires (forall i :: 0 <= i < |t| ==> a !in Uses(t[i])) && a !in m
    ensures a !in LiveIn(t, m)
  {
    if |t| > 0 {
      UnusedDead(t[1..], a, m);
    }
  }

  /** What a pass leaves, in one predicate. */
  ghost predicate Passed(g: Graph, h: Graph, root: nat, placed: set<nat>, infos: seq<Info>, nodes: Nodes, alter: bool)
  {
    && Acyclic(g) && Acyclic(h) && ValidGraph(g) && Closed(g, placed)
    && PassOk(g, root, placed, placed, infos, nodes, alter) && Rewritten(g, h, placed, infos)
    && AllReadable(g, placed, infos, alter)
  }

  lemma PassedBlock(g: Graph, h: Graph, root: nat, placed: set<nat>, infos: seq<Info>, nodes: Nodes, alter: bool, c: nat)
    requires Passed(g, h, root, placed, infos, nodes, alter) && c in placed
    ensures c < |g| == |h| == |infos| && ValidStmts(g[c].stmts) && h[c].s == g[c].s
    ensures ReadableStmts(g[c].stmts, infos[c].entry, infos[c].nodes0, alter)
    ensures OptStmts(g[c].stmts, infos[c].entry, infos[c].nodes0, alter) == Done(h[c].stmts, infos[c].exit, infos[c].nodes1)
    ensures g[c].s.Jump? ==> g[c].s.jt in placed && g[c].s.jf in placed
    ensures g[c].s.Jump? ==> Inherits(infos[g[c].s.jt].entry, infos[c].exit) && Inherits(infos[g[c].s.jf].entry, infos[c].exit)
  {
    hide OptStmts, ReadableStmts, Inherits;
    assert InfoOk(g[c], infos[c], alter);
    if g[c].s.Jump? {
      ClosedSucc(g, placed, c);
      assert Edge(g, c, g[c].s.jt) && Edge(g, c, g[c].s.jf);
    }
  }

  /** Unknown and dead in the original, a register is dead in the rewritten graph. */
  lemma {:induction false} DeadStays(g: Graph, h: Graph, root: nat, placed: set<nat>, infos: seq<Info>, nodes: Nodes, alter: bool,
                                     c: nat, a: nat)
    requires Passed(g, h, root, placed, infos, nodes, alter) && c in placed && c < |g| == |infos| && a < N_ATOMS
    requires infos[c].entry[a] == 0 && a !in RealIn(g, c)
    ensures c < |h| && a !in RealIn(h, c)
    decreases Level(g, c)
  {
    hide OptStmts, ReadableStmts, LiveIn, Passed;
    PassedBlock(g, h, root, placed, infos, nodes, alter, c);
    PassedAcyclic(g, h, root, placed, infos, nodes, alter);
    var l, m := LiveEnd(g[c].s, RealOut(g, c)), LiveEnd(h[c].s, RealOut(h, c));
    if infos[c].exit[a] == 0 && a !in l && g[c].s.Jump? {
      PassedBlock(g, h, root, placed, infos, nodes, alter, g[c].s.jt);
      PassedBlock(g, h, root, placed, infos, nodes, alter, g[c].s.jf);
      DeadStays(g, h, root, placed, infos, nodes, alter, g[c].s.jt, a);
      DeadStays(g, h, root, placed, infos, nodes, alter, g[c].s.jf, a);
    }
    DeadUnknown(g[c].stmts, infos[c].entry, infos[c].nodes0, alter, a, l, m);
  }

  lemma PassedAcyclic(g: Graph, h: Graph, root: nat, placed: set<nat>, infos: seq<Info>, nodes: Nodes, alter: bool)
    requires Passed(g, h, root, placed, infos, nodes, alter)
    ensures Acyclic(g) && Acyclic(h) && ValidGraph(g) && |h| == |g| == |infos|
  {
  }

  lemma {:induction false} NeverLive(g: Graph, h: Graph, root: nat, placed: set<nat>, infos: seq<Info>, nodes: Nodes, alter: bool,
                                     c: nat, a: nat)
    requires Passed(g, h, root, placed, infos, nodes, alter) && c in placed && c < |g| && NeverMentioned(g, c, a)
    ensures c < |h| && a !in RealIn(h, c)
    decreases Level(g, c)
  {
    hide OptStmts, ReadableStmts, LiveIn, Passed;
    PassedBlock(g, h, root, placed, infos, nodes, alter, c);
    PassedAcyclic(g, h, root, placed, infos, nodes, alter);
    if g[c].s.Jump? {
      NeverLive(g, h, root, placed, infos, nodes, alter, g[c].s.jt, a);
      NeverLive(g, h, root, placed, infos, nodes, alter, g[c].s.jf, a);
    }
    OptStmtsShrink(g[c].stmts, infos[c].entry, infos[c].nodes0, alter);
    UnusedDead(h[c].stmts, a, LiveEnd(h[c].s, RealOut(h, c)));
  }

  // ----------------------------------------------- removal after numbering

  /** The store of `a` at `i` is pending at the end of the block: neither read nor overwritten. */
  predicate Pending(ss: seq<Stmt>, i: nat, a: nat)
    requires i < |ss|
  {
    a in Defs(ss[i]) && Unread(ss, a, i + 1, |ss|) && Unset(ss, a, i + 1, |ss|)
  }

  /** A register dead before the rest of a list is pending, or dead there whatever is live after it. */
  lemma {:induction false} DeadCases(ss: seq<Stmt>, i: nat, a: nat, l: Atoms, m: Atoms)
    requires i <= |ss| && a !in LiveIn(ss[i..], l)
    ensures (Unread(ss, a, i, |ss|) && Unset(ss, a, i, |ss|) && a !in l) || a !in LiveIn(ss[i..], m)
    decreases |ss| - i
  {
    if i < |ss| {
      assert ss[i..][0] == ss[i] && ss[i..][1..] == ss[i + 1..];
      if a !in Defs(ss[i]) {
        DeadCases(ss, i + 1, a, l, m);
      }
    }
  }

  /** `k` is `h` after the dead stores of the live blocks were removed with the sets `out`. */
  ghost predicate SweptClean(h: Graph, k: Graph, placed: set<nat>, out: seq<Atoms>)
  {
    && |k| == |h| == |out|
    && forall b :: 0 <= b < |h| ==>
         if b in placed then k[b].s == h[b].s && DeadRemoved(h[b].stmts, k[b].stmts, LiveEnd(h[b].s, out[b])) else k[b] == h[b]
  }

  /** The guard of the removal at the end of block `b`: if the pending store `i` goes, no successor
      inherits the number it gave its register, unless the register is never mentioned again. */
  ghost predicate DropOk(g: Graph, h: Graph, k: Graph, infos: seq<Info>, b: nat, i: nat)
    requires Acyclic(g) && |h| == |k| == |infos| == |g| && b < |g| && i < |h[b].stmts| == |k[b].stmts|
  {
    forall a: nat, c: nat :: k[b].stmts[i] != h[b].stmts[i] && a < N_ATOMS && Pending(h[b].stmts, i, a) && Edge(g, b, c) && c < |g| ==>
      infos[c].entry[a] == 0 || NeverMentioned(g, c, a)
  }

  ghost predicate NotInherited(g: Graph, h: Graph, k: Graph, placed: set<nat>, infos: seq<Info>)
    requires Acyclic(g) && |h| == |k| == |infos| == |g|
  {
    forall b, i :: b in placed && 0 <= b < |g| && 0 <= i < |h[b].stmts| && i < |k[b].stmts| && |h[b].stmts| == |k[b].stmts| ==>
      DropOk(g, h, k, infos, b, i)
  }

  /** Under that guard a removed pending store is dead in the rewritten graph too. */
  lemma DroppedIsDead(g: Graph, h: Graph, k: Graph, root: nat, placed: set<nat>, infos: seq<Info>, nodes: Nodes, alter: bool,
                      b: nat, i: nat, a: nat)
    requires Passed(g, h, root, placed, infos, nodes, alter) && b in placed && b < |g| == |h| == |k| == |infos|
    requires i < |h[b].stmts| == |k[b].stmts| && DropOk(g, h, k, infos, b, i) && k[b].stmts[i] != h[b].stmts[i]
    requires a < N_ATOMS && Pending(h[b].stmts, i, a) && a !in LiveEnd(g[b].s, RealOut(g, b))
    ensures a !in LiveEnd(h[b].s, RealOut(h, b))
  {
    hide LiveIn, Pending, NeverMentioned, Passed;
    PassedAcyclic(g, h, root, placed, infos, nodes, alter);
    PassedBlock(g, h, root, placed, infos, nodes, alter, b);
    if g[b].s.Jump? {
      DroppedAt(g, h, root, placed, infos, nodes, alter, b, g[b].s.jt, a);
      DroppedAt(g, h, root, placed, infos, nodes, alter, b, g[b].s.jf, a);
    }
  }

  lemma DroppedAt(g: Graph, h: Graph, root: nat, placed: set<nat>, infos: seq<Info>, nodes: Nodes, alter: bool,
                  b: nat, c: nat, a: nat)
    requires Passed(g, h, root, placed, infos, nodes, alter) && b < |g| == |infos| && Edge(g, b, c) && c in placed && c < |g|
    requires a < N_ATOMS && a !in RealIn(g, c) && (infos[c].entry[a] == 0 || NeverMentioned(g, c, a))
    ensures c < |h| && a !in RealIn(h, c)
  {
    hide LiveIn, Passed, RealIn;
    if infos[c].entry[a] == 0 {
      DeadStays(g, h, root, placed, infos, nodes, alter, c, a);
    } else {
      NeverLive(g, h, root, placed, infos, nodes, alter, c, a);
    }
  }

  lemma SweptBlock(g: Graph, h: Graph, k: Graph, root: nat, placed: set<nat>, infos: seq<Info>, nodes: Nodes, alter: bool, b: nat)
    requires Passed(g, h, root, placed, infos, nodes, alter) && b in placed && b < |g| == |h| == |k| == |infos|
    requires DeadRemoved(h[b].stmts, k[b].stmts, LiveEnd(h[b].s, RealOut(g, b))) && NotInherited(g, h, k, placed, infos)
    ensures DeadRemoved(h[b].stmts, k[b].stmts, LiveEnd(h[b].s, RealOut(h, b)))
  {
    PassedBlock(g, h, root, placed, infos, nodes, alter, b);
    var ss, t := h[b].stmts, k[b].stmts;
    var l, m := LiveEnd(h[b].s, RealOut(g, b)), LiveEnd(h[b].s, RealOut(h, b));
    forall i | 0 <= i < |ss|
      ensures t[i] == ss[i] || (t[i] == ss[i].(code := Nop) && Defs(ss[i]) !! LiveIn(ss[i + 1..], m))
    {
      assert DropOk(g, h, k, infos, b, i);
      if t[i] != ss[i] {
        SweptStore(g, h, k, root, placed, infos, nodes, alter, b, i);
      }
    }
  }

  lemma SweptStore(g: Graph, h: Graph, k: Graph, root: nat, placed: set<nat>, infos: seq<Info>, nodes: Nodes, alter: bool, b: nat, i: nat)
    requires Passed(g, h, root, placed, infos, nodes, alter) && b in placed && b < |g| == |h| == |k| == |infos|
    requires i < |h[b].stmts| == |k[b].stmts| && DropOk(g, h, k, infos, b, i) && k[b].stmts[i] != h[b].stmts[i]
    requires Defs(h[b].stmts[i]) !! LiveIn(h[b].stmts[i + 1..], LiveEnd(h[b].s, RealOut(g, b)))
    ensures Defs(h[b].stmts[i]) !! LiveIn(h[b].stmts[i + 1..], LiveEnd(h[b].s, RealOut(h, b)))
  {
    hide LiveIn, RealOut, Passed, DropOk, Defs, LiveEnd;
    PassedAcyclic(g, h, root, placed, infos, nodes, alter);
    RewrittenDefs(g, h, root, placed, infos, nodes, alter, b, i);
    forall a | a in Defs(h[b].stmts[i])
      ensures a !in LiveIn(h[b].stmts[i + 1..], LiveEnd(h[b].s, RealOut(h, b)))
    {
      SweptAtom(g, h, k, root, placed, infos, nodes, alter, b, i, a);
    }
  }

  lemma SweptAtom(g: Graph, h: Graph, k: Graph, root: nat, placed: set<nat>, infos: seq<Info>, nodes: Nodes, alter: bool,
                  b: nat, i: nat, a: nat)
    requires Passed(g, h, root, placed, infos, nodes, alter) && b in placed && b < |g| == |h| == |k| == |infos|
    requires i < |h[b].stmts| == |k[b].stmts| && DropOk(g, h, k, infos, b, i) && k[b].stmts[i] != h[b].stmts[i]
    requires a in Defs(h[b].stmts[i]) && a < N_ATOMS
    requires a !in LiveIn(h[b].stmts[i + 1..], LiveEnd(h[b].s, RealOut(g, b)))
    ensures a !in LiveIn(h[b].stmts[i + 1..], LiveEnd(h[b].s, RealOut(h, b)))
  {
    hide LiveIn, RealOut, Passed, DropOk, Defs, LiveEnd, Unread, Unset;
    var ss := h[b].stmts;
    PassedAcyclic(g, h, root, placed, infos, nodes, alter);
    PassedBlock(g, h, root, placed, infos, nodes, alter, b);
    DeadCases(ss, i + 1, a, LiveEnd(h[b].s, RealOut(g, b)), LiveEnd(h[b].s, RealOut(h, b)));
    if Pending(ss, i, a) && a !in LiveEnd(h[b].s, RealOut(g, b)) {
      DroppedIsDead(g, h, k, root, placed, infos, nodes, alter, b, i, a);
      DeadPending(ss, i, a, LiveEnd(h[b].s, RealOut(h, b)));
    }
  }

  lemma RewrittenDefs(g: Graph, h: Graph, root: nat, placed: set<nat>, infos: seq<Info>, nodes: Nodes, alter: bool, b: nat, i: nat)
    requires Passed(g, h, root, placed, infos, nodes, alter) && b in placed && b < |g| == |h| && i < |h[b].stmts|
    ensures |g[b].stmts| == |h[b].stmts| && Defs(h[b].stmts[i]) <= Defs(g[b].stmts[i])
    ensures forall a :: a in Defs(h[b].stmts[i]) ==> a < N_ATOMS
  {
    hide OptStmts, ReadableStmts;
    PassedBlock(g, h, root, placed, infos, nodes, alter, b);
    OptStmtsShrink(g[b].stmts, infos[b].entry, infos[b].nodes0, alter);
    assert ValidStmt(g[b].stmts[i]);
  }

  lemma DeadPending(ss: seq<Stmt>, i: nat, a: nat, m: Atoms)
    requires i < |ss| && Pending(ss, i, a) && a !in m
    ensures a !in LiveIn(ss[i + 1..], m)
  {
    DeadUntil(ss, a, i + 1, |ss|, m);
  }

  lemma SweptIsCleaned(g: Graph, h: Graph, k: Graph, root: nat, placed: set<nat>, infos: seq<Info>, nodes: Nodes, alter: bool,
                       out: seq<Atoms>)
    requires Passed(g, h, root, placed, infos, nodes, alter) && LeavesOk(g) && |g| == |h| == |k| == |infos|
    requires SweptClean(h, k, placed, out) && forall b :: b in placed && 0 <= b < |h| ==> out[b] == OutUse(g, b)
    requires NotInherited(g, h, k, placed, infos)
    ensures Cleaned(h, k)
  {
    hide Passed, NotInherited, DeadRemoved;
    PassedAcyclic(g, h, root, placed, infos, nodes, alter);
    forall b | 0 <= b < |h|
      ensures k[b].s == h[b].s && DeadRemoved(h[b].stmts, k[b].stmts, LiveEnd(h[b].s, RealOut(h, b)))
    {
      if b in placed {
        UseExact(g, b);
        SweptBlock(g, h, k, root, placed, infos, nodes, alter, b);
      } else {
        NothingRemoved(h[b].stmts, LiveEnd(h[b].s, RealOut(h, b)));
      }
    }
  }

  lemma NothingRemoved(ss: seq<Stmt>, l: Atoms)
    ensures DeadRemoved(ss, ss, l)
  {
  }

  /** One pass: numbering, then removal with the live-out sets found before it.  The verdict is kept on
      every run on which nothing is undefined, no rewritten division meets zero and no deleted
      statement rejects, if no removed pending store leaves its number to a successor. */
  lemma {:induction false} NumberThenClean(g: Graph, h: Graph, k: Graph, root: nat, placed: set<nat>, infos: seq<Info>, nodes: Nodes,
                                           alter: bool, out: seq<Atoms>, r: Regs, p: Packet)
    requires Passed(g, h, root, placed, infos, nodes, alter) && LeavesOk(g) && root in placed && root < |g| == |h| == |k| == |infos|
    requires SweptClean(h, k, placed, out) && forall b :: b in placed && 0 <= b < |h| ==> out[b] == OutUse(g, b)
    requires NotInherited(g, h, k, placed, infos) && Acyclic(k)
    requires FineRun(g, root, alter, r, p) && QuietRun(h, k, root, r, p)
    ensures Walk(k, root, r, p) == Walk(g, root, r, p)
  {
    SweptIsCleaned(g, h, k, root, placed, infos, nodes, alter, out);
    RewrittenValid(g, h, root, placed, infos, nodes, alter);
    RewrittenMeans(g, h, root, placed, infos, nodes, alter, root, r, p);
    CleanedMeans(h, k, root, r, r, p);
  }

  lemma {:induction false} RunsFine(ss: seq<Stmt>, alter: bool, r: Regs, p: Packet)
    requires ExecAll(ss, r, p).Val?
    ensures FineStmts(ss, alter, r, p)
  {
    if |ss| > 0 {
      RunsFine(ss[1..], alter, Exec(ss[0], r, p).v, p);
    }
  }

  /** A run that neither rejects nor is undefined meets no obstacle. */
  lemma {:induction false} AcceptedFine(g: Graph, b: nat, alter: bool, r: Regs, p: Packet)
    requires Acyclic(g) && b < |g| && Walk(g, b, r, p) != Accept(0) && Walk(g, b, r, p) != Undefined
    ensures FineRun(g, b, alter, r, p)
    decreases Level(g, b)
  {
    RunsFine(g[b].stmts, alter, r, p);
    var r', s := ExecAll(g[b].stmts, r, p).v, g[b].s;
    if s.Jump? {
      AcceptedFine(g, if Holds(s.op, s.useX, s.k, r') then s.jt else s.jf, alter, r', p);
    }
  }

  /** So under that guard every packet that the original accepts keeps its verdict. */
  lemma {:induction false} NumberThenCleanAccepts(g: Graph, h: Graph, k: Graph, root: nat, placed: set<nat>, infos: seq<Info>, nodes: Nodes,
                                                  alter: bool, out: seq<Atoms>, r: Regs, p: Packet)
    requires Passed(g, h, root, placed, infos, nodes, alter) && LeavesOk(g) && root in placed && root < |g| == |h| == |k| == |infos|
    requires SweptClean(h, k, placed, out) && forall b :: b in placed && 0 <= b < |h| ==> out[b] == OutUse(g, b)
    requires NotInherited(g, h, k, placed, infos) && Acyclic(k)
    requires Walk(g, root, r, p) != Accept(0) && Walk(g, root, r, p) != Undefined
    ensures Walk(k, root, r, p) == Walk(g, root, r, p)
  {
    AcceptedFine(g, root, alter, r, p);
    SweptIsCleaned(g, h, k, root, placed, infos, nodes, alter, out);
    RewrittenValid(g, h, root, placed, infos, nodes, alter);
    RewrittenMeans(g, h, root, placed, infos, nodes, alter, root, r, p);
    AcceptedKept(h, k, root, r, p);
  }

  /** A condition on the graph alone: a register stored in a block and not live at its end is not
      mentioned after it. */
  ghost predicate StoredOnce(g: Graph, placed: set<nat>)
    requires Acyclic(g)
  {
    forall b: nat, i: nat, a: nat, c: nat ::
      (b in placed && b < |g| && i < |g[b].stmts| && a in Defs(g[b].stmts[i]) && a !in LiveEnd(g[b].s, OutUse(g, b))
       && Edge(g, b, c) && c < |g|) ==> NeverMentioned(g, c, a)
  }

  /** It can be checked before the pass, and implies the guard. */
  lemma {:induction false} StoredOnceSuffices(g: Graph, h: Graph, k: Graph, root: nat, placed: set<nat>, infos: seq<Info>, nodes: Nodes, alter: bool,
                           out: seq<Atoms>)
    requires Passed(g, h, root, placed, infos, nodes, alter) && |g| == |h| == |k| == |infos| && StoredOnce(g, placed)
    requires SweptClean(h, k, placed, out) && forall b :: b in placed && 0 <= b < |h| ==> out[b] == OutUse(g, b)
    ensures NotInherited(g, h, k, placed, infos)
  {
    hide NeverMentioned, LiveIn, Edge, OutUse, Passed;
    PassedAcyclic(g, h, root, placed, infos, nodes, alter);
    forall b, i | b in placed && 0 <= b < |g| && 0 <= i < |h[b].stmts| && i < |k[b].stmts| && |h[b].stmts| == |k[b].stmts|
      ensures DropOk(g, h, k, infos, b, i)
    {
      PassedBlock(g, h, root, placed, infos, nodes, alter, b);
      RewrittenDefs(g, h, root, placed, infos, nodes, alter, b, i);
      forall a: nat, c: nat | k[b].stmts[i] != h[b].stmts[i] && a < N_ATOMS && Pending(h[b].stmts, i, a) && Edge(g, b, c) && c < |g|
        ensures NeverMentioned(g, c, a)
      {
        PendingNotLive(h[b].stmts, k[b].stmts, i, a, LiveEnd(h[b].s, out[b]));
      }
    }
  }

  lemma PendingNotLive(ss: seq<Stmt>, t: seq<Stmt>, i: nat, a: nat, l: Atoms)
    requires DeadRemoved(ss, t, l) && i < |ss| && t[i] != ss[i] && Pending(ss, i, a)
    ensures a !in l && a in Defs(ss[i])
  {
    if a in l {
      LiveIfRead(ss, a, i + 1, |ss|, l);
    }
  }

  /** A list that does not mention `a` runs the same whatever `a` holds, and leaves it. */
  lemma {:induction false} Untouched(t: seq<Stmt>, a: nat, r: Regs, w: Word, p: Packet)
    requires ValidStmts(t) && a < N_ATOMS && !Mentions(t, a) && ExecAll(t, r, p).Val?
    ensures ExecAll(t, r, p).v[a] == r[a] && ExecAll(t, r[a := w], p).Val? && ExecAll(t, r[a := w], p).v[a] == w
  {
    if |t| > 0 {
      var s, q := t[0], r[a := w];
      assert a !in Uses(s) && a !in Defs(s);
      forall i | 0 <= i < |t[1..]|
        ensures a !in Uses(t[1..][i]) && a !in Defs(t[1..][i])
      {
        assert t[1..][i] == t[i + 1];
      }
      ExecLocal(s, r, q, p);
      var r', q' := Exec(s, r, p).v, Exec(s, q, p).v;
      assert q' == r'[a := w] by {
        assert forall x :: 0 <= x < N_ATOMS ==> q'[x] == r'[a := w][x];
      }
      Untouched(t[1..], a, r', w, p);
    }
  }

  /** What goes wrong without the guard, exactly: once the only store of an unknown register is removed
      from a block, the number the block leaves for that register is right from every state the
      entry numbers describe if and only if it is 0. */
  lemma StaleIff(t: seq<Stmt>, a: nat, entry: Vals, exit: Vals, nodes: Nodes, r0: Regs, p: Packet)
    requires ValidStmts(t) && a < N_ATOMS && !Mentions(t, a) && entry[a] == 0
    requires Sound(nodes, entry, r0, p) && ExecAll(t, r0, p).Val?
    ensures (forall r: Regs :: Sound(nodes, entry, r, p) && ExecAll(t, r, p).Val? ==>
               exit[a] == 0 || Meaning(nodes, exit[a], p) == Val(ExecAll(t, r, p).v[a])) <==> exit[a] == 0
  {
    if exit[a] != 0 {
      var m := Meaning(nodes, exit[a], p);
      var w: Word := if m == Val(0) then 1 else 0;
      var r: Regs := r0[a := w];
      Untouched(t, a, r0, w, p);
      assert Sound(nodes, entry, r, p);
      assert m != Val(ExecAll(t, r, p).v[a]);
    }
  }

  // ------------------------------------------------------ where the two do not compose

  /** Both blocks load the same value into X; only the second uses it, in A. */
  function Sample(): Graph
  {
    [Block([Stmt(LdAbs(B), 0), Stmt(LdxMsh, 0)], Jump(Jeq, false, 5, 1, 3)),
     Block([Stmt(LdxMsh, 0), Stmt(Txa, 0)], Jump(Jeq, false, 20, 2, 3)),
     Block([], Ret(false, 1)),
     Block([], Ret(false, 0))]
  }

  /** The second load is found redundant ... */
  function Numbered(): Graph
  {
    Sample()[1 := Block([Stmt(Nop, 0), Stmt(Txa, 0)], Sample()[1].s)]
  }

  /** ... and the first one dead, since nothing used it before that. */
  function Emptied(): Graph
  {
    Numbered()[0 := Block([Stmt(LdAbs(B), 0), Stmt(Nop, 0)], Sample()[0].s)]
  }

  function Vs(a: nat, x: nat): Vals
  {
    [0, 0, 0, 0, 0, 0, 0, 0, 0, 0, 0, 0, 0, 0, 0, 0, a, x]
  }

  function Table0(): Nodes
  {
    [Node(LdAbs(B), 0, 0), Node(LdxMsh, 0, 0)]
  }

  function Table1(): Nodes { Table0() + [Const(5)] }

  function Table2(): Nodes { Table1() + [Const(20)] }

  lemma {:induction false} FirstNumbered()
    ensures ValidStmts(Sample()[0].stmts)
    ensures OptStmts(Sample()[0].stmts, Vs(0, 0), [], true) == Done(Sample()[0].stmts, Vs(1, 2), Table0())
    ensures ReadableStmts(Sample()[0].stmts, Vs(0, 0), [], true)
  {
    var ss, n1 := Sample()[0].stmts, Node(LdAbs(B), 0, 0);
    assert OptStmt(ss[0], Vs(0, 0), [], true) == Opt(ss[0], Vs(1, 0), [n1]);
    assert OptStmt(ss[1], Vs(1, 0), [n1], true) == Opt(ss[1], Vs(1, 2), Table0());
    assert ss[1..] == [ss[1]] && ss[1..][1..] == [];
  }

  lemma {:induction false} SecondNumbered()
    ensures ValidStmts(Sample()[1].stmts)
    ensures OptStmts(Sample()[1].stmts, Vs(1, 2), Table1(), true) == Done(Numbered()[1].stmts, Vs(2, 2), Table1())
    ensures ReadableStmts(Sample()[1].stmts, Vs(1, 2), Table1(), true)
  {
    var ss := Sample()[1].stmts;
    assert OptStmt(ss[0], Vs(1, 2), Table1(), true) == Opt(Stmt(Nop, 0), Vs(1, 2), Table1());
    assert OptStmt(ss[1], Vs(1, 2), Table1(), true) == Opt(ss[1], Vs(2, 2), Table1());
    assert ss[1..] == [ss[1]] && ss[1..][1..] == [];
  }

  function SampleInfos(): seq<Info>
  {
    [Info(Vs(0, 0), [], Sample()[0].stmts, Vs(1, 2), Table0()),
     Info(Vs(1, 2), Table1(), Numbered()[1].stmts, Vs(2, 2), Table1()),
     Info(Vs(2, 2), Table2(), [], Vs(2, 2), Table2()),
     Info(Vs(0, 2), Table2(), [], Vs(0, 2), Table2())]
  }

  lemma SampleGraphs()
    ensures Acyclic(Sample()) && Acyclic(Numbered()) && Acyclic(Emptied())
    ensures ValidGraph(Sample()) && LeavesOk(Sample())
  {
    SameShape(Sample());
    SameShape(Numbered());
    SameShape(Emptied());
  }

  lemma SameShape(g: Graph)
    requires |g| == 4 && g[2].s.Ret? && g[3].s.Ret?
    requires g[0].s == Jump(Jeq, false, 5, 1, 3) && g[1].s == Jump(Jeq, false, 20, 2, 3)
    ensures Acyclic(g)
  {
    assert Ranked(g, [2, 1, 0, 0]);
  }

  lemma SampleTables()
    ensures WfNodes([]) && WfNodes(Table0()) && WfNodes(Table1()) && WfNodes(Table2())
    ensures [] <= Table0() <= Table1() <= Table2()
  {
  }

  lemma SampleShape(b: nat)
    requires b < 4
    ensures ValidStmts(Sample()[b].stmts)
    ensures Numbered()[b] == Block(SampleInfos()[b].stmts, Sample()[b].s)
    ensures InTable(SampleInfos()[b].nodes0, SampleInfos()[b].entry) && InTable(SampleInfos()[b].nodes1, SampleInfos()[b].exit)
  {
  }

  lemma SampleInfo(b: nat)
    requires b < 4
    ensures InfoOk(Sample()[b], SampleInfos()[b], true) && SampleInfos()[b].nodes1 <= Table2()
    ensures ReadableStmts(Sample()[b].stmts, SampleInfos()[b].entry, SampleInfos()[b].nodes0, true)
    ensures Numbered()[b] == Block(SampleInfos()[b].stmts, Sample()[b].s)
  {
    hide OptStmts, ReadableStmts, WfNodes, Vs, Table0, Table1, Table2, InTable, Numbered;
    SampleTables();
    SampleShape(b);
    if b == 0 {
      FirstNumbered();
    } else if b == 1 {
      SecondNumbered();
    } else {
      LeafNumbered(SampleInfos()[b].entry);
    }
  }

  lemma SampleEdge(a: nat, b: nat)
    requires Edge(Sample(), a, b)
    ensures a < 4 && b < 4 && Inherits(SampleInfos()[b].entry, SampleInfos()[a].exit)
  {
  }

  /** Both ways into the last block agree on X only. */
  lemma SampleMerged(b: nat)
    requires b < 4
    ensures MergedFrom(Sample(), {0, 1, 2, 3}, SampleInfos(), b, SampleInfos()[b].entry)
  {
    var g, placed: set<nat>, infos, entry := Sample(), {0, 1, 2, 3}, SampleInfos(), SampleInfos()[b].entry;
    forall a: nat, x: nat | a in placed && Edge(g, a, b) && a < |infos| && x < N_ATOMS && Agreed(g, placed, infos, b, x, infos[a].exit[x])
      ensures entry[x] == infos[a].exit[x]
    {
      if b == 3 {
        assert Edge(g, 0, b) && Edge(g, 1, b);
        assert infos[0].exit[x] == infos[a].exit[x] == infos[1].exit[x];
      }
    }
  }

  /** This is what a pass over the sample does. */
  lemma SamplePass()
    ensures ValidGraph(Sample())
    ensures PassOk(Sample(), 0, {0, 1, 2, 3}, {0, 1, 2, 3}, SampleInfos(), Table2(), true)
    ensures Rewritten(Sample(), Numbered(), {0, 1, 2, 3}, SampleInfos())
    ensures AllReadable(Sample(), {0, 1, 2, 3}, SampleInfos(), true)
  {
    hide InfoOk, ReadableStmts, Edge, Inherits, MergedFrom, Table2;
    SampleGraphs();
    forall b: nat | b < 4
      ensures InfoOk(Sample()[b], SampleInfos()[b], true) && SampleInfos()[b].nodes1 <= Table2()
      ensures ReadableStmts(Sample()[b].stmts, SampleInfos()[b].entry, SampleInfos()[b].nodes0, true)
      ensures Numbered()[b] == Block(SampleInfos()[b].stmts, Sample()[b].s)
    {
      SampleInfo(b);
    }
    forall b: nat | b < 4
      ensures MergedFrom(Sample(), {0, 1, 2, 3}, SampleInfos(), b, SampleInfos()[b].entry)
    {
      SampleMerged(b);
    }
    forall a: nat, b: nat | Edge(Sample(), a, b)
      ensures a < 4 && b < 4 && Inherits(SampleInfos()[b].entry, SampleInfos()[a].exit)
    {
      SampleEdge(a, b);
    }
  }

  lemma LeafNumbered(val: Vals)
    ensures OptStmts([], val, Table2(), true) == Done([], val, Table2()) && ReadableStmts([], val, Table2(), true)
  {
  }

  /** Before the pass nothing needs X at the end of the first block. */
  lemma SampleLive()
    ensures Acyclic(Sample()) && OutUse(Sample(), 0) == {} && OutUse(Sample(), 1) == {}
    ensures OutUse(Sample(), 2) == {} && OutUse(Sample(), 3) == {}
  {
    SampleGraphs();
    var g := Sample();
    assert InUse(g, 2) == {} && InUse(g, 3) == {};
    var ss := g[1].stmts;
    assert ss[1..] == [ss[1]] && ss[1..][1..] == [];
    assert LiveIn(ss, {A_ATOM}) == {};
    assert BranchUses(g[1].s) + OutUse(g, 1) == {A_ATOM};
    assert InUse(g, 1) == {};
  }

  lemma {:induction false} SampleClean()
    ensures CleanedWith(Numbered(), Emptied(), [{}, {}, {}, {}])
  {
    var h := Numbered();
    assert LiveEnd(h[0].s, {}) == {A_ATOM};
    assert h[0].stmts[1 + 1..] == [];
    assert LiveIn(h[0].stmts[1 + 1..], {A_ATOM}) == {A_ATOM};
  }

  lemma SampleRuns(r: Regs, p: Packet)
    requires p.bytes == [5]
    ensures Acyclic(Sample()) && Acyclic(Emptied())
    ensures FineRun(Sample(), 0, true, r, p) && Walk(Sample(), 0, r, p) == Accept(1)
    ensures r[X_ATOM] != 20 ==> Walk(Emptied(), 0, r, p) == Accept(0)
  {
    SampleGraphs();
    var g, k := Sample(), Emptied();
    var r0 := r[A_ATOM := 5];
    var r1 := r0[X_ATOM := 20];
    var r2 := r1[A_ATOM := 20];
    TwoSteps(g[0].stmts[0], g[0].stmts[1], r, r0, r1, p);
    assert r1[X_ATOM := 20] == r1;
    TwoSteps(g[1].stmts[0], g[1].stmts[1], r1, r1, r2, p);
    TwoSteps(k[0].stmts[0], k[0].stmts[1], r, r0, r0, p);
    TwoSteps(k[1].stmts[0], k[1].stmts[1], r0, r0, r0[A_ATOM := r[X_ATOM]], p);
    assert Walk(g, 2, r2, p) == Accept(1);
    assert Walk(g, 1, r1, p) == Walk(g, 2, r2, p);
    assert Walk(k, 3, r0[A_ATOM := r[X_ATOM]], p) == Accept(0);
    assert r[X_ATOM] != 20 ==> Walk(k, 1, r0, p) == Walk(k, 3, r0[A_ATOM := r[X_ATOM]], p);
    AcceptedFine(g, 0, true, r, p);
  }

  lemma TwoSteps(s: Stmt, t: Stmt, r: Regs, r1: Regs, r2: Regs, p: Packet)
    requires Exec(s, r, p) == Val(r1) && Exec(t, r1, p) == Val(r2)
    ensures ExecAll([s, t], r, p) == Val(r2)
  {
    assert [s, t][1..] == [t] && [t][1..] == [];
    assert ExecAll([t], r1, p) == Val(r2);
  }

  /** An input on which the verdict is not kept: one pass over the sample numbers it soundly and removes
      only what was dead before the pass, and yet the verdict changes. */
  lemma StaleNumberChangesVerdict(r: Regs, p: Packet)
    requires p.bytes == [5] && r[X_ATOM] != 20
    ensures var g, h, k := Sample(), Numbered(), Emptied();
            && Acyclic(g) && Acyclic(k) && ValidGraph(g) && LeavesOk(g)
            && PassOk(g, 0, {0, 1, 2, 3}, {0, 1, 2, 3}, SampleInfos(), Table2(), true)
            && Rewritten(g, h, {0, 1, 2, 3}, SampleInfos()) && AllReadable(g, {0, 1, 2, 3}, SampleInfos(), true)
            && CleanedWith(h, k, [OutUse(g, 0), OutUse(g, 1), OutUse(g, 2), OutUse(g, 3)])
            && FineRun(g, 0, true, r, p) && Walk(g, 0, r, p) == Accept(1) && Walk(k, 0, r, p) == Accept(0)
  {
    hide PassOk, Rewritten, AllReadable, FineRun, Walk, OutUse, CleanedWith;
    SampleGraphs();
    SamplePass();
    SampleLive();
    SampleClean();
    SampleRuns(r, p);
  }

  // --------------------------------------------------- a branch on any bit at all

  lemma {:induction false} AndOnes(a: nat, n: nat)
    requires a < Pow2(n)
    ensures And(a, Pow2(n) - 1) == a
  {
    if a > 0 {
      assert Pow2(n) == 2 * Pow2(n - 1);
      assert (Pow2(n) - 1) / 2 == Pow2(n - 1) - 1 && (Pow2(n) - 1) % 2 == 1;
      AndOnes(a / 2, n - 1);
    }
  }

  /** The graph with the false branch of block `b` sent where the true one goes. */
  function Joined(g: Graph, b: nat): Graph
    requires b < |g| && g[b].s.Jump?
  {
    g[b := Block(g[b].stmts, g[b].s.(jf := g[b].s.jt))]
  }

  lemma {:induction false} WalkBelow(g: Graph, b: nat, c: nat, r: Regs, p: Packet)
    requires Acyclic(g) && b < |g| && g[b].s.Jump? && Acyclic(Joined(g, b)) && c < |g| && RankOf(g)[c] < RankOf(g)[b]
    ensures Walk(Joined(g, b), c, r, p) == Walk(g, c, r, p)
    decreases RankOf(g)[c]
  {
    match ExecAll(g[c].stmts, r, p)
    case Val(r') =>
      match g[c].s {
        case Ret(_, _) =>
        case Jump(op, useX, k, jt, jf) => WalkBelow(g, b, if Holds(op, useX, k, r') then jt else jf, r', p);
      }
    case _ =>
  }

  /** Taking `jset #0xffffffff` as always true keeps the verdict of a run that gets there exactly when
      the accumulator is not zero or both branches lead to the same verdict. */
  lemma JsetOnesIff(g: Graph, b: nat, r: Regs, p: Packet)
    requires Acyclic(g) && b < |g| && g[b].s.Jump? && g[b].s.op == Jset && !g[b].s.useX && g[b].s.k == WORD - 1
    requires ExecAll(g[b].stmts, r, p).Val?
    ensures Acyclic(Joined(g, b))
    ensures var r', s := ExecAll(g[b].stmts, r, p).v, g[b].s;
            Walk(Joined(g, b), b, r, p) == Walk(g, b, r, p) <==>
            r'[A_ATOM] != 0 || Walk(g, s.jt, r', p) == Walk(g, s.jf, r', p)
  {
    assert Ranked(Joined(g, b), RankOf(g));
    var r', s := ExecAll(g[b].stmts, r, p).v, g[b].s;
    Pow2Of32();
    AndOnes(r'[A_ATOM], 32);
    WalkBelow(g, b, s.jt, r', p);
  }
}
