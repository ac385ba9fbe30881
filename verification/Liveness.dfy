/**
 Use-def information of blocks, live registers across the graph, and the removal of
 stores that no later statement reads.
 */
module Liveness {
  import opened Bpf
  import opened FlowGraph
  import opened Passes

  type Atoms = set<nat>

  const AX_ATOM: int := 18

  predicate ValidStmt(s: Stmt)
  {
    (s.code.LdMem? || s.code.LdxMem? || s.code.St? || s.code.Stx?) ==> s.k < MEMWORDS
  }

  predicate ValidStmts(ss: seq<Stmt>)
  {
    forall i :: 0 <= i < |ss| ==> ValidStmt(ss[i])
  }

  predicate ValidGraph(g: Graph)
  {
    forall b :: 0 <= b < |g| ==> ValidStmts(g[b].stmts)
  }

  /** The register a statement reads: -1 for none, AX_ATOM for both A and X. */
  function AtomUse(s: Stmt): int
  {
    match s.code
    case Nop => -1
    case LdInd(_) => X_ATOM
    case LdMem | LdxMem => s.k
    case LdAbs(_) | LdLen | LdImm | LdxImm | LdxMsh | LdxLen => -1
    case St => A_ATOM
    case Stx => X_ATOM
    case AluX(_) => AX_ATOM
    case AluK(_) | Neg => A_ATOM
    case Txa => X_ATOM
    case Tax => A_ATOM
  }

  function TermAtomUse(s: Term): int
  {
    match s
    case Jump(_, useX, _, _, _) => if useX then AX_ATOM else A_ATOM
    case Ret(useA, _) => if useA then A_ATOM else -1
  }

  /** The register a statement writes, or -1. */
  function AtomDef(s: Stmt): int
  {
    match s.code
    case Nop => -1
    case LdAbs(_) | LdInd(_) | LdLen | LdImm | LdMem | AluK(_) | AluX(_) | Neg | Txa => A_ATOM
    case LdxImm | LdxMem | LdxMsh | LdxLen | Tax => X_ATOM
    case St | Stx => s.k
  }

  function UseSet(atom: int): Atoms
  {
    if atom == AX_ATOM then {A_ATOM, X_ATOM} else if atom >= 0 then {atom} else {}
  }

  function DefSet(atom: int): Atoms
  {
    if atom >= 0 then {atom} else {}
  }

  function Uses(s: Stmt): Atoms { UseSet(AtomUse(s)) }

  function Defs(s: Stmt): Atoms { DefSet(AtomDef(s)) }

  // -------------------------------------------- statements see only what they use

  ghost predicate Agree(r: Regs, q: Regs, l: Atoms)
  {
    forall a :: a in l && 0 <= a < N_ATOMS ==> r[a] == q[a]
  }

  /** What a statement writes depends only on the registers it uses. */
  lemma {:induction false} ExecLocal(s: Stmt, r: Regs, q: Regs, p: Packet)
    requires ValidStmt(s) && Agree(r, q, Uses(s))
    ensures match (Exec(s, r, p), Exec(s, q, p))
            case (Val(r'), Val(q')) =>
              && (forall a :: 0 <= a < N_ATOMS && a !in Defs(s) ==> r'[a] == r[a] && q'[a] == q[a])
              && (forall a :: 0 <= a < N_ATOMS && a in Defs(s) ==> r'[a] == q'[a])
            case (Reject, Reject) => true
            case (Undef, Undef) => true
            case _ => false
  {
    match s.code {
      case LdMem | LdxMem =>
        assert s.k in Uses(s);
      case LdInd(_) | Stx | Txa =>
        assert X_ATOM in Uses(s);
      case St | AluK(_) | Neg | Tax =>
        assert A_ATOM in Uses(s);
      case AluX(_) =>
        assert A_ATOM in Uses(s) && X_ATOM in Uses(s);
      case _ =>
    }
  }

  /** `o` with register `a` set to `w`. */
  function With(o: Outcome<Regs>, a: nat, w: Word): Outcome<Regs>
    requires a < N_ATOMS
  {
    match o case Val(v) => Val(v[a := w]) case _ => o
  }

  /** Changing register `a` to `w` changes more than that register, and is not just overwritten. */
  predicate Reads(s: Stmt, a: nat, r: Regs, w: Word, p: Packet)
    requires a < N_ATOMS
  {
    var o, o' := Exec(s, r, p), Exec(s, r[a := w], p);
    o' != o && o' != With(o, a, w)
  }

  /** A statement reads only registers it uses ... */
  lemma {:induction false} UnusedNotRead(s: Stmt, a: nat, r: Regs, w: Word, p: Packet)
    requires ValidStmt(s) && a < N_ATOMS && a !in Uses(s)
    ensures !Reads(s, a, r, w, p)
  {
    var q := r[a := w];
    ExecLocal(s, r, q, p);
    if Exec(s, r, p).Val? {
      var v := Exec(s, r, p).v;
      assert Exec(s, q, p).v == if a in Defs(s) then v else v[a := w];
    }
  }

  /** ... and for each register it uses there is a statement with its code, and for memory its cell,
      that reads it. */
  lemma {:induction false} UsedIsRead(s: Stmt, a: nat) returns (k: Word, r: Regs, w: Word, p: Packet)
    requires ValidStmt(s) && a in Uses(s)
    ensures a < N_ATOMS && Reads(Stmt(s.code, k), a, r, w, p) && (s.code.LdMem? || s.code.LdxMem? ==> k == s.k)
  {
    k, r, w, p := 0, ZEROS, 1, Packet([0, 0, 0, 0], 0);
    var b := A_ATOM;
    match s.code {
      case LdInd(_) => w := 4;
      case LdMem => k := s.k;
      case LdxMem => k, b := s.k, X_ATOM;
      case AluK(op) => k, w := AluWitness(op);
      case AluX(op) =>
        if a == A_ATOM {
          var x;
          x, w := AluWitness(op);
          r := r[X_ATOM := x];
        } else {
          var y := XMatters(op);
          r := r[A_ATOM := y];
        }
      case St | Stx => b := 0;
      case Tax => b := X_ATOM;
      case Txa | Neg =>
    }
    hide Alu;
    DifferAt(Stmt(s.code, k), a, b, r, w, p);
  }

  lemma DifferAt(s: Stmt, a: nat, b: nat, r: Regs, w: Word, p: Packet)
    requires a < N_ATOMS && b < N_ATOMS
    requires match (Exec(s, r, p), Exec(s, r[a := w], p))
             case (Val(v), Val(v')) => v'[b] != v[b] && (a == b ==> v'[b] != w)
             case (Val(v), Reject) => true
             case (Reject, Val(v)) => true
             case _ => false
    ensures Reads(s, a, r, w, p)
  {
  }

  lemma AluWitness(op: AluOp) returns (k: Word, w: Word)
    ensures w > 0 && Alu(op, true, w, k) == Alu(op, false, w, k) && Alu(op, true, 0, k) == Alu(op, false, 0, k)
    ensures Alu(op, true, w, k).Val? && Alu(op, true, 0, k).Val?
    ensures Alu(op, true, w, k).v != w && Alu(op, true, w, k).v != Alu(op, true, 0, k).v
  {
    match op {
      case Add | Sub | BitOr => k, w := 1, 2;
      case Mul => k, w := 2, 1;
      case Div => k, w := 2, 4;
      case BitAnd => k, w := 1, 3;
      case Lsh => k, w := 1, 1;
      case Rsh => k, w := 1, 2;
    }
    assert Pow2(1) == 2;
  }

  lemma XMatters(op: AluOp) returns (b: Word)
    ensures Alu(op, true, b, 0) != Alu(op, true, b, 1) && !Alu(op, true, b, 0).Undef? && Alu(op, true, b, 1).Val?
  {
    b := if op == BitOr then 2 else 1;
    assert Pow2(0) == 1 && Pow2(1) == 2;
    assert And(1, 0) == 0 && And(1, 1) == 1;
    assert Or(2, 0) == 2 && Or(2, 1) == 3;
  }

  /** Changing register `a` to `w` sends the branch the other way. */
  predicate Decides(op: JmpOp, useX: bool, k: Word, a: nat, r: Regs, w: Word)
    requires a < N_ATOMS
  {
    Holds(op, useX, k, r[a := w]) != Holds(op, useX, k, r)
  }

  /** A branch uses exactly the registers that can decide it. */
  lemma {:induction false} BranchReads(t: Term, a: nat) returns (k: Word, r: Regs, w: Word)
    requires t.Jump? && a < N_ATOMS
    ensures a in UseSet(TermAtomUse(t)) ==> Decides(t.op, t.useX, k, a, r, w)
    ensures a !in UseSet(TermAtomUse(t)) ==> forall q: Regs, v: Word :: !Decides(t.op, t.useX, t.k, a, q, v)
  {
    assert And(1, 0) == 0 == And(0, 1) && And(1, 1) == 1;
    k, w := if t.op == Jgt then 0 else 1, 1;
    r := ZEROS;
    if a == A_ATOM {
      r := r[X_ATOM := k];
    } else {
      r := r[A_ATOM := 1][X_ATOM := if t.op == Jge then 2 else 0];
    }
  }

  // ------------------------------------------------------------- backward liveness

  /** Registers live before `ss` when those of `l` are live after it. */
  function LiveIn(ss: seq<Stmt>, l: Atoms): Atoms
  {
    if |ss| == 0 then l else Uses(ss[0]) + (LiveIn(ss[1..], l) - Defs(ss[0]))
  }

  lemma {:induction false} LiveInSnoc(ss: seq<Stmt>, s: Stmt, l: Atoms)
    ensures LiveIn(ss + [s], l) == LiveIn(ss, Uses(s) + (l - Defs(s)))
  {
    if |ss| == 0 {
      assert (ss + [s])[1..] == [];
    } else {
      LiveInSnoc(ss[1..], s, l);
      assert (ss + [s])[1..] == ss[1..] + [s];
    }
  }

  /** Adds a use of `atom` that no definition seen so far covers. */
  method AddUse(atom: int, def: Atoms, use: Atoms) returns (use': Atoms)
    requires -1 <= atom <= AX_ATOM
    ensures use' == use + (UseSet(atom) - def)
  {
    use' := use;
    if atom >= 0 {
      if atom == AX_ATOM {
        if X_ATOM !in def {
          use' := use' + {X_ATOM};
        }
        if A_ATOM !in def {
          use' := use' + {A_ATOM};
        }
      } else if atom !in def {
        use' := use' + {atom};
      }
    }
  }

  lemma UdStep(ss: seq<Stmt>, s: Stmt, def: Atoms, use: Atoms, kill: Atoms, use': Atoms, kill': Atoms)
    requires forall l: Atoms :: LiveIn(ss, l) == use + (l - kill)
    requires kill <= def <= use + kill && kill !! use
    requires use' == use + (Uses(s) - def) && kill' == kill + (Defs(s) - use')
    ensures forall l: Atoms :: LiveIn(ss + [s], l) == use' + (l - kill')
  {
    forall l: Atoms
      ensures LiveIn(ss + [s], l) == use' + (l - kill')
    {
      LiveInSnoc(ss, s, l);
      assert use + ((Uses(s) + (l - Defs(s))) - kill) == use' + (l - kill');
    }
  }

  /** The registers a block defines, those it uses before defining them and those it defines
      before using them: together they give its backward transfer function. */
  method ComputeLocalUd(b: Block) returns (def: Atoms, use: Atoms, kill: Atoms)
    requires ValidStmts(b.stmts)
    ensures forall l: Atoms :: LiveIn(b.stmts, BranchUses(b.s) + l) == use + (l - kill)
  {
    def, use, kill := {}, {}, {};
    for i := 0 to |b.stmts|
      invariant kill <= def <= use + kill && kill !! use
      invariant forall l: Atoms :: LiveIn(b.stmts[..i], l) == use + (l - kill)
    {
      var s := b.stmts[i];
      assert b.stmts[..i + 1] == b.stmts[..i] + [s];
      ghost var use0, kill0, def0 := use, kill, def;
      if s.code != Nop {
        use := AddUse(AtomUse(s), def, use);
        var atom := AtomDef(s);
        if atom >= 0 {
          if atom !in use {
            kill := kill + {atom};
          }
          def := def + {atom};
        }
      }
      UdStep(b.stmts[..i], s, def0, use0, kill0, use, kill);
    }
    assert b.stmts[..|b.stmts|] == b.stmts;
    if b.s.Jump? {
      ghost var use0 := use;
      use := AddUse(TermAtomUse(b.s), def, use);
      forall l: Atoms
        ensures LiveIn(b.stmts, BranchUses(b.s) + l) == use + (l - kill)
      {
        assert LiveIn(b.stmts, BranchUses(b.s) + l) == use0 + ((BranchUses(b.s) + l) - kill);
      }
    } else {
      assert forall l: Atoms :: BranchUses(b.s) + l == l;
    }
  }

  /** What a branch reads.  A return is not counted, whatever it returns. */
  function BranchUses(s: Term): Atoms
  {
    if s.Jump? then UseSet(TermAtomUse(s)) else {}
  }

  // --------------------------------------------------------------- across the graph

  ghost function OutUse(g: Graph, b: nat): Atoms
    requires Acyclic(g) && b < |g|
    decreases Level(g, b), 0
  {
    match g[b].s
    case Ret(_, _) => {}
    case Jump(_, _, _, jt, jf) => InUse(g, jt) + InUse(g, jf)
  }

  ghost function InUse(g: Graph, b: nat): Atoms
    requires Acyclic(g) && b < |g|
    decreases Level(g, b), 1
  {
    LiveIn(g[b].stmts, BranchUses(g[b].s) + OutUse(g, b))
  }

  /** Some statement reads or writes `atom`. */
  predicate Mentions(ss: seq<Stmt>, atom: nat)
  {
    exists i :: 0 <= i < |ss| && (atom in Uses(ss[i]) || atom in Defs(ss[i]))
  }

  /** The use-def code does not count what a return reads.  That does no harm if the leaf returns a
      constant, or mentions the accumulator itself. */
  predicate LeafOk(b: Block)
  {
    b.s.Ret? && b.s.useA ==> Mentions(b.stmts, A_ATOM)
  }

  predicate LeavesOk(g: Graph)
  {
    forall b :: 0 <= b < |g| ==> LeafOk(g[b])
  }

  /** Everything read at the end of a block: by its branch or return, and after it. */
  function LiveEnd(s: Term, out: Atoms): Atoms
  {
    UseSet(TermAtomUse(s)) + out
  }

  /** Live registers with the reads of returns counted. */
  ghost function RealOut(g: Graph, b: nat): Atoms
    requires Acyclic(g) && b < |g|
    decreases Level(g, b), 0
  {
    match g[b].s
    case Ret(_, _) => {}
    case Jump(_, _, _, jt, jf) => RealIn(g, jt) + RealIn(g, jf)
  }

  ghost function RealIn(g: Graph, b: nat): Atoms
    requires Acyclic(g) && b < |g|
    decreases Level(g, b), 1
  {
    LiveIn(g[b].stmts, LiveEnd(g[b].s, RealOut(g, b)))
  }

  lemma {:induction false} LiveInMonotone(ss: seq<Stmt>, l: Atoms, m: Atoms)
    requires l <= m
    ensures LiveIn(ss, l) <= LiveIn(ss, m)
  {
    if |ss| > 0 {
      LiveInMonotone(ss[1..], l, m);
    }
  }

  lemma {:induction false} LiveInAdd(ss: seq<Stmt>, atom: nat)
    ensures LiveIn(ss, {}) <= LiveIn(ss, {atom}) <= LiveIn(ss, {}) + {atom}
  {
    LiveInMonotone(ss, {}, {atom});
    if |ss| > 0 {
      LiveInAdd(ss[1..], atom);
    }
  }

  /** A register mentioned in a list is live before it no more for being live after it. */
  lemma {:induction false} LiveInMentioned(ss: seq<Stmt>, atom: nat)
    requires Mentions(ss, atom)
    ensures LiveIn(ss, {atom}) == LiveIn(ss, {})
  {
    if atom in Uses(ss[0]) || atom in Defs(ss[0]) {
      LiveInAdd(ss[1..], atom);
    } else {
      var i :| 0 <= i < |ss| && (atom in Uses(ss[i]) || atom in Defs(ss[i]));
      assert ss[1..][i - 1] == ss[i];
      LiveInMentioned(ss[1..], atom);
    }
  }

  lemma LeafReal(b: Block)
    requires b.s.Ret? && LeafOk(b)
    ensures LiveIn(b.stmts, LiveEnd(b.s, {})) == LiveIn(b.stmts, BranchUses(b.s) + {})
  {
    if b.s.useA {
      LiveInMentioned(b.stmts, A_ATOM);
      assert LiveEnd(b.s, {}) == {A_ATOM};
    }
    assert BranchUses(b.s) + {} == {};
    assert !b.s.useA ==> LiveEnd(b.s, {}) == {};
  }

  /** With such leaves the sets of the use-def code leave nothing out. */
  lemma {:induction false} UseExact(g: Graph, b: nat)
    requires Acyclic(g) && LeavesOk(g) && b < |g|
    ensures RealIn(g, b) == InUse(g, b) && RealOut(g, b) == OutUse(g, b)
    decreases Level(g, b)
  {
    match g[b].s {
      case Ret(_, _) => LeafReal(g[b]);
      case Jump(_, _, _, jt, jf) =>
        UseExact(g, jt);
        UseExact(g, jf);
        assert LiveEnd(g[b].s, RealOut(g, b)) == BranchUses(g[b].s) + OutUse(g, b);
    }
  }

  lemma {:induction false} LiveInSound(ss: seq<Stmt>, l: Atoms, r: Regs, q: Regs, p: Packet)
    requires ValidStmts(ss) && Agree(r, q, LiveIn(ss, l))
    ensures match (ExecAll(ss, r, p), ExecAll(ss, q, p))
            case (Val(r'), Val(q')) => Agree(r', q', l)
            case (Reject, Reject) => true
            case (Undef, Undef) => true
            case _ => false
  {
    if |ss| > 0 {
      ExecLocal(ss[0], r, q, p);
      match (Exec(ss[0], r, p), Exec(ss[0], q, p))
      case (Val(r'), Val(q')) => LiveInSound(ss[1..], l, r', q', p);
      case _ =>
    }
  }

  lemma SameEnd(s: Term, out: Atoms, r: Regs, q: Regs)
    requires Agree(r, q, LiveEnd(s, out))
    ensures s.Jump? ==> Holds(s.op, s.useX, s.k, r) == Holds(s.op, s.useX, s.k, q)
    ensures s.Ret? ==> Answer(s.useA, s.k, r) == Answer(s.useA, s.k, q)
  {
    assert s.Jump? || s.useA ==> A_ATOM in LiveEnd(s, out);
    assert s.Jump? && s.useX ==> X_ATOM in LiveEnd(s, out);
  }

  /** Two register states that agree on what is really live lead to the same verdict, whether or
      not the run rejects. */
  lemma {:induction false} RealSound(g: Graph, b: nat, r: Regs, q: Regs, p: Packet)
    requires Acyclic(g) && ValidGraph(g) && b < |g| && Agree(r, q, RealIn(g, b))
    ensures Walk(g, b, r, p) == Walk(g, b, q, p)
    decreases Level(g, b)
  {
    var l := LiveEnd(g[b].s, RealOut(g, b));
    LiveInSound(g[b].stmts, l, r, q, p);
    match (ExecAll(g[b].stmts, r, p), ExecAll(g[b].stmts, q, p))
    case (Val(r'), Val(q')) =>
      SameEnd(g[b].s, RealOut(g, b), r', q');
      match g[b].s {
        case Ret(_, _) =>
        case Jump(op, useX, k, jt, jf) =>
          RealSound(g, if Holds(op, useX, k, r') then jt else jf, r', q', p);
      }
    case _ =>
  }

  /** Two register states that agree on what a block has in use lead to the same verdict from
      that block, whether or not the run rejects. */
  lemma LivenessSound(g: Graph, b: nat, r: Regs, q: Regs, p: Packet)
    requires Acyclic(g) && ValidGraph(g) && LeavesOk(g) && b < |g|
    requires Agree(r, q, InUse(g, b))
    ensures Walk(g, b, r, p) == Walk(g, b, q, p)
  {
    UseExact(g, b);
    RealSound(g, b, r, q, p);
  }

  /** A list that does not mention the accumulator runs through on a long packet and leaves it. */
  lemma {:induction false} Unmentioned(ss: seq<Stmt>, r: Regs, p: Packet)
    requires ValidStmts(ss) && !Mentions(ss, A_ATOM) && |p.bytes| == WORD
    ensures ExecAll(ss, r, p).Val? && ExecAll(ss, r, p).v[A_ATOM] == r[A_ATOM]
    ensures A_ATOM !in LiveIn(ss, {})
  {
    if |ss| > 0 {
      assert A_ATOM !in Uses(ss[0]) && A_ATOM !in Defs(ss[0]);
      forall i | 0 <= i < |ss[1..]|
        ensures A_ATOM !in Uses(ss[1..][i]) && A_ATOM !in Defs(ss[1..][i])
      {
        assert ss[1..][i] == ss[i + 1];
      }
      Quiet1(ss[0], r, p);
      Unmentioned(ss[1..], Exec(ss[0], r, p).v, p);
    }
  }

  lemma Quiet1(s: Stmt, r: Regs, p: Packet)
    requires ValidStmt(s) && A_ATOM !in Uses(s) && A_ATOM !in Defs(s) && |p.bytes| == WORD
    ensures Exec(s, r, p).Val? && Exec(s, r, p).v[A_ATOM] == r[A_ATOM]
  {
  }

  /** The guarantee of liveness at block `b`. */
  ghost predicate Guaranteed(g: Graph, b: nat)
    requires Acyclic(g) && b < |g|
  {
    forall r: Regs, q: Regs, p: Packet :: Agree(r, q, InUse(g, b)) ==> Walk(g, b, r, p) == Walk(g, b, q, p)
  }

  /** For a leaf the guarantee holds exactly when it returns a constant or mentions the accumulator. */
  lemma LeafSoundIff(g: Graph, b: nat)
    requires Acyclic(g) && b < |g| && g[b].s.Ret? && ValidStmts(g[b].stmts)
    ensures Guaranteed(g, b) <==> LeafOk(g[b])
  {
    if LeafOk(g[b]) {
      forall r: Regs, q: Regs, p: Packet | Agree(r, q, InUse(g, b))
        ensures Walk(g, b, r, p) == Walk(g, b, q, p)
      {
        LeafReal(g[b]);
        assert BranchUses(g[b].s) + OutUse(g, b) == BranchUses(g[b].s) + {};
        LiveInSound(g[b].stmts, LiveEnd(g[b].s, {}), r, q, p);
        match (ExecAll(g[b].stmts, r, p), ExecAll(g[b].stmts, q, p))
        case (Val(r'), Val(q')) => SameEnd(g[b].s, {}, r', q');
        case _ =>
      }
    } else {
      var p := Packet(seq(WORD, _ => 0), 0);
      var r: Regs := seq(18, _ => 0);
      var q: Regs := r[A_ATOM := 1];
      Unmentioned(g[b].stmts, r, p);
      Unmentioned(g[b].stmts, q, p);
      assert BranchUses(g[b].s) + OutUse(g, b) == {};
      assert Agree(r, q, InUse(g, b));
      assert Walk(g, b, r, p) != Walk(g, b, q, p);
    }
  }

  /** The guarantee holds from every block exactly when every leaf meets the condition. */
  lemma LivenessIff(g: Graph)
    requires Acyclic(g) && ValidGraph(g)
    ensures (forall b: nat :: b < |g| ==> Guaranteed(g, b)) <==> LeavesOk(g)
  {
    hide Guaranteed, LeafOk;
    if LeavesOk(g) {
      forall b: nat | b < |g|
        ensures Guaranteed(g, b)
      {
        LeavesGuarantee(g, b);
      }
    }
    forall b: nat | b < |g| && !LeafOk(g[b])
      ensures !Guaranteed(g, b)
    {
      LeafFails(g, b);
    }
  }

  lemma LeavesGuarantee(g: Graph, b: nat)
    requires Acyclic(g) && ValidGraph(g) && LeavesOk(g) && b < |g|
    ensures Guaranteed(g, b)
  {
    forall r: Regs, q: Regs, p: Packet | Agree(r, q, InUse(g, b))
      ensures Walk(g, b, r, p) == Walk(g, b, q, p)
    {
      LivenessSound(g, b, r, q, p);
    }
  }

  lemma LeafFails(g: Graph, b: nat)
    requires Acyclic(g) && ValidGraph(g) && b < |g| && !LeafOk(g[b])
    ensures !Guaranteed(g, b)
  {
    LeafSoundIff(g, b);
  }

  /** The in-place pass: local information for every level, then upwards from the leaves. */
  method FindUd(g: Graph, root: nat, ghost placed: set<nat>, level: seq<nat>, lists: seq<seq<nat>>)
    returns (inUse: seq<Atoms>, outUse: seq<Atoms>)
    requires Sweepable(g, root, placed, level, lists) && ValidGraph(g)
    ensures |inUse| == |outUse| == |g|
    ensures forall b :: b in placed ==> inUse[b] == InUse(g, b) && outUse[b] == OutUse(g, b)
  {
    var kill: seq<Atoms>;
    inUse, kill := LocalUd(g, root, placed, level, lists);
    outUse := seq(|g|, _ => {});
    LevelsTop(g, root, placed);
    RootHighest(g, root, placed);
    assert UdDone(g, placed, kill, inUse, outUse, 1) by {
      LeavesDone(g, placed, kill, inUse, outUse);
    }
    for i := 1 to level[root] + 1
      invariant UdDone(g, placed, kill, inUse, outUse, i)
    {
      inUse, outUse := SweepUd(g, root, placed, level, lists, kill, inUse, outUse, i);
    }
  }

  /** `use` and `kill` are the transfer function of block `b`. */
  ghost predicate Transfer(g: Graph, b: nat, use: Atoms, kill: Atoms)
    requires b < |g|
  {
    forall l: Atoms {:trigger l - kill} :: LiveIn(g[b].stmts, BranchUses(g[b].s) + l) == use + (l - kill)
  }

  /** Blocks below level `i` are final; the others still hold their local sets. */
  ghost predicate UdDone(g: Graph, placed: set<nat>, kill: seq<Atoms>, inUse: seq<Atoms>, outUse: seq<Atoms>, i: nat)
    requires Acyclic(g)
  {
    && |inUse| == |outUse| == |kill| == |g|
    && (forall b :: b in placed ==> b < |g|)
    && (forall b :: b in placed && Level(g, b) < i ==> inUse[b] == InUse(g, b) && outUse[b] == OutUse(g, b))
    && (forall b :: b in placed && Level(g, b) >= i ==> outUse[b] == {} && Transfer(g, b, inUse[b], kill[b]))
  }

  lemma LeavesDone(g: Graph, placed: set<nat>, kill: seq<Atoms>, inUse: seq<Atoms>, outUse: seq<Atoms>)
    requires Acyclic(g) && |inUse| == |outUse| == |kill| == |g|
    requires forall b :: b in placed ==> b < |g| && Transfer(g, b, inUse[b], kill[b])
    requires forall b :: 0 <= b < |g| ==> outUse[b] == {}
    ensures UdDone(g, placed, kill, inUse, outUse, 1)
  {
    forall b | b in placed && Level(g, b) < 1
      ensures inUse[b] == InUse(g, b) && outUse[b] == OutUse(g, b)
    {
      assert g[b].s.Ret?;
      var none: Atoms := {};
      assert none - kill[b] == {};
      assert BranchUses(g[b].s) + none == BranchUses(g[b].s) + OutUse(g, b);
    }
  }

  /** Local information for the blocks of `seen`. */
  ghost predicate LocalDone(g: Graph, seen: set<nat>, use: seq<Atoms>, kill: seq<Atoms>)
  {
    && |use| == |kill| == |g|
    && forall b :: b in seen ==> b < |g| && Transfer(g, b, use[b], kill[b])
  }

  method LocalUd(g: Graph, root: nat, ghost placed: set<nat>, level: seq<nat>, lists: seq<seq<nat>>)
    returns (use: seq<Atoms>, kill: seq<Atoms>)
    requires Sweepable(g, root, placed, level, lists) && ValidGraph(g)
    ensures LocalDone(g, placed, use, kill)
  {
    use, kill := seq(|g|, _ => {}), seq(|g|, _ => {});
    LevelsTop(g, root, placed);
    for i := level[root] + 1 downto 0
      invariant LocalDone(g, AtLeast(g, placed, i), use, kill)
    {
      use, kill := SweepLocal(g, root, placed, level, lists, use, kill, i);
    }
  }

  method SweepLocal(g: Graph, root: nat, ghost placed: set<nat>, level: seq<nat>, lists: seq<seq<nat>>,
                    use: seq<Atoms>, kill: seq<Atoms>, i: nat)
    returns (use': seq<Atoms>, kill': seq<Atoms>)
    requires Sweepable(g, root, placed, level, lists) && ValidGraph(g) && i < |g|
    requires LocalDone(g, AtLeast(g, placed, i + 1), use, kill)
    ensures LocalDone(g, AtLeast(g, placed, i), use', kill')
  {
    use', kill' := use, kill;
    assert Seen(g, placed, lists, i, 0) == AtLeast(g, placed, i + 1);
    for j := 0 to |lists[i]|
      invariant LocalDone(g, Seen(g, placed, lists, i, j), use', kill')
    {
      SeenBlock(g, placed, level, lists, i, j);
      SeenStep(g, placed, lists, i, j);
      var d, u, k := ComputeLocalUd(g[lists[i][j]]);
      LocalVisit(g, Seen(g, placed, lists, i, j), use', kill', lists[i][j], u, k);
      use', kill' := use'[lists[i][j] := u], kill'[lists[i][j] := k];
    }
    SeenEnd(g, placed, level, lists, i);
  }

  lemma LocalVisit(g: Graph, seen: set<nat>, use: seq<Atoms>, kill: seq<Atoms>, b: nat, u: Atoms, k: Atoms)
    requires LocalDone(g, seen, use, kill) && b < |g| && b !in seen
    requires forall l: Atoms :: LiveIn(g[b].stmts, BranchUses(g[b].s) + l) == u + (l - k)
    ensures LocalDone(g, seen + {b}, use[b := u], kill[b := k])
  {
    assert Transfer(g, b, u, k);
  }

  /** One level of the upward sweep: live-out from the successors, live-in through the block. */
  method SweepUd(g: Graph, root: nat, ghost placed: set<nat>, level: seq<nat>, lists: seq<seq<nat>>,
                 kill: seq<Atoms>, inUse: seq<Atoms>, outUse: seq<Atoms>, i: nat)
    returns (inUse': seq<Atoms>, outUse': seq<Atoms>)
    requires Sweepable(g, root, placed, level, lists) && 1 <= i < |g| && UdDone(g, placed, kill, inUse, outUse, i)
    ensures UdDone(g, placed, kill, inUse', outUse', i + 1)
  {
    inUse', outUse' := inUse, outUse;
    for j := 0 to |lists[i]|
      invariant LevelPart(g, lists[i][..j], inUse, outUse, inUse', outUse')
    {
      SuccFinal(g, placed, level, lists, i, j);
      UdVisit(g, placed, kill, inUse, outUse, i, lists[i][j]);
      assert lists[i][..j + 1] == lists[i][..j] + [lists[i][j]];
      inUse', outUse' := VisitUd(g, lists[i][..j], kill, inUse, outUse, inUse', outUse', lists[i][j]);
    }
    assert lists[i][..|lists[i]|] == lists[i];
    LevelDone(g, placed, level, lists, kill, inUse, outUse, inUse', outUse', i);
  }

  method VisitUd(g: Graph, ghost done: seq<nat>, kill: seq<Atoms>, ghost inUse0: seq<Atoms>, ghost outUse0: seq<Atoms>,
                 inUse: seq<Atoms>, outUse: seq<Atoms>, b: nat)
    returns (inUse': seq<Atoms>, outUse': seq<Atoms>)
    requires Acyclic(g) && LevelPart(g, done, inUse0, outUse0, inUse, outUse) && |kill| == |g|
    requires b < |g| && g[b].s.Jump? && b !in done && g[b].s.jt !in done && g[b].s.jf !in done
    requires var out := outUse0[b] + inUse0[g[b].s.jt] + inUse0[g[b].s.jf];
             out == OutUse(g, b) && inUse0[b] + (out - kill[b]) == InUse(g, b)
    ensures LevelPart(g, done + [b], inUse0, outUse0, inUse', outUse')
  {
    var out := outUse[b] + (inUse[g[b].s.jt] + inUse[g[b].s.jf]);
    assert out == outUse[b] + inUse[g[b].s.jt] + inUse[g[b].s.jf];
    outUse' := outUse[b := out];
    inUse' := inUse[b := inUse[b] + (out - kill[b])];
  }

  /** The blocks of `done` got their final sets and nothing else changed. */
  ghost predicate LevelPart(g: Graph, done: seq<nat>, inUse: seq<Atoms>, outUse: seq<Atoms>, inUse': seq<Atoms>, outUse': seq<Atoms>)
    requires Acyclic(g)
  {
    && |inUse| == |outUse| == |inUse'| == |outUse'| == |g|
    && (forall b :: 0 <= b < |g| && b !in done ==> inUse'[b] == inUse[b] && outUse'[b] == outUse[b])
    && (forall b :: 0 <= b < |g| && b in done ==> inUse'[b] == InUse(g, b) && outUse'[b] == OutUse(g, b))
  }

  lemma LevelDone(g: Graph, placed: set<nat>, level: seq<nat>, lists: seq<seq<nat>>, kill: seq<Atoms>,
                  inUse: seq<Atoms>, outUse: seq<Atoms>, inUse': seq<Atoms>, outUse': seq<Atoms>, i: nat)
    requires Acyclic(g) && Leveled(g, placed, level, lists) && i < |g| && UdDone(g, placed, kill, inUse, outUse, i)
    requires LevelPart(g, lists[i], inUse, outUse, inUse', outUse')
    ensures UdDone(g, placed, kill, inUse', outUse', i + 1)
  {
    forall b | b in placed
      ensures b in lists[i] <==> Level(g, b) == i
    {
    }
  }

  /** The successors of the `j`-th block of level `i` are final and not on its level. */
  lemma SuccFinal(g: Graph, placed: set<nat>, level: seq<nat>, lists: seq<seq<nat>>, i: nat, j: nat)
    requires Acyclic(g) && Leveled(g, placed, level, lists) && Closed(g, placed) && 1 <= i < |g| && j < |lists[i]|
    ensures var b := lists[i][j];
            && b < |g| && b in placed && Level(g, b) == i && g[b].s.Jump?
            && b !in lists[i][..j] && g[b].s.jt !in lists[i][..j] && g[b].s.jf !in lists[i][..j]
            && g[b].s.jt in placed && g[b].s.jf in placed
  {
    var b := lists[i][j];
    assert b in lists[i] && b in placed && Level(g, b) == i;
    ClosedSucc(g, placed, b);
    assert Level(g, g[b].s.jt) < i && Level(g, g[b].s.jf) < i;
    forall c | c in lists[i][..j]
      ensures c in placed && Level(g, c) == i
    {
      assert c in lists[i];
    }
  }

  lemma UdVisit(g: Graph, placed: set<nat>, kill: seq<Atoms>, inUse: seq<Atoms>, outUse: seq<Atoms>, i: nat, b: nat)
    requires Acyclic(g) && UdDone(g, placed, kill, inUse, outUse, i)
    requires b < |g| && b in placed && Level(g, b) == i && g[b].s.Jump? && g[b].s.jt in placed && g[b].s.jf in placed
    ensures var out := outUse[b] + inUse[g[b].s.jt] + inUse[g[b].s.jf];
            out == OutUse(g, b) && inUse[b] + (out - kill[b]) == InUse(g, b)
  {
    var out := outUse[b] + inUse[g[b].s.jt] + inUse[g[b].s.jf];
    assert out == OutUse(g, b);
    assert LiveIn(g[b].stmts, BranchUses(g[b].s) + out) == inUse[b] + (out - kill[b]);
  }

  // ------------------------------------------------------------------- dead stores

  /** `t` is `ss` with some stores deleted, each dead where it stands when the registers of
      `l` are live at the end. */
  ghost predicate DeadRemoved(ss: seq<Stmt>, t: seq<Stmt>, l: Atoms)
  {
    && |t| == |ss|
    && forall i :: 0 <= i < |ss| ==>
         t[i] == ss[i] || (t[i] == ss[i].(code := Nop) && Defs(ss[i]) !! LiveIn(ss[i + 1..], l))
  }

  /** On the run of `ss`, no statement that `t` lacks rejects or is undefined. */
  predicate Quiet(ss: seq<Stmt>, t: seq<Stmt>, r: Regs, p: Packet)
    requires |t| == |ss|
    decreases |ss|
  {
    |ss| == 0 ||
    match Exec(ss[0], r, p)
    case Val(r') => Quiet(ss[1..], t[1..], r', p)
    case Reject => t[0] == ss[0]
    case Undef => t[0] == ss[0]
  }

  lemma DeadTail(ss: seq<Stmt>, t: seq<Stmt>, l: Atoms)
    requires DeadRemoved(ss, t, l) && |ss| > 0
    ensures DeadRemoved(ss[1..], t[1..], l)
    ensures t[0] == ss[0] || (t[0] == ss[0].(code := Nop) && Defs(ss[0]) !! LiveIn(ss[1..], l))
  {
    assert ss[0 + 1..] == ss[1..];
    forall i | 0 <= i < |ss[1..]|
      ensures t[1..][i] == ss[1..][i]
              || (t[1..][i] == ss[1..][i].(code := Nop) && Defs(ss[1..][i]) !! LiveIn(ss[1..][i + 1..], l))
    {
      assert ss[1..][i + 1..] == ss[(i + 1) + 1..];
      assert t[i + 1] == ss[i + 1] || (t[i + 1] == ss[i + 1].(code := Nop) && Defs(ss[i + 1]) !! LiveIn(ss[(i + 1) + 1..], l));
    }
  }

  /** Without the deleted statements the list ends in the same way, rejecting and undefined runs
      included, and leaves the live registers the same. */
  lemma {:induction false} DeadRemovedRuns(ss: seq<Stmt>, t: seq<Stmt>, l: Atoms, r: Regs, q: Regs, p: Packet)
    requires ValidStmts(ss) && DeadRemoved(ss, t, l) && Agree(r, q, LiveIn(ss, l)) && Quiet(ss, t, r, p)
    ensures match (ExecAll(ss, r, p), ExecAll(t, q, p))
            case (Val(r'), Val(q')) => Agree(r', q', l)
            case (Reject, Reject) => true
            case (Undef, Undef) => true
            case _ => false
  {
    if |ss| > 0 {
      DeadTail(ss, t, l);
      if t[0] == ss[0] {
        ExecLocal(ss[0], r, q, p);
        match (Exec(ss[0], r, p), Exec(ss[0], q, p))
        case (Val(r'), Val(q')) => DeadRemovedRuns(ss[1..], t[1..], l, r', q', p);
        case _ =>
      } else {
        ExecLocal(ss[0], r, r, p);
        DeadRemovedRuns(ss[1..], t[1..], l, Exec(ss[0], r, p).v, q, p);
      }
    }
  }

  /** The same along the whole run from `b`. */
  ghost predicate QuietRun(g: Graph, h: Graph, b: nat, r: Regs, p: Packet)
    requires Acyclic(g) && b < |g| == |h| && forall c :: 0 <= c < |g| ==> |h[c].stmts| == |g[c].stmts|
    decreases Level(g, b)
  {
    && Quiet(g[b].stmts, h[b].stmts, r, p)
    && match ExecAll(g[b].stmts, r, p)
       case Val(r') =>
         (match g[b].s
          case Ret(_, _) => true
          case Jump(op, useX, k, jt, jf) => QuietRun(g, h, if Holds(op, useX, k, r') then jt else jf, r', p))
       case Reject => true
       case Undef => true
  }

  /** `h` is `g` after dead stores were removed from its blocks with the live-out sets `out`. */
  ghost predicate CleanedWith(g: Graph, h: Graph, out: seq<Atoms>)
  {
    && |h| == |g| == |out|
    && forall b :: 0 <= b < |g| ==> h[b].s == g[b].s && DeadRemoved(g[b].stmts, h[b].stmts, LiveEnd(g[b].s, out[b]))
  }

  lemma DeadRemovedFewer(ss: seq<Stmt>, t: seq<Stmt>, l: Atoms, m: Atoms)
    requires DeadRemoved(ss, t, m) && l <= m
    ensures DeadRemoved(ss, t, l)
  {
    forall i | 0 <= i < |ss|
      ensures t[i] == ss[i] || (t[i] == ss[i].(code := Nop) && Defs(ss[i]) !! LiveIn(ss[i + 1..], l))
    {
      LiveInMonotone(ss[i + 1..], l, m);
    }
  }

  /** `h` is `g` after stores were removed that are dead when everything really live is kept. */
  ghost predicate Cleaned(g: Graph, h: Graph)
    requires Acyclic(g)
  {
    && |h| == |g|
    && forall b :: 0 <= b < |g| ==> h[b].s == g[b].s && DeadRemoved(g[b].stmts, h[b].stmts, LiveEnd(g[b].s, RealOut(g, b)))
  }

  /** Removal may use any sets that cover the live registers: those of the use-def code do if the
      leaves are fine. */
  lemma {:induction false} CoveredIsCleaned(g: Graph, h: Graph, out: seq<Atoms>)
    requires Acyclic(g) && CleanedWith(g, h, out)
    requires forall b :: 0 <= b < |g| ==> RealOut(g, b) <= out[b] || (LeavesOk(g) && OutUse(g, b) <= out[b])
    ensures Cleaned(g, h)
  {
    hide OutUse, RealOut, LiveIn, DeadRemoved;
    forall b | 0 <= b < |g|
      ensures h[b].s == g[b].s && DeadRemoved(g[b].stmts, h[b].stmts, LiveEnd(g[b].s, RealOut(g, b)))
    {
      if LeavesOk(g) {
        UseExact(g, b);
      }
      DeadRemovedFewer(g[b].stmts, h[b].stmts, LiveEnd(g[b].s, RealOut(g, b)), LiveEnd(g[b].s, out[b]));
    }
  }

  lemma CleanedAcyclic(g: Graph, h: Graph)
    requires Acyclic(g) && Cleaned(g, h)
    ensures Acyclic(h)
  {
    assert Ranked(h, RankOf(g));
  }

  /** Dead-store removal keeps the verdict of every run on which no deleted statement rejects or is
      undefined, even from registers that only agree on what is live. */
  lemma {:induction false} CleanedMeans(g: Graph, h: Graph, b: nat, r: Regs, q: Regs, p: Packet)
    requires Acyclic(g) && Acyclic(h) && ValidGraph(g) && Cleaned(g, h) && b < |g|
    requires Agree(r, q, RealIn(g, b)) && QuietRun(g, h, b, r, p)
    ensures Walk(h, b, q, p) == Walk(g, b, r, p)
    decreases Level(g, b)
  {
    var l := LiveEnd(g[b].s, RealOut(g, b));
    DeadRemovedRuns(g[b].stmts, h[b].stmts, l, r, q, p);
    match (ExecAll(g[b].stmts, r, p), ExecAll(h[b].stmts, q, p))
    case (Val(r'), Val(q')) =>
      SameEnd(g[b].s, RealOut(g, b), r', q');
      match g[b].s {
        case Ret(_, _) =>
        case Jump(op, useX, k, jt, jf) =>
          CleanedMeans(g, h, if Holds(op, useX, k, r') then jt else jf, r', q', p);
      }
    case _ =>
  }

  lemma {:induction false} DisturbedList(ss: seq<Stmt>, t: seq<Stmt>, r: Regs, p: Packet)
    requires |t| == |ss| && !Quiet(ss, t, r, p)
    ensures !ExecAll(ss, r, p).Val?
  {
    match Exec(ss[0], r, p)
    case Val(r') => DisturbedList(ss[1..], t[1..], r', p);
    case _ =>
  }

  /** On the other runs the original rejects or is undefined. */
  lemma {:induction false} DisturbedRun(g: Graph, h: Graph, b: nat, r: Regs, p: Packet)
    requires Acyclic(g) && b < |g| == |h| && forall c :: 0 <= c < |g| ==> |h[c].stmts| == |g[c].stmts|
    requires !QuietRun(g, h, b, r, p)
    ensures Walk(g, b, r, p) == Accept(0) || Walk(g, b, r, p) == Undefined
    decreases Level(g, b)
  {
    if !Quiet(g[b].stmts, h[b].stmts, r, p) {
      DisturbedList(g[b].stmts, h[b].stmts, r, p);
    } else {
      var r' := ExecAll(g[b].stmts, r, p).v;
      var s := g[b].s;
      DisturbedRun(g, h, if Holds(s.op, s.useX, s.k, r') then s.jt else s.jf, r', p);
    }
  }

  /** So no accepted packet is lost or changed: whatever is removed, a verdict other than reject or
      undefined is kept. */
  lemma AcceptedKept(g: Graph, h: Graph, b: nat, r: Regs, p: Packet)
    requires Acyclic(g) && Acyclic(h) && ValidGraph(g) && Cleaned(g, h) && b < |g|
    requires Walk(g, b, r, p) != Accept(0) && Walk(g, b, r, p) != Undefined
    ensures Walk(h, b, r, p) == Walk(g, b, r, p)
  {
    if QuietRun(g, h, b, r, p) {
      CleanedMeans(g, h, b, r, r, p);
    } else {
      DisturbedRun(g, h, b, r, p);
    }
  }

  /** A statement that neither rejects nor is undefined, whatever the registers and the packet. */
  predicate Total(s: Stmt)
  {
    match s.code
    case LdAbs(_) | LdInd(_) | LdxMsh => false
    case LdMem | LdxMem | St | Stx => s.k < MEMWORDS
    case AluK(op) => (op == Div ==> s.k != 0) && (op == Lsh || op == Rsh ==> s.k < 32)
    case AluX(op) => op != Div && op != Lsh && op != Rsh
    case _ => true
  }

  lemma TotalRuns(s: Stmt, r: Regs, p: Packet)
    requires Total(s)
    ensures Exec(s, r, p).Val?
  {
  }

  /** Everything deleted is total. */
  predicate TotalDeletions(ss: seq<Stmt>, t: seq<Stmt>)
    requires |t| == |ss|
  {
    forall i :: 0 <= i < |ss| && t[i] != ss[i] ==> Total(ss[i])
  }

  lemma {:induction false} TotalQuiet(ss: seq<Stmt>, t: seq<Stmt>, r: Regs, p: Packet)
    requires |t| == |ss| && TotalDeletions(ss, t)
    ensures Quiet(ss, t, r, p)
  {
    if |ss| > 0 {
      if t[0] != ss[0] {
        TotalRuns(ss[0], r, p);
      }
      match Exec(ss[0], r, p)
      case Val(r') => TotalQuiet(ss[1..], t[1..], r', p);
      case _ =>
    }
  }

  lemma {:induction false} TotalQuietRun(g: Graph, h: Graph, b: nat, r: Regs, p: Packet)
    requires Acyclic(g) && b < |g| == |h| && forall c :: 0 <= c < |g| ==> |h[c].stmts| == |g[c].stmts|
    requires forall c :: 0 <= c < |g| ==> TotalDeletions(g[c].stmts, h[c].stmts)
    ensures QuietRun(g, h, b, r, p)
    decreases Level(g, b)
  {
    TotalQuiet(g[b].stmts, h[b].stmts, r, p);
    match ExecAll(g[b].stmts, r, p)
    case Val(r') =>
      match g[b].s {
        case Ret(_, _) =>
        case Jump(op, useX, k, jt, jf) => TotalQuietRun(g, h, if Holds(op, useX, k, r') then jt else jf, r', p);
      }
    case _ =>
  }

  /** If nothing deleted is a packet load, a register division or possibly undefined, every run keeps
      its verdict. */
  lemma TotalCleanedMeans(g: Graph, h: Graph, b: nat, r: Regs, q: Regs, p: Packet)
    requires Acyclic(g) && Acyclic(h) && ValidGraph(g) && Cleaned(g, h) && b < |g| && Agree(r, q, RealIn(g, b))
    requires forall c :: 0 <= c < |g| ==> TotalDeletions(g[c].stmts, h[c].stmts)
    ensures Walk(h, b, q, p) == Walk(g, b, r, p)
  {
    TotalQuietRun(g, h, b, r, p);
    CleanedMeans(g, h, b, r, q, p);
  }

  /** On a run that rejects the verdict may change: here a dead load beyond the packet goes. */
  lemma DeadLoadChangesVerdict(p: Packet, r: Regs)
    requires |p.bytes| == 0
    ensures var g := [Block([Stmt(LdAbs(B), 0)], Ret(false, 7))];
            var h := [Block([Stmt(Nop, 0)], Ret(false, 7))];
            Acyclic(g) && Acyclic(h) && Cleaned(g, h) && Walk(g, 0, r, p) == Accept(0) && Walk(h, 0, r, p) == Accept(7)
  {
    var g := [Block([Stmt(LdAbs(B), 0)], Ret(false, 7))];
    var h := [Block([Stmt(Nop, 0)], Ret(false, 7))];
    assert Ranked(g, [0]) && Ranked(h, [0]);
    assert g[0].stmts[0 + 1..] == [];
    assert ExecAll(g[0].stmts, r, p) == Reject;
    assert ExecAll(h[0].stmts[1..], r, p) == Val(r);
    assert ExecAll(h[0].stmts, r, p) == Val(r);
  }

  // --------------------------------------------------- the in-place removal itself

  /** No statement from `i` up to `n` reads `atom`. */
  predicate Unread(ss: seq<Stmt>, atom: nat, i: int, n: int)
    requires 0 <= i && n <= |ss|
  {
    forall j :: i <= j < n ==> atom !in Uses(ss[j])
  }

  lemma {:induction false} DeadUntil(ss: seq<Stmt>, atom: nat, i: nat, n: nat, l: Atoms)
    requires i <= n <= |ss| && Unread(ss, atom, i, n)
    requires if n < |ss| then atom !in Uses(ss[n]) && atom in Defs(ss[n]) else atom !in l
    ensures atom !in LiveIn(ss[i..], l)
    decreases n - i
  {
    if i == |ss| {
      assert ss[i..] == [];
    } else {
      assert ss[i..][0] == ss[i] && ss[i..][1..] == ss[i + 1..];
      if i < n {
        DeadUntil(ss, atom, i + 1, n, l);
      }
    }
  }

  /** No statement from `i` up to `n` writes `atom`. */
  predicate Unset(ss: seq<Stmt>, atom: nat, i: int, n: int)
    requires 0 <= i && n <= |ss|
  {
    forall j :: i <= j < n ==> atom !in Defs(ss[j])
  }

  /** Some statement from `i` up to `n` reads `atom` before any writes it. */
  predicate ReadIn(ss: seq<Stmt>, atom: nat, i: int, n: int)
    requires 0 <= i && n <= |ss|
  {
    exists j :: i <= j < n && atom in Uses(ss[j]) && Unset(ss, atom, i, j)
  }

  lemma {:induction false} LiveIfRead(ss: seq<Stmt>, atom: nat, i: nat, j: nat, l: Atoms)
    requires i <= j <= |ss| && Unset(ss, atom, i, j)
    requires if j < |ss| then atom in Uses(ss[j]) else atom in l
    ensures atom in LiveIn(ss[i..], l)
    decreases j - i
  {
    if i == |ss| {
      assert ss[i..] == [];
    } else {
      assert ss[i..][0] == ss[i] && ss[i..][1..] == ss[i + 1..];
      if i < j {
        LiveIfRead(ss, atom, i + 1, j, l);
      }
    }
  }

  /** `last[a]` is the latest store to `a` among the first `n` statements if none read it since. */
  predicate LastOk(ss: seq<Stmt>, last: seq<int>, n: int)
  {
    && |last| == N_ATOMS && 0 <= n <= |ss|
    && forall a :: 0 <= a < N_ATOMS ==>
         -1 <= last[a] < n && (last[a] >= 0 ==> a in Defs(ss[last[a]]) && Unread(ss, a, last[a] + 1, n) && Unset(ss, a, last[a] + 1, n))
  }

  /** Forgets the pending stores of the registers that are read. */
  method Forget(last: seq<int>, atom: int) returns (last': seq<int>)
    requires |last| == N_ATOMS && -1 <= atom <= AX_ATOM
    ensures |last'| == N_ATOMS
    ensures forall a :: 0 <= a < N_ATOMS ==> last'[a] == if a in UseSet(atom) then -1 else last[a]
  {
    last' := last;
    if atom >= 0 {
      if atom == AX_ATOM {
        last' := last'[X_ATOM := -1];
        last' := last'[A_ATOM := -1];
      } else {
        last' := last'[atom := -1];
      }
    }
  }

  ghost predicate RemovedSoFar(ss: seq<Stmt>, t: seq<Stmt>, n: nat, l: Atoms)
    requires |t| == |ss| && n <= |ss|
  {
    && (forall i :: n <= i < |ss| ==> t[i] == ss[i])
    && DeadRemoved(ss, t, l)
  }

  /** A store among the first `n` is pending, deleted, or was read. */
  predicate Settled(ss: seq<Stmt>, t: seq<Stmt>, last: seq<int>, n: nat, i: nat)
    requires i < n <= |ss| == |t| && |last| == N_ATOMS
  {
    forall a :: a in Defs(ss[i]) && 0 <= a < N_ATOMS ==> last[a] == i || t[i] == ss[i].(code := Nop) || ReadIn(ss, a, i + 1, n)
  }

  ghost predicate AllSettled(ss: seq<Stmt>, t: seq<Stmt>, last: seq<int>, n: nat)
    requires n <= |ss| == |t| && |last| == N_ATOMS
  {
    forall i :: 0 <= i < n ==> Settled(ss, t, last, n, i)
  }

  lemma ReadLater(ss: seq<Stmt>, atom: nat, i: nat, n: nat)
    requires i <= n < |ss|
    ensures ReadIn(ss, atom, i, n) ==> ReadIn(ss, atom, i, n + 1)
    ensures Unset(ss, atom, i, n) && atom in Uses(ss[n]) ==> ReadIn(ss, atom, i, n + 1)
  {
  }

  lemma SettledStep(ss: seq<Stmt>, t: seq<Stmt>, t': seq<Stmt>, last: seq<int>, last': seq<int>, n: nat)
    requires LastOk(ss, last, n) && n < |ss| == |t| == |t'| && |last'| == N_ATOMS && AllSettled(ss, t, last, n)
    requires forall a :: 0 <= a < N_ATOMS ==>
               last'[a] == if a in Defs(ss[n]) then n else if a in Uses(ss[n]) then -1 else last[a]
    requires forall i :: 0 <= i < n && t[i] == ss[i].(code := Nop) ==> t'[i] == t[i]
    requires forall a :: 0 <= a < N_ATOMS && a in Defs(ss[n]) && a !in Uses(ss[n]) && last[a] >= 0 ==>
               t'[last[a]] == ss[last[a]].(code := Nop)
    ensures AllSettled(ss, t', last', n + 1)
  {
    var m := n + 1;
    forall i | 0 <= i < m
      ensures Settled(ss, t', last', m, i)
    {
      if i < n {
        assert Settled(ss, t, last, n, i);
        forall a | a in Defs(ss[i]) && 0 <= a < N_ATOMS
          ensures last'[a] == i || t'[i] == ss[i].(code := Nop) || ReadIn(ss, a, i + 1, n + 1)
        {
          ReadLater(ss, a, i + 1, n);
        }
      }
    }
  }

  /** Exactly the dead stores are deleted. */
  ghost predicate DeadExactly(ss: seq<Stmt>, t: seq<Stmt>, l: Atoms)
  {
    && |t| == |ss|
    && forall i :: 0 <= i < |ss| ==>
         t[i] == if Defs(ss[i]) != {} && Defs(ss[i]) !! LiveIn(ss[i + 1..], l) then ss[i].(code := Nop) else ss[i]
  }

  /** What is neither pending nor deleted in the end is live. */
  lemma NoneLeft(ss: seq<Stmt>, t: seq<Stmt>, last: seq<int>, l: Atoms)
    requires ValidStmts(ss) && LastOk(ss, last, |ss|) && |t| == |ss| && AllSettled(ss, t, last, |ss|) && DeadRemoved(ss, t, l)
    requires forall a :: 0 <= a < N_ATOMS && last[a] >= 0 && a !in l ==> t[last[a]] == ss[last[a]].(code := Nop)
    ensures DeadExactly(ss, t, l)
  {
    forall i | 0 <= i < |ss|
      ensures t[i] == if Defs(ss[i]) != {} && Defs(ss[i]) !! LiveIn(ss[i + 1..], l) then ss[i].(code := Nop) else ss[i]
    {
      assert Settled(ss, t, last, |ss|, i);
      NoneLeftAt(ss, t, last, l, i);
    }
  }

  lemma NoneLeftAt(ss: seq<Stmt>, t: seq<Stmt>, last: seq<int>, l: Atoms, i: nat)
    requires ValidStmts(ss) && LastOk(ss, last, |ss|) && i < |ss| == |t| && Settled(ss, t, last, |ss|, i) && DeadRemoved(ss, t, l)
    requires forall a :: 0 <= a < N_ATOMS && last[a] >= 0 && a !in l ==> t[last[a]] == ss[last[a]].(code := Nop)
    ensures t[i] == if Defs(ss[i]) != {} && Defs(ss[i]) !! LiveIn(ss[i + 1..], l) then ss[i].(code := Nop) else ss[i]
  {
    if AtomDef(ss[i]) >= 0 {
      var a := AtomDef(ss[i]);
      assert Defs(ss[i]) == {a} && a < N_ATOMS;
      if t[i] != ss[i].(code := Nop) {
        if last[a] == i {
          LiveIfRead(ss, a, i + 1, |ss|, l);
        } else {
          var j :| i + 1 <= j < |ss| && a in Uses(ss[j]) && Unset(ss, a, i + 1, j);
          LiveIfRead(ss, a, i + 1, j, l);
        }
      }
    }
  }

  lemma LastStep(ss: seq<Stmt>, last: seq<int>, last': seq<int>, n: nat)
    requires LastOk(ss, last, n) && n < |ss| && |last'| == N_ATOMS
    requires forall a :: 0 <= a < N_ATOMS ==>
               last'[a] == if a in Defs(ss[n]) then n else if a in Uses(ss[n]) then -1 else last[a]
    ensures LastOk(ss, last', n + 1)
  {
  }

  /** Deleting one more dead store. */
  lemma DeleteOne(ss: seq<Stmt>, t: seq<Stmt>, i: nat, l: Atoms)
    requires DeadRemoved(ss, t, l) && i < |ss| && Defs(ss[i]) !! LiveIn(ss[i + 1..], l)
    ensures DeadRemoved(ss, t[i := t[i].(code := Nop)], l)
  {
  }

  /** Statement `n` is processed: what it reads is no longer pending, what it overwrites and is
      still pending was dead. */
  method DeadStmt(stmts: array<Stmt>, n: nat, last: seq<int>, ghost ss: seq<Stmt>, ghost l: Atoms) returns (last': seq<int>)
    requires n < stmts.Length == |ss| && ValidStmts(ss) && LastOk(ss, last, n) && RemovedSoFar(ss, stmts[..], n, l)
    requires AllSettled(ss, stmts[..], last, n)
    modifies stmts
    ensures LastOk(ss, last', n + 1) && RemovedSoFar(ss, stmts[..], n + 1, l) && AllSettled(ss, stmts[..], last', n + 1)
  {
    ghost var t := stmts[..];
    var s := stmts[n];
    last' := Forget(last, AtomUse(s));
    var atom := AtomDef(s);
    if atom >= 0 {
      if last'[atom] >= 0 {
        var i := last'[atom];
        DeadUntil(ss, atom, i + 1, n, l);
        DeleteOne(ss, stmts[..], i, l);
        stmts[i] := stmts[i].(code := Nop);
      }
      last' := last'[atom := n];
    }
    LastStep(ss, last, last', n);
    SettledStep(ss, t, stmts[..], last, last', n);
  }

  /** Removes exactly the stores that are dead when the branch and `outUse` are all that is read after
      the block. */
  method OptDeadstores(stmts: array<Stmt>, s: Term, outUse: Atoms)
    requires ValidStmts(stmts[..])
    modifies stmts
    ensures DeadExactly(old(stmts[..]), stmts[..], LiveEnd(s, outUse))
    ensures DeadRemoved(old(stmts[..]), stmts[..], LiveEnd(s, outUse))
  {
    ghost var ss, l := stmts[..], LiveEnd(s, outUse);
    var last := seq(N_ATOMS, _ => -1);
    for n := 0 to stmts.Length
      invariant LastOk(ss, last, n) && RemovedSoFar(ss, stmts[..], n, l) && AllSettled(ss, stmts[..], last, n)
    {
      last := DeadStmt(stmts, n, last, ss, l);
    }
    ghost var pending := last;
    last := Forget(last, TermAtomUse(s));
    RemovePending(stmts, last, outUse, ss, l, pending);
    NoneLeft(ss, stmts[..], pending, l);
  }

  /** Deletes the stores still pending at the end of the block. */
  method RemovePending(stmts: array<Stmt>, last: seq<int>, outUse: Atoms, ghost ss: seq<Stmt>, ghost l: Atoms, ghost pending: seq<int>)
    requires stmts.Length == |ss| && LastOk(ss, pending, |ss|) && DeadRemoved(ss, stmts[..], l)
    requires |last| == N_ATOMS && forall a :: 0 <= a < N_ATOMS ==> last[a] == pending[a] || (last[a] == -1 && a in l)
    requires forall a :: 0 <= a < N_ATOMS && a !in outUse && last[a] >= 0 ==> a !in l
    requires outUse <= l && AllSettled(ss, stmts[..], pending, |ss|)
    modifies stmts
    ensures DeadRemoved(ss, stmts[..], l) && AllSettled(ss, stmts[..], pending, |ss|)
    ensures forall a :: 0 <= a < N_ATOMS && pending[a] >= 0 && a !in l ==> stmts[pending[a]] == ss[pending[a]].(code := Nop)
  {
    for atom := 0 to N_ATOMS
      invariant DeadRemoved(ss, stmts[..], l) && AllSettled(ss, stmts[..], pending, |ss|)
      invariant forall a :: 0 <= a < atom && pending[a] >= 0 && a !in l ==> stmts[pending[a]] == ss[pending[a]].(code := Nop)
    {
      if last[atom] >= 0 && atom !in outUse {
        var i := last[atom];
        DeadUntil(ss, atom, i + 1, |ss|, l);
        DeleteOne(ss, stmts[..], i, l);
        SettledDelete(ss, stmts[..], pending, i);
        stmts[i] := stmts[i].(code := Nop);
      }
    }
  }

  lemma SettledDelete(ss: seq<Stmt>, t: seq<Stmt>, last: seq<int>, i: nat)
    requires i < |ss| == |t| && |last| == N_ATOMS && AllSettled(ss, t, last, |ss|) && t[i].k == ss[i].k
    ensures AllSettled(ss, t[i := t[i].(code := Nop)], last, |ss|)
  {
    var t' := t[i := t[i].(code := Nop)];
    forall k: nat | k < |ss|
      ensures Settled(ss, t', last, |ss|, k)
    {
      assert Settled(ss, t, last, |ss|, k);
    }
  }
}
