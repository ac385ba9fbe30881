/**
 Value numbering of straight-line statements.  A value number names a node of an
 expression table; its meaning depends on the packet alone.  `OptStmt` is the
 symbolic execution of one statement together with the rewriting it may do.
 */
module Values {
  import opened Bpf
  import opened Liveness

  /** An entry of the value table: `v0` and `v1` are constants or older value numbers,
      depending on the code. */
  datatype Node = Node(code: Code, v0: nat, v1: nat)

  /** Value number `v` is entry `v - 1`.  Number 0 means unknown. */
  type Nodes = seq<Node>

  type Vals = v: seq<nat> | |v| == 18 witness seq(18, _ => 0)

  const UNKNOWN: Vals := seq(18, _ => 0)

  // ------------------------------------------------------------------ the table

  function FindFrom(nodes: Nodes, n: Node, i: nat): (v: nat)
    requires i <= |nodes|
    ensures v == 0 || (i < v <= |nodes| && nodes[v - 1] == n)
    ensures v == 0 ==> forall j :: i <= j < |nodes| ==> nodes[j] != n
    decreases |nodes| - i
  {
    if i == |nodes| then 0 else if nodes[i] == n then i + 1 else FindFrom(nodes, n, i + 1)
  }

  /** The table after looking `n` up, entering it if it is new. */
  function Enter(nodes: Nodes, n: Node): (r: Nodes)
    ensures |r| <= |nodes| + 1
  {
    if FindFrom(nodes, n, 0) == 0 then nodes + [n] else nodes
  }

  /** The number of `n`. */
  function Number(nodes: Nodes, n: Node): (v: nat)
    ensures 0 < v <= |Enter(nodes, n)| && Enter(nodes, n)[v - 1] == n
  {
    var v := FindFrom(nodes, n, 0);
    if v == 0 then |nodes| + 1 else v
  }

  function Const(k: Word): Node
  {
    Node(LdImm, k, 0)
  }

  predicate IsConst(nodes: Nodes, v: nat)
  {
    0 < v <= |nodes| && nodes[v - 1].code == LdImm && nodes[v - 1].v0 < WORD
  }

  function ConstVal(nodes: Nodes, v: nat): Word
    requires IsConst(nodes, v)
  {
    nodes[v - 1].v0
  }

  /** Operands of a node are older than the node, constants are words, and no two nodes are equal. */
  ghost predicate WfNodes(nodes: Nodes)
  {
    && (forall i :: 0 <= i < |nodes| ==> WfNode(nodes[i], i))
    && forall i, j :: 0 <= i < j < |nodes| ==> nodes[i] != nodes[j]
  }

  predicate WfNode(n: Node, i: nat)
  {
    match n.code
    case LdAbs(_) | LdLen | LdxMsh => n.v0 < WORD
    case LdImm => n.v0 < WORD && n.v1 == 0
    case LdInd(_) => n.v0 < WORD && n.v1 <= i
    case Neg => n.v0 <= i
    case AluK(_) | AluX(_) => n.v0 <= i && n.v1 <= i
    case _ => false
  }

  // ------------------------------------------------------------- what numbers mean

  /** The value of a node whose operands have the values `a` and `b`. */
  function NodeVal(n: Node, a: Outcome<Word>, b: Outcome<Word>, p: Packet): Outcome<Word>
  {
    match n.code
    case LdAbs(size) => if n.v0 < WORD then Load(size, n.v0, p) else Undef
    case LdInd(size) => if n.v0 < WORD && b.Val? then Load(size, Plus(b.v, n.v0), p) else Undef
    case LdLen => Val(p.wirelen)
    case LdImm => if n.v0 < WORD then Val(n.v0) else Undef
    case LdxMsh => if n.v0 < WORD then LoadMsh(n.v0, p) else Undef
    case Neg => if a.Val? then Val(Negate(a.v)) else Undef
    case AluK(op) => if a.Val? && b.Val? then Alu(op, false, a.v, b.v) else Undef
    case AluX(op) => if a.Val? && b.Val? then Alu(op, true, a.v, b.v) else Undef
    case _ => Undef
  }

  /** The value number `v` stands for, as a function of the packet alone. */
  function Meaning(nodes: Nodes, v: nat, p: Packet): Outcome<Word>
    decreases v
  {
    if v == 0 || v > |nodes| then Undef
    else
      var n := nodes[v - 1];
      var a := if n.v0 < v then Meaning(nodes, n.v0, p) else Undef;
      var b := if n.v1 < v then Meaning(nodes, n.v1, p) else Undef;
      NodeVal(n, a, b, p)
  }

  lemma {:induction false} MeaningStable(nodes: Nodes, nodes': Nodes, v: nat, p: Packet)
    requires nodes <= nodes' && v <= |nodes|
    ensures Meaning(nodes', v, p) == Meaning(nodes, v, p)
    decreases v
  {
    if v > 0 {
      var n := nodes[v - 1];
      if n.v0 < v {
        MeaningStable(nodes, nodes', n.v0, p);
      }
      if n.v1 < v {
        MeaningStable(nodes, nodes', n.v1, p);
      }
    }
  }

  /** Every register with a known number holds what that number means. */
  ghost predicate Sound(nodes: Nodes, val: Vals, r: Regs, p: Packet)
  {
    forall a :: 0 <= a < N_ATOMS && val[a] != 0 ==> Meaning(nodes, val[a], p) == Val(r[a])
  }

  predicate InTable(nodes: Nodes, val: Vals)
  {
    forall a :: 0 <= a < N_ATOMS ==> val[a] <= |nodes|
  }

  lemma SoundStable(nodes: Nodes, nodes': Nodes, val: Vals, r: Regs, p: Packet)
    requires nodes <= nodes' && InTable(nodes, val)
    ensures Sound(nodes, val, r, p) <==> Sound(nodes', val, r, p)
    ensures InTable(nodes', val)
  {
    forall a | 0 <= a < N_ATOMS
      ensures Meaning(nodes', val[a], p) == Meaning(nodes, val[a], p)
    {
      MeaningStable(nodes, nodes', val[a], p);
    }
  }

  lemma EnterWf(nodes: Nodes, n: Node)
    requires WfNodes(nodes) && WfNode(n, |nodes|)
    ensures WfNodes(Enter(nodes, n)) && nodes <= Enter(nodes, n) && |Enter(nodes, n)| <= |nodes| + 1
    ensures WfNode(n, Number(nodes, n) - 1)
  {
  }

  /** Looking a node up keeps the table well formed, and the number returned means what the
      node means. */
  lemma EnterSound(nodes: Nodes, n: Node, p: Packet)
    requires WfNodes(nodes) && WfNode(n, |nodes|)
    ensures WfNodes(Enter(nodes, n)) && nodes <= Enter(nodes, n) && |Enter(nodes, n)| <= |nodes| + 1
    ensures Meaning(Enter(nodes, n), Number(nodes, n), p) ==
            NodeVal(n, Meaning(nodes, n.v0, p), Meaning(nodes, n.v1, p), p)
  {
    EnterWf(nodes, n);
    var nodes', v := Enter(nodes, n), Number(nodes, n);
    var a := if n.v0 < v then Meaning(nodes', n.v0, p) else Undef;
    var b := if n.v1 < v then Meaning(nodes', n.v1, p) else Undef;
    assert Meaning(nodes', v, p) == NodeVal(n, a, b, p);
    if n.v0 < v && n.v0 <= |nodes| {
      MeaningStable(nodes, nodes', n.v0, p);
    }
    if n.v1 < v && n.v1 <= |nodes| {
      MeaningStable(nodes, nodes', n.v1, p);
    }
    OperandsMatter(n, v - 1, a, b, Meaning(nodes, n.v0, p), Meaning(nodes, n.v1, p), p);
  }

  /** The value of a node depends only on the operands its code has. */
  lemma OperandsMatter(n: Node, i: nat, a: Outcome<Word>, b: Outcome<Word>, c: Outcome<Word>, d: Outcome<Word>, p: Packet)
    requires WfNode(n, i) && (n.v0 <= i ==> a == c) && (n.v1 <= i ==> b == d)
    ensures NodeVal(n, a, b, p) == NodeVal(n, c, d, p)
  {
  }

  lemma ConstMeans(nodes: Nodes, v: nat, p: Packet)
    requires IsConst(nodes, v)
    ensures Meaning(nodes, v, p) == Val(ConstVal(nodes, v))
  {
  }

  /** Equal numbers are given out exactly for equal nodes. */
  lemma {:induction false} NumberExact(nodes: Nodes, m: Node, n: Node)
    requires WfNodes(nodes) && WfNode(m, |nodes|)
    ensures var nodes' := Enter(nodes, m); Number(nodes, m) == Number(nodes', n) <==> m == n
  {
    var nodes' := Enter(nodes, m);
    var v := FindFrom(nodes', m, 0);
    assert nodes'[Number(nodes, m) - 1] == m;
  }

  // ------------------------------------------------------------------- opt_stmt

  datatype Opt = Opt(s: Stmt, val: Vals, nodes: Nodes) | Abandon

  /** Stores a number, or deletes the statement if the register already has it. */
  function Vstore(s: Stmt, val: Vals, atom: nat, v: nat, nodes: Nodes, alter: bool): Opt
    requires atom < N_ATOMS
  {
    if alter && val[atom] == v then Opt(s.(code := Nop), val, nodes) else Opt(s, val[atom := v], nodes)
  }

  /** Replaces the statement by a load of `k` and numbers the accumulator accordingly. */
  function LoadConst(s: Stmt, val: Vals, k: Word, nodes: Nodes): Opt
  {
    Opt(Stmt(LdImm, k), val[A_ATOM := Number(nodes, Const(k))], Enter(nodes, Const(k)))
  }

  /** A shift out of range, which the language leaves undefined: the count is taken modulo 32. */
  function WideShift(op: AluOp, a: Word, b: Word): Word
  {
    match Alu(op, false, a, b % 32) case Val(c) => c case _ => 0
  }

  /** The constant an operation on two constants comes to. */
  function FoldValue(op: AluOp, a: Word, b: Word): Word
  {
    match Alu(op, false, a, b) case Val(c) => c case _ => WideShift(op, a, b)
  }

  /** Folds an operation on two constants; a zero divisor is a compilation error. */
  function Fold(s: Stmt, val: Vals, op: AluOp, a: Word, b: Word, nodes: Nodes): Opt
  {
    if op == Div && b == 0 then Abandon else LoadConst(s, val, FoldValue(op, a, b), nodes)
  }

  function OptAluK(s: Stmt, op: AluOp, val: Vals, nodes: Nodes, alter: bool): Opt
  {
    if alter && s.k == 0 && (op == Add || op == Lsh || op == Rsh || op == BitOr) then
      Opt(s.(code := Nop), val, nodes)
    else if alter && s.k == 0 && (op == Mul || op == BitAnd) then
      LoadConst(s, val, 0, nodes)
    else
      var nodes1, kn := Enter(nodes, Const(s.k)), Number(nodes, Const(s.k));
      if alter && IsConst(nodes, val[A_ATOM]) then
        Fold(s, val, op, ConstVal(nodes, val[A_ATOM]), s.k, nodes1)
      else
        var n := Node(AluK(op), val[A_ATOM], kn);
        Opt(Stmt(AluK(op), s.k), val[A_ATOM := Number(nodes1, n)], Enter(nodes1, n))
  }

  function OptAluX(s: Stmt, op: AluOp, val: Vals, nodes: Nodes, alter: bool): Opt
  {
    var va, vx := val[A_ATOM], val[X_ATOM];
    if alter && IsConst(nodes, vx) then
      var c := ConstVal(nodes, vx);
      if IsConst(nodes, va) then
        Fold(s, val, op, ConstVal(nodes, va), c, nodes)
      else
        var nodes1, kn := Enter(nodes, Const(c)), Number(nodes, Const(c));
        var n := Node(AluK(op), va, kn);
        Opt(Stmt(AluK(op), c), val[A_ATOM := Number(nodes1, n)], Enter(nodes1, n))
    else if alter && IsConst(nodes, va) && ConstVal(nodes, va) == 0 && (op == Add || op == BitOr) then
      Vstore(s.(code := Txa), val, A_ATOM, vx, nodes, alter)
    else if alter && IsConst(nodes, va) && ConstVal(nodes, va) == 0 && op != Sub then
      Vstore(Stmt(LdImm, 0), val, A_ATOM, Number(nodes, Const(0)), Enter(nodes, Const(0)), alter)
    else
      var n := Node(AluX(op), va, vx);
      Opt(s, val[A_ATOM := Number(nodes, n)], Enter(nodes, n))
  }

  /** Symbolic execution of one statement, rewriting it when `alter` is set. */
  function OptStmt(s: Stmt, val: Vals, nodes: Nodes, alter: bool): Opt
    requires ValidStmt(s)
  {
    match s.code
    case LdAbs(_) =>
      var n := Node(s.code, s.k, 0);
      Vstore(s, val, A_ATOM, Number(nodes, n), Enter(nodes, n), alter)
    case LdxMsh =>
      var n := Node(s.code, s.k, 0);
      Vstore(s, val, X_ATOM, Number(nodes, n), Enter(nodes, n), alter)
    case LdInd(size) =>
      if alter && IsConst(nodes, val[X_ATOM]) then
        var k := Plus(ConstVal(nodes, val[X_ATOM]), s.k);
        var n := Node(LdAbs(size), k, 0);
        Vstore(Stmt(LdAbs(size), k), val, A_ATOM, Number(nodes, n), Enter(nodes, n), alter)
      else
        var n := Node(s.code, s.k, val[X_ATOM]);
        Vstore(s, val, A_ATOM, Number(nodes, n), Enter(nodes, n), alter)
    case LdLen =>
      var n := Node(s.code, 0, 0);
      Vstore(s, val, A_ATOM, Number(nodes, n), Enter(nodes, n), alter)
    case LdImm => Vstore(s, val, A_ATOM, Number(nodes, Const(s.k)), Enter(nodes, Const(s.k)), alter)
    case LdxImm => Vstore(s, val, X_ATOM, Number(nodes, Const(s.k)), Enter(nodes, Const(s.k)), alter)
    case Neg =>
      if alter && IsConst(nodes, val[A_ATOM]) then
        LoadConst(s, val, Negate(ConstVal(nodes, val[A_ATOM])), nodes)
      else
        var n := Node(Neg, val[A_ATOM], 0);
        Opt(s, val[A_ATOM := Number(nodes, n)], Enter(nodes, n))
    case AluK(op) => OptAluK(s, op, val, nodes, alter)
    case AluX(op) => OptAluX(s, op, val, nodes, alter)
    case Txa => Vstore(s, val, A_ATOM, val[X_ATOM], nodes, alter)
    case Tax => Vstore(s, val, X_ATOM, val[A_ATOM], nodes, alter)
    case LdMem =>
      var v := val[s.k];
      Vstore(if alter && IsConst(nodes, v) then Stmt(LdImm, ConstVal(nodes, v)) else s, val, A_ATOM, v, nodes, alter)
    case LdxMem =>
      var v := val[s.k];
      Vstore(if alter && IsConst(nodes, v) then Stmt(LdxImm, ConstVal(nodes, v)) else s, val, X_ATOM, v, nodes, alter)
    case St => Vstore(s, val, s.k, val[A_ATOM], nodes, alter)
    case Stx => Vstore(s, val, s.k, val[X_ATOM], nodes, alter)
    case Nop | LdxLen => Opt(s, val, nodes)
  }

  /** A statement takes at most two new numbers. */
  lemma NumbersUsed(s: Stmt, val: Vals, nodes: Nodes, alter: bool)
    requires ValidStmt(s)
    ensures OptStmt(s, val, nodes, alter).Opt? ==> |OptStmt(s, val, nodes, alter).nodes| <= |nodes| + 2
  {
    hide Enter, Number, IsConst, Alu, Plus, Negate;
  }

  /** A rewritten statement reads and writes no more registers, and numbers only the one it wrote. */
  lemma OptStmtShrinks(s: Stmt, val: Vals, nodes: Nodes, alter: bool)
    requires ValidStmt(s) && OptStmt(s, val, nodes, alter).Opt?
    ensures var o := OptStmt(s, val, nodes, alter);
            && Uses(o.s) <= Uses(s) && Defs(o.s) <= Defs(s)
            && forall x :: 0 <= x < N_ATOMS && x !in Defs(s) ==> o.val[x] == val[x]
  {
    hide Enter, Number, IsConst, Alu, Plus, Negate;
  }

  // ------------------------------------------------------- soundness, one statement

  /** The statement reads only registers whose number is known. */
  predicate Known(s: Stmt, val: Vals)
  {
    forall a :: a in Uses(s) && 0 <= a < N_ATOMS ==> val[a] != 0
  }

  /** A copy from one register to another: wrong only if it is deleted between two unknown ones. */
  predicate Copies(val: Vals, src: nat, dst: nat, alter: bool)
    requires src < N_ATOMS && dst < N_ATOMS
  {
    val[src] != 0 || !(alter && val[dst] == 0)
  }

  /** A constant operation whose result does not depend on the accumulator's number. */
  predicate Neutral(s: Stmt, op: AluOp, alter: bool)
  {
    alter && s.k == 0 && (op == Add || op == Lsh || op == Rsh || op == BitOr || op == Mul || op == BitAnd)
  }

  predicate IsZero(nodes: Nodes, v: nat)
  {
    IsConst(nodes, v) && ConstVal(nodes, v) == 0
  }

  /** The numbers of the registers are good enough for this statement. */
  predicate Readable(s: Stmt, val: Vals, nodes: Nodes, alter: bool)
    requires ValidStmt(s)
  {
    match s.code
    case LdInd(_) => val[X_ATOM] != 0
    case Neg => val[A_ATOM] != 0
    case AluK(op) => val[A_ATOM] != 0 || Neutral(s, op, alter)
    case AluX(op) => val[A_ATOM] != 0 && (val[X_ATOM] != 0 || (alter && op != Sub && IsZero(nodes, val[A_ATOM])))
    case Txa => Copies(val, X_ATOM, A_ATOM, alter)
    case Tax => Copies(val, A_ATOM, X_ATOM, alter)
    case LdMem => Copies(val, s.k, A_ATOM, alter)
    case LdxMem => Copies(val, s.k, X_ATOM, alter)
    case St => Copies(val, A_ATOM, s.k, alter)
    case Stx => Copies(val, X_ATOM, s.k, alter)
    case LdxLen => val[X_ATOM] == 0 || (val[X_ATOM] <= |nodes| && nodes[val[X_ATOM] - 1] == Node(LdLen, 0, 0))
    case _ => true
  }

  lemma KnownReadable(s: Stmt, val: Vals, nodes: Nodes, alter: bool)
    requires ValidStmt(s) && s.code != LdxLen && Known(s, val)
    ensures Readable(s, val, nodes, alter)
  {
    match s.code {
      case LdMem | LdxMem => assert s.k in Uses(s);
      case LdInd(_) | Stx | Txa => assert X_ATOM in Uses(s);
      case St | AluK(_) | Neg | Tax => assert A_ATOM in Uses(s);
      case AluX(_) => assert A_ATOM in Uses(s) && X_ATOM in Uses(s);
      case _ =>
    }
  }

  /** What has to be shown of one step. */
  ghost predicate StepOk(o: Opt, nodes: Nodes, r: Regs, r': Regs, p: Packet)
  {
    o.Opt? ==>
      && WfNodes(o.nodes) && nodes <= o.nodes && |o.nodes| <= |nodes| + 2 && InTable(o.nodes, o.val)
      && Exec(o.s, r, p) == Val(r') && Sound(o.nodes, o.val, r', p)
  }

  lemma AluIdentities(a: Word, byX: bool)
    ensures Alu(Add, byX, a, 0) == Val(a) && Alu(BitOr, byX, a, 0) == Val(a)
    ensures Alu(Lsh, byX, a, 0) == Val(a) && Alu(Rsh, byX, a, 0) == Val(a)
    ensures Alu(Mul, byX, a, 0) == Val(0) && Alu(BitAnd, byX, a, 0) == Val(0)
    ensures Alu(Add, byX, 0, a) == Val(a) && Alu(BitOr, byX, 0, a) == Val(a)
  {
    assert Pow2(0) == 1;
    assert a * 1 == a && a / 1 == a && a * 0 == 0;
  }

  lemma AluOfZero(op: AluOp, a: Word)
    requires op != Add && op != BitOr && op != Sub && Alu(op, true, 0, a).Val?
    ensures Alu(op, true, 0, a) == Val(0)
  {
    if op == Lsh || op == Rsh {
      assert 0 * Pow2(a) == 0;
      assert 0 / Pow2(a) == 0;
    } else if op == Mul {
      assert 0 * a == 0;
    }
  }

  /** Setting one register to a value its new number means. */
  lemma SoundSet(nodes: Nodes, nodes': Nodes, val: Vals, r: Regs, p: Packet, atom: nat, v: nat, w: Word)
    requires nodes <= nodes' && InTable(nodes, val) && Sound(nodes, val, r, p) && atom < N_ATOMS
    requires v <= |nodes'| && Meaning(nodes', v, p) == Val(w)
    ensures Sound(nodes', val[atom := v], r[atom := w], p) && InTable(nodes', val[atom := v])
    ensures val[atom] == v ==> r[atom := w] == r && Sound(nodes', val, r, p) && InTable(nodes', val)
  {
    SoundStable(nodes, nodes', val, r, p);
    assert Meaning(nodes', 0, p) == Undef;
    if val[atom] == v {
      assert Meaning(nodes', val[atom], p) == Val(r[atom]);
    }
  }

  /** A statement that sets `atom` to `w`, stored through Vstore under a number meaning `w`. */
  lemma VstoreOk(s: Stmt, val: Vals, atom: nat, v: nat, nodes: Nodes, nodes': Nodes, alter: bool,
                 r: Regs, p: Packet, w: Word)
    requires WfNodes(nodes') && nodes <= nodes' && |nodes'| <= |nodes| + 2 && InTable(nodes, val) && Sound(nodes, val, r, p)
    requires atom < N_ATOMS && v <= |nodes'| && Meaning(nodes', v, p) == Val(w)
    requires Exec(s, r, p) == Val(r[atom := w])
    ensures StepOk(Vstore(s, val, atom, v, nodes', alter), nodes, r, r[atom := w], p)
    ensures StepOk(Opt(s, val[atom := v], nodes'), nodes, r, r[atom := w], p)
  {
    SoundSet(nodes, nodes', val, r, p, atom, v, w);
  }

  /** A statement that sets `atom` to anything, after which its number is unknown. */
  lemma ForgetOk(s: Stmt, val: Vals, atom: nat, nodes: Nodes, alter: bool, r: Regs, p: Packet, w: Word)
    requires WfNodes(nodes) && InTable(nodes, val) && Sound(nodes, val, r, p) && atom < N_ATOMS
    requires !(alter && val[atom] == 0) && Exec(s, r, p) == Val(r[atom := w])
    ensures StepOk(Vstore(s, val, atom, 0, nodes, alter), nodes, r, r[atom := w], p)
  {
  }

  /** A copy, stored under the number of its source. */
  lemma CopyOk(s: Stmt, val: Vals, src: nat, dst: nat, nodes: Nodes, alter: bool, r: Regs, p: Packet)
    requires WfNodes(nodes) && InTable(nodes, val) && Sound(nodes, val, r, p) && src < N_ATOMS && dst < N_ATOMS
    requires Copies(val, src, dst, alter) && Exec(s, r, p) == Val(r[dst := r[src]])
    ensures StepOk(Vstore(s, val, dst, val[src], nodes, alter), nodes, r, r[dst := r[src]], p)
  {
    if val[src] != 0 {
      VstoreOk(s, val, dst, val[src], nodes, nodes, alter, r, p, r[src]);
    } else {
      ForgetOk(s, val, dst, nodes, alter, r, p, r[src]);
    }
  }

  lemma LoadConstOk(s: Stmt, val: Vals, k: Word, nodes: Nodes, nodes1: Nodes, r: Regs, p: Packet)
    requires WfNodes(nodes1) && nodes <= nodes1 && |nodes1| <= |nodes| + 1 && InTable(nodes, val) && Sound(nodes, val, r, p)
    ensures StepOk(LoadConst(s, val, k, nodes1), nodes, r, r[A_ATOM := k], p)
  {
    EnterSound(nodes1, Const(k), p);
    VstoreOk(Stmt(LdImm, k), val, A_ATOM, Number(nodes1, Const(k)), nodes, Enter(nodes1, Const(k)), false, r, p, k);
  }

  lemma FoldOk(s: Stmt, val: Vals, op: AluOp, a: Word, b: Word, nodes: Nodes, nodes1: Nodes, r: Regs, p: Packet, w: Word)
    requires WfNodes(nodes1) && nodes <= nodes1 && |nodes1| <= |nodes| + 1 && InTable(nodes, val) && Sound(nodes, val, r, p)
    requires Alu(op, false, a, b) == Val(w)
    ensures StepOk(Fold(s, val, op, a, b, nodes1), nodes, r, r[A_ATOM := w], p)
  {
    LoadConstOk(s, val, w, nodes, nodes1, r, p);
  }

  lemma OptAluKOk(s: Stmt, op: AluOp, val: Vals, nodes: Nodes, alter: bool, r: Regs, p: Packet, w: Word)
    requires s.code == AluK(op) && WfNodes(nodes) && InTable(nodes, val) && Sound(nodes, val, r, p)
    requires val[A_ATOM] != 0 || Neutral(s, op, alter)
    requires Alu(op, false, r[A_ATOM], s.k) == Val(w)
    ensures StepOk(OptAluK(s, op, val, nodes, alter), nodes, r, r[A_ATOM := w], p)
  {
    AluIdentities(r[A_ATOM], false);
    if alter && s.k == 0 && (op == Add || op == Lsh || op == Rsh || op == BitOr) {
      assert r[A_ATOM := w] == r;
    } else if alter && s.k == 0 && (op == Mul || op == BitAnd) {
      LoadConstOk(s, val, 0, nodes, nodes, r, p);
    } else {
      EnterSound(nodes, Const(s.k), p);
      var nodes1, kn := Enter(nodes, Const(s.k)), Number(nodes, Const(s.k));
      if alter && IsConst(nodes, val[A_ATOM]) {
        ConstMeans(nodes, val[A_ATOM], p);
        FoldOk(s, val, op, r[A_ATOM], s.k, nodes, nodes1, r, p, w);
      } else {
        AluNodeOk(s, op, false, val, nodes, nodes1, kn, r, p, s.k, w);
      }
    }
  }

  /** The general case of an operation: a new node over the operands' numbers. */
  lemma AluNodeOk(s: Stmt, op: AluOp, byX: bool, val: Vals, nodes: Nodes, nodes1: Nodes, vb: nat, r: Regs, p: Packet, b: Word, w: Word)
    requires WfNodes(nodes1) && nodes <= nodes1 && |nodes1| <= |nodes| + 1
    requires InTable(nodes, val) && Sound(nodes, val, r, p) && val[A_ATOM] != 0
    requires vb <= |nodes1| && Meaning(nodes1, vb, p) == Val(b) && Alu(op, byX, r[A_ATOM], b) == Val(w)
    requires Exec(s, r, p) == Val(r[A_ATOM := w])
    ensures var n := Node(if byX then AluX(op) else AluK(op), val[A_ATOM], vb);
            StepOk(Opt(s, val[A_ATOM := Number(nodes1, n)], Enter(nodes1, n)), nodes, r, r[A_ATOM := w], p)
  {
    var n := Node(if byX then AluX(op) else AluK(op), val[A_ATOM], vb);
    SoundStable(nodes, nodes1, val, r, p);
    EnterSound(nodes1, n, p);
    VstoreOk(s, val, A_ATOM, Number(nodes1, n), nodes, Enter(nodes1, n), false, r, p, w);
  }

  /** The constant and register forms differ only where the register form rejects. */
  lemma AluForms(op: AluOp, a: Word, b: Word)
    requires Alu(op, true, a, b).Val?
    ensures Alu(op, false, a, b) == Alu(op, true, a, b)
  {
  }

  /** With a constant in X the statement is folded or turned into the constant form. */
  lemma OptAluXConstOk(s: Stmt, op: AluOp, val: Vals, nodes: Nodes, r: Regs, p: Packet, c: Word, w: Word)
    requires s.code == AluX(op) && WfNodes(nodes) && InTable(nodes, val) && Sound(nodes, val, r, p)
    requires val[A_ATOM] != 0 && IsConst(nodes, val[X_ATOM]) && ConstVal(nodes, val[X_ATOM]) == c
    requires Alu(op, false, r[A_ATOM], c) == Val(w)
    ensures StepOk(OptAluX(s, op, val, nodes, true), nodes, r, r[A_ATOM := w], p)
  {
    hide WideShift, Alu, Enter, Number, Meaning;
    if IsConst(nodes, val[A_ATOM]) {
      ConstMeans(nodes, val[A_ATOM], p);
      FoldOk(s, val, op, r[A_ATOM], c, nodes, nodes, r, p, w);
    } else {
      EnterSound(nodes, Const(c), p);
      var t := Stmt(AluK(op), c);
      assert Exec(t, r, p) == Put(r, A_ATOM, Alu(op, false, r[A_ATOM], c));
      AluNodeOk(t, op, false, val, nodes, Enter(nodes, Const(c)), Number(nodes, Const(c)), r, p, c, w);
    }
  }

  lemma OptAluXOk(s: Stmt, op: AluOp, val: Vals, nodes: Nodes, alter: bool, r: Regs, p: Packet, w: Word)
    requires s.code == AluX(op) && WfNodes(nodes) && InTable(nodes, val) && Sound(nodes, val, r, p)
    requires val[A_ATOM] != 0 && (val[X_ATOM] != 0 || (alter && op != Sub && IsZero(nodes, val[A_ATOM])))
    requires Alu(op, true, r[A_ATOM], r[X_ATOM]) == Val(w)
    ensures StepOk(OptAluX(s, op, val, nodes, alter), nodes, r, r[A_ATOM := w], p)
  {
    var va, vx := val[A_ATOM], val[X_ATOM];
    AluIdentities(r[X_ATOM], true);
    if alter && IsConst(nodes, vx) {
      ConstMeans(nodes, vx, p);
      AluForms(op, r[A_ATOM], r[X_ATOM]);
      OptAluXConstOk(s, op, val, nodes, r, p, r[X_ATOM], w);
    } else if alter && IsConst(nodes, va) && ConstVal(nodes, va) == 0 && (op == Add || op == BitOr) {
      ConstMeans(nodes, va, p);
      CopyOk(s.(code := Txa), val, X_ATOM, A_ATOM, nodes, alter, r, p);
    } else if alter && IsConst(nodes, va) && ConstVal(nodes, va) == 0 && op != Sub {
      ConstMeans(nodes, va, p);
      AluOfZero(op, r[X_ATOM]);
      EnterSound(nodes, Const(0), p);
      VstoreOk(Stmt(LdImm, 0), val, A_ATOM, Number(nodes, Const(0)), nodes, Enter(nodes, Const(0)), alter, r, p, 0);
    } else {
      AluNodeOk(s, op, true, val, nodes, nodes, vx, r, p, r[X_ATOM], w);
    }
  }

  /** The main step: if the numbers are sound, good enough for the statement, and it does not reject,
      then the rewritten statement does the same and the new numbers are sound. */
  lemma OptStmtSound(s: Stmt, val: Vals, nodes: Nodes, alter: bool, r: Regs, r': Regs, p: Packet)
    requires ValidStmt(s) && Readable(s, val, nodes, alter)
    requires WfNodes(nodes) && InTable(nodes, val) && Sound(nodes, val, r, p)
    requires Exec(s, r, p) == Val(r')
    ensures StepOk(OptStmt(s, val, nodes, alter), nodes, r, r', p)
  {
    match s.code {
      case LdAbs(_) | LdLen =>
        var n := Node(s.code, if s.code == LdLen then 0 else s.k, 0);
        EnterSound(nodes, n, p);
        VstoreOk(s, val, A_ATOM, Number(nodes, n), nodes, Enter(nodes, n), alter, r, p, r'[A_ATOM]);
      case LdInd(_) => OptIndOk(s, val, nodes, alter, r, r', p);
      case LdxMsh =>
        var n := Node(s.code, s.k, 0);
        EnterSound(nodes, n, p);
        VstoreOk(s, val, X_ATOM, Number(nodes, n), nodes, Enter(nodes, n), alter, r, p, r'[X_ATOM]);
      case LdImm =>
        EnterSound(nodes, Const(s.k), p);
        VstoreOk(s, val, A_ATOM, Number(nodes, Const(s.k)), nodes, Enter(nodes, Const(s.k)), alter, r, p, s.k);
      case LdxImm =>
        EnterSound(nodes, Const(s.k), p);
        VstoreOk(s, val, X_ATOM, Number(nodes, Const(s.k)), nodes, Enter(nodes, Const(s.k)), alter, r, p, s.k);
      case Neg => OptNegOk(s, val, nodes, alter, r, r', p);
      case AluK(op) => OptAluKOk(s, op, val, nodes, alter, r, p, r'[A_ATOM]);
      case AluX(op) => OptAluXOk(s, op, val, nodes, alter, r, p, r'[A_ATOM]);
      case Txa | Tax | LdMem | LdxMem | St | Stx => OptMoveOk(s, val, nodes, alter, r, r', p);
      case Nop =>
      case LdxLen => OptLenOk(s, val, nodes, r, p);
    }
  }

  lemma OptIndOk(s: Stmt, val: Vals, nodes: Nodes, alter: bool, r: Regs, r': Regs, p: Packet)
    requires s.code.LdInd? && val[X_ATOM] != 0
    requires WfNodes(nodes) && InTable(nodes, val) && Sound(nodes, val, r, p)
    requires Exec(s, r, p) == Val(r')
    ensures StepOk(OptStmt(s, val, nodes, alter), nodes, r, r', p)
  {
    var w, size := r'[A_ATOM], s.code.size;
    assert Load(size, Plus(r[X_ATOM], s.k), p) == Val(w);
    if alter && IsConst(nodes, val[X_ATOM]) {
      ConstMeans(nodes, val[X_ATOM], p);
      var k := Plus(ConstVal(nodes, val[X_ATOM]), s.k);
      var n := Node(LdAbs(size), k, 0);
      EnterSound(nodes, n, p);
      VstoreOk(Stmt(LdAbs(size), k), val, A_ATOM, Number(nodes, n), nodes, Enter(nodes, n), alter, r, p, w);
    } else {
      var n := Node(s.code, s.k, val[X_ATOM]);
      EnterSound(nodes, n, p);
      VstoreOk(s, val, A_ATOM, Number(nodes, n), nodes, Enter(nodes, n), alter, r, p, w);
    }
  }

  lemma OptNegOk(s: Stmt, val: Vals, nodes: Nodes, alter: bool, r: Regs, r': Regs, p: Packet)
    requires s.code == Neg && val[A_ATOM] != 0
    requires WfNodes(nodes) && InTable(nodes, val) && Sound(nodes, val, r, p)
    requires Exec(s, r, p) == Val(r')
    ensures StepOk(OptStmt(s, val, nodes, alter), nodes, r, r', p)
  {
    if alter && IsConst(nodes, val[A_ATOM]) {
      ConstMeans(nodes, val[A_ATOM], p);
      LoadConstOk(s, val, Negate(ConstVal(nodes, val[A_ATOM])), nodes, nodes, r, p);
    } else {
      var n := Node(Neg, val[A_ATOM], 0);
      EnterSound(nodes, n, p);
      VstoreOk(s, val, A_ATOM, Number(nodes, n), nodes, Enter(nodes, n), false, r, p, r'[A_ATOM]);
    }
  }

  lemma OptMoveOk(s: Stmt, val: Vals, nodes: Nodes, alter: bool, r: Regs, r': Regs, p: Packet)
    requires s.code == Txa || s.code == Tax || s.code == LdMem || s.code == LdxMem || s.code == St || s.code == Stx
    requires ValidStmt(s) && Readable(s, val, nodes, alter)
    requires WfNodes(nodes) && InTable(nodes, val) && Sound(nodes, val, r, p)
    requires Exec(s, r, p) == Val(r')
    ensures StepOk(OptStmt(s, val, nodes, alter), nodes, r, r', p)
  {
    match s.code {
      case Txa => CopyOk(s, val, X_ATOM, A_ATOM, nodes, alter, r, p);
      case Tax => CopyOk(s, val, A_ATOM, X_ATOM, nodes, alter, r, p);
      case St => CopyOk(s, val, A_ATOM, s.k, nodes, alter, r, p);
      case Stx => CopyOk(s, val, X_ATOM, s.k, nodes, alter, r, p);
      case LdMem =>
        if alter && IsConst(nodes, val[s.k]) {
          ConstMeans(nodes, val[s.k], p);
          CopyOk(Stmt(LdImm, ConstVal(nodes, val[s.k])), val, s.k, A_ATOM, nodes, alter, r, p);
        } else {
          CopyOk(s, val, s.k, A_ATOM, nodes, alter, r, p);
        }
      case LdxMem =>
        if alter && IsConst(nodes, val[s.k]) {
          ConstMeans(nodes, val[s.k], p);
          CopyOk(Stmt(LdxImm, ConstVal(nodes, val[s.k])), val, s.k, X_ATOM, nodes, alter, r, p);
        } else {
          CopyOk(s, val, s.k, X_ATOM, nodes, alter, r, p);
        }
    }
  }

  /** A length load into X is not looked at: harmless if X is unknown or numbered as the length. */
  lemma OptLenOk(s: Stmt, val: Vals, nodes: Nodes, r: Regs, p: Packet)
    requires s.code == LdxLen && WfNodes(nodes) && InTable(nodes, val) && Sound(nodes, val, r, p)
    requires val[X_ATOM] == 0 || Meaning(nodes, val[X_ATOM], p) == Val(p.wirelen)
    ensures StepOk(Opt(s, val, nodes), nodes, r, r[X_ATOM := p.wirelen], p)
  {
  }

  // ------------------------------------------------- exactly when a step is sound

  /** From every register state that the numbers describe, the step is right if the statement runs. */
  ghost predicate StepSound(s: Stmt, val: Vals, nodes: Nodes, alter: bool, p: Packet)
    requires ValidStmt(s)
  {
    forall r: Regs :: Sound(nodes, val, r, p) && Exec(s, r, p).Val? ==>
      StepOk(OptStmt(s, val, nodes, alter), nodes, r, Exec(s, r, p).v, p)
  }

  /** A new node over an unknown operand has a number that means nothing. */
  lemma BlindNode(s: Stmt, val: Vals, n: Node, nodes: Nodes, nodes1: Nodes, alter: bool, r: Regs, r': Regs, p: Packet)
    requires WfNodes(nodes1) && nodes <= nodes1 && WfNode(n, |nodes1|) && InTable(nodes, val) && Sound(nodes, val, r, p)
    requires NodeVal(n, Meaning(nodes1, n.v0, p), Meaning(nodes1, n.v1, p), p) == Undef
    ensures !StepOk(Opt(s, val[A_ATOM := Number(nodes1, n)], Enter(nodes1, n)), nodes, r, r', p)
    ensures !StepOk(Vstore(s, val, A_ATOM, Number(nodes1, n), Enter(nodes1, n), alter), nodes, r, r', p)
  {
    EnterSound(nodes1, n, p);
    var v, nodes2 := Number(nodes1, n), Enter(nodes1, n);
    assert !Sound(nodes2, val[A_ATOM := v], r', p) by {
      assert val[A_ATOM := v][A_ATOM] == v;
    }
    if val[A_ATOM] == v {
      MeaningStable(nodes, nodes2, v, p);
    }
  }

  /** A copy deleted between two unknown registers, seen from registers in which they differ. */
  lemma BlindCopy(s: Stmt, val: Vals, src: nat, dst: nat, nodes: Nodes, r0: Regs, p: Packet) returns (r: Regs)
    requires src < N_ATOMS && dst < N_ATOMS && src != dst && val[src] == 0 && val[dst] == 0
    requires Sound(nodes, val, r0, p) && forall r: Regs :: Exec(s, r, p) == Val(r[dst := r[src]])
    ensures Sound(nodes, val, r, p) && Exec(s, r, p).Val?
    ensures !StepOk(Opt(s.(code := Nop), val, nodes), nodes, r, Exec(s, r, p).v, p)
  {
    r := r0[src := if r0[dst] == 0 then 1 else 0];
    assert Exec(s, r, p).v[dst] != r[dst];
  }

  lemma UnreadableCopy(s: Stmt, val: Vals, nodes: Nodes, alter: bool, r0: Regs, p: Packet)
    requires s.code == Txa || s.code == Tax || s.code == LdMem || s.code == LdxMem || s.code == St || s.code == Stx
    requires ValidStmt(s) && !Readable(s, val, nodes, alter) && Sound(nodes, val, r0, p)
    ensures !StepSound(s, val, nodes, alter, p)
  {
    var src := if s.code == LdMem || s.code == LdxMem then s.k else if s.code == Txa || s.code == Stx then X_ATOM else A_ATOM;
    var dst := if s.code == St || s.code == Stx then s.k else if s.code == Tax || s.code == LdxMem then X_ATOM else A_ATOM;
    var r := BlindCopy(s, val, src, dst, nodes, r0, p);
    assert OptStmt(s, val, nodes, alter) == Opt(s.(code := Nop), val, nodes);
  }

  lemma UnreadableAlu(s: Stmt, val: Vals, nodes: Nodes, alter: bool, r0: Regs, p: Packet)
    requires s.code.AluK? || s.code.AluX?
    requires WfNodes(nodes) && InTable(nodes, val) && Sound(nodes, val, r0, p) && Exec(s, r0, p).Val?
    requires !Readable(s, val, nodes, alter) && OptStmt(s, val, nodes, alter).Opt?
    ensures !StepSound(s, val, nodes, alter, p)
  {
    var va, vx, r' := val[A_ATOM], val[X_ATOM], Exec(s, r0, p).v;
    assert Meaning(nodes, 0, p) == Undef;
    if s.code.AluX? && !(alter && IsConst(nodes, vx)) {
      BlindNode(s, val, Node(s.code, va, vx), nodes, nodes, alter, r0, r', p);
    } else {
      var c := if s.code.AluK? then s.k else ConstVal(nodes, vx);
      var nodes1, kn := Enter(nodes, Const(c)), Number(nodes, Const(c));
      EnterSound(nodes, Const(c), p);
      BlindNode(Stmt(AluK(s.code.op), c), val, Node(AluK(s.code.op), va, kn), nodes, nodes1, alter, r0, r', p);
    }
  }

  lemma UnreadableFails(s: Stmt, val: Vals, nodes: Nodes, alter: bool, r0: Regs, p: Packet)
    requires ValidStmt(s) && s.code != LdxLen && !Readable(s, val, nodes, alter)
    requires WfNodes(nodes) && InTable(nodes, val) && Sound(nodes, val, r0, p)
    requires Exec(s, r0, p).Val? && OptStmt(s, val, nodes, alter).Opt?
    ensures !StepSound(s, val, nodes, alter, p)
  {
    var r' := Exec(s, r0, p).v;
    assert Meaning(nodes, 0, p) == Undef;
    match s.code {
      case LdInd(_) => BlindNode(s, val, Node(s.code, s.k, 0), nodes, nodes, alter, r0, r', p);
      case Neg => BlindNode(s, val, Node(Neg, 0, 0), nodes, nodes, alter, r0, r', p);
      case AluK(_) => UnreadableAlu(s, val, nodes, alter, r0, p);
      case AluX(_) => UnreadableAlu(s, val, nodes, alter, r0, p);
      case _ => UnreadableCopy(s, val, nodes, alter, r0, p);
    }
  }

  /** A length load: right exactly when X is unknown or its number means the length. */
  lemma {:induction false} LengthLoadIff(s: Stmt, val: Vals, nodes: Nodes, alter: bool, r0: Regs, p: Packet)
    requires s.code == LdxLen && WfNodes(nodes) && InTable(nodes, val) && Sound(nodes, val, r0, p)
    ensures StepSound(s, val, nodes, alter, p) <==> val[X_ATOM] == 0 || Meaning(nodes, val[X_ATOM], p) == Val(p.wirelen)
  {
    if val[X_ATOM] == 0 || Meaning(nodes, val[X_ATOM], p) == Val(p.wirelen) {
      forall r: Regs | Sound(nodes, val, r, p)
        ensures StepOk(OptStmt(s, val, nodes, alter), nodes, r, Exec(s, r, p).v, p)
      {
        OptLenOk(s, val, nodes, r, p);
      }
    } else {
      assert !StepOk(OptStmt(s, val, nodes, alter), nodes, r0, Exec(s, r0, p).v, p);
    }
  }

  /** Exactly when a step is sound, given that the numbers describe some state in which it runs. */
  lemma StepSoundIff(s: Stmt, val: Vals, nodes: Nodes, alter: bool, r0: Regs, p: Packet)
    requires ValidStmt(s) && s.code != LdxLen && WfNodes(nodes) && InTable(nodes, val) && Sound(nodes, val, r0, p)
    requires Exec(s, r0, p).Val? && OptStmt(s, val, nodes, alter).Opt?
    ensures StepSound(s, val, nodes, alter, p) <==> Readable(s, val, nodes, alter)
  {
    hide OptStmt, StepOk, Readable, Sound, WfNodes, InTable, Exec;
    if Readable(s, val, nodes, alter) {
      forall r: Regs | Sound(nodes, val, r, p) && Exec(s, r, p).Val?
        ensures StepOk(OptStmt(s, val, nodes, alter), nodes, r, Exec(s, r, p).v, p)
      {
        OptStmtSound(s, val, nodes, alter, r, Exec(s, r, p).v, p);
      }
    } else {
      UnreadableFails(s, val, nodes, alter, r0, p);
    }
  }

  // ------------------------------------------------------------ statements that reject

  /** A register division that is rewritten because a constant is known. */
  predicate DivisionRewritten(s: Stmt, val: Vals, nodes: Nodes, alter: bool)
  {
    s.code == AluX(Div) && alter && (IsConst(nodes, val[X_ATOM]) || IsZero(nodes, val[A_ATOM]))
  }

  /** A load that rejects has a number without value, so it is not deleted. */
  lemma RejectingLoad(s: Stmt, val: Vals, atom: nat, n: Node, nodes: Nodes, alter: bool, r: Regs, p: Packet)
    requires atom < N_ATOMS && WfNodes(nodes) && WfNode(n, |nodes|) && InTable(nodes, val) && Sound(nodes, val, r, p)
    requires NodeVal(n, Meaning(nodes, n.v0, p), Meaning(nodes, n.v1, p), p) == Reject && Exec(s, r, p) == Reject
    ensures var o := Vstore(s, val, atom, Number(nodes, n), Enter(nodes, n), alter); o.Opt? && Exec(o.s, r, p) == Reject
  {
    EnterSound(nodes, n, p);
    var v := Number(nodes, n);
    if val[atom] == v {
      MeaningStable(nodes, Enter(nodes, n), v, p);
    }
  }

  /** A statement that rejects still does after rewriting, exactly unless it is a register division
      rewritten because of a known constant. */
  lemma RejectKeptIff(s: Stmt, val: Vals, nodes: Nodes, alter: bool, r: Regs, p: Packet)
    requires ValidStmt(s) && Readable(s, val, nodes, alter)
    requires WfNodes(nodes) && InTable(nodes, val) && Sound(nodes, val, r, p) && Exec(s, r, p) == Reject
    ensures (OptStmt(s, val, nodes, alter).Opt? && Exec(OptStmt(s, val, nodes, alter).s, r, p) == Reject)
            <==> !DivisionRewritten(s, val, nodes, alter)
  {
    match s.code {
      case LdAbs(_) => RejectingLoad(s, val, A_ATOM, Node(s.code, s.k, 0), nodes, alter, r, p);
      case LdxMsh => RejectingLoad(s, val, X_ATOM, Node(s.code, s.k, 0), nodes, alter, r, p);
      case LdInd(size) =>
        if alter && IsConst(nodes, val[X_ATOM]) {
          ConstMeans(nodes, val[X_ATOM], p);
          var k := Plus(ConstVal(nodes, val[X_ATOM]), s.k);
          RejectingLoad(Stmt(LdAbs(size), k), val, A_ATOM, Node(LdAbs(size), k, 0), nodes, alter, r, p);
        } else {
          RejectingLoad(s, val, A_ATOM, Node(s.code, s.k, val[X_ATOM]), nodes, alter, r, p);
        }
      case AluX(op) => RejectingDivision(s, val, nodes, alter, r, p);
      case _ =>
    }
  }

  lemma RejectingDivision(s: Stmt, val: Vals, nodes: Nodes, alter: bool, r: Regs, p: Packet)
    requires s.code.AluX? && Exec(s, r, p) == Reject && Sound(nodes, val, r, p)
    ensures s.code == AluX(Div) && r[X_ATOM] == 0
    ensures (OptStmt(s, val, nodes, alter).Opt? && Exec(OptStmt(s, val, nodes, alter).s, r, p) == Reject)
            <==> !DivisionRewritten(s, val, nodes, alter)
  {
    var vx := val[X_ATOM];
    if alter && IsConst(nodes, vx) {
      ConstMeans(nodes, vx, p);
      assert Alu(Div, false, r[A_ATOM], 0) == Undef;
      assert forall a: Word :: Alu(Div, false, a, 0) == Undef;
    }
  }

  /** An input on which the rejection is lost: zero divided by the length of an empty packet. */
  lemma {:induction false} LostRejection(p: Packet)
    requires p.wirelen == 0
    ensures var s, nodes := Stmt(AluX(Div), 0), [Const(0), Node(LdLen, 0, 0)];
            var val: Vals := UNKNOWN[A_ATOM := 1][X_ATOM := 2];
            && WfNodes(nodes) && Readable(s, val, nodes, true) && Sound(nodes, val, ZEROS, p)
            && Exec(s, ZEROS, p) == Reject
            && OptStmt(s, val, nodes, true).Opt? && Exec(OptStmt(s, val, nodes, true).s, ZEROS, p) == Val(ZEROS)
  {
    var s, nodes := Stmt(AluX(Div), 0), [Const(0), Node(LdLen, 0, 0)];
    var val: Vals := UNKNOWN[A_ATOM := 1][X_ATOM := 2];
    assert val[A_ATOM] == 1 && val[X_ATOM] == 2;
    assert Meaning(nodes, 1, p) == Val(0) && Meaning(nodes, 2, p) == Val(0);
    assert Number(nodes, Const(0)) == 1;
  }

  /** Division by a zero constant is the only thing that stops the pass. */
  lemma AbandonIff(s: Stmt, val: Vals, nodes: Nodes, alter: bool)
    requires ValidStmt(s)
    ensures OptStmt(s, val, nodes, alter) == Abandon <==>
            && alter && IsConst(nodes, val[A_ATOM])
            && ((s.code == AluK(Div) && s.k == 0) || (s.code == AluX(Div) && IsZero(nodes, val[X_ATOM])))
  {
    hide Enter, Number;
  }

  // --------------------------------------------------- what the rewriting achieves

  /** A node in the table is found again under its number. */
  lemma NumberStable(nodes: Nodes, later: Nodes, n: Node)
    requires Enter(nodes, n) <= later && WfNodes(later)
    ensures Number(later, n) == Number(nodes, n) && Enter(later, n) == later
  {
    var v := Number(nodes, n);
    assert later[v - 1] == n;
  }

  lemma ConstStable(nodes: Nodes, later: Nodes, v: nat)
    requires nodes <= later && v <= |nodes|
    ensures IsConst(later, v) == IsConst(nodes, v)
    ensures IsConst(nodes, v) ==> ConstVal(later, v) == ConstVal(nodes, v)
  {
  }

  /** The node whose number an operation with a constant leaves in the accumulator. */
  function AluKNode(s: Stmt, op: AluOp, v: nat, nodes: Nodes, alter: bool): Node
  {
    if alter && IsConst(nodes, v) then Const(FoldValue(op, ConstVal(nodes, v), s.k)) else Node(AluK(op), v, Number(nodes, Const(s.k)))
  }

  lemma AluKIs(s: Stmt, op: AluOp, val: Vals, nodes: Nodes, alter: bool)
    requires !Neutral(s, op, alter)
    ensures var o, nodes1, n := OptAluK(s, op, val, nodes, alter), Enter(nodes, Const(s.k)), AluKNode(s, op, val[A_ATOM], nodes, alter);
            && o.Opt? == !(op == Div && s.k == 0 && alter && IsConst(nodes, val[A_ATOM]))
            && (o.Opt? ==> o.nodes == Enter(nodes1, n) && o.val[A_ATOM] == Number(nodes1, n))
  {
    hide Enter, Number, WideShift, IsConst, ConstVal;
  }

  lemma AluKAgain(s: Stmt, op: AluOp, val: Vals, nodes: Nodes, val': Vals, later: Nodes, alter: bool)
    requires InTable(nodes, val) && val'[A_ATOM] == val[A_ATOM] && WfNodes(later) && nodes <= later
    requires var o := OptAluK(s, op, val, nodes, alter); o.Opt? && o.nodes <= later
    ensures var o, o' := OptAluK(s, op, val, nodes, alter), OptAluK(s, op, val', later, alter);
            o'.Opt? && o'.val[A_ATOM] == o.val[A_ATOM] && o'.nodes == later
  {
    hide Enter, Number, WfNodes, Alu, WideShift, IsConst, ConstVal;
    if Neutral(s, op, alter) {
      if op == Mul || op == BitAnd {
        NumberStable(nodes, later, Const(0));
      }
    } else {
      AluKIs(s, op, val, nodes, alter);
      AluKIs(s, op, val', later, alter);
      hide OptAluK;
      ConstStable(nodes, later, val[A_ATOM]);
      var nodes1, n := Enter(nodes, Const(s.k)), AluKNode(s, op, val[A_ATOM], nodes, alter);
      EnterGrows(nodes1, n);
      NumberStable(nodes, later, Const(s.k));
      NumberStable(nodes1, later, n);
    }
  }

  lemma EnterGrows(nodes: Nodes, n: Node)
    ensures nodes <= Enter(nodes, n)
  {
  }

  lemma AluXAgain(s: Stmt, op: AluOp, val: Vals, nodes: Nodes, val': Vals, later: Nodes, alter: bool)
    requires InTable(nodes, val) && val'[A_ATOM] == val[A_ATOM] && val'[X_ATOM] == val[X_ATOM] && WfNodes(later) && nodes <= later
    requires var o := OptAluX(s, op, val, nodes, alter); o.Opt? && o.nodes <= later
    ensures var o, o' := OptAluX(s, op, val, nodes, alter), OptAluX(s, op, val', later, alter);
            o'.Opt? && o'.val[A_ATOM] == o.val[A_ATOM] && o'.nodes == later
  {
    hide Enter, Number, WfNodes, Alu, WideShift;
    var va, vx := val[A_ATOM], val[X_ATOM];
    ConstStable(nodes, later, va);
    ConstStable(nodes, later, vx);
    if alter && IsConst(nodes, vx) {
      var c := ConstVal(nodes, vx);
      if IsConst(nodes, va) {
        NumberStable(nodes, later, Const(FoldValue(op, ConstVal(nodes, va), c)));
      } else {
        var nodes1, kn := Enter(nodes, Const(c)), Number(nodes, Const(c));
        var n := Node(AluK(op), va, kn);
        EnterGrows(nodes1, n);
        NumberStable(nodes, later, Const(c));
        NumberStable(nodes1, later, n);
      }
    } else if alter && IsZero(nodes, va) && op != Sub {
      if !(op == Add || op == BitOr) {
        NumberStable(nodes, later, Const(0));
      }
    } else {
      NumberStable(nodes, later, Node(AluX(op), va, vx));
    }
  }

  /** A value computed again from registers with the same numbers gets the same number, however much
      was numbered in between, and takes no new one. */
  lemma {:induction false} SameNumberAgain(s: Stmt, val: Vals, nodes: Nodes, val': Vals, later: Nodes, alter: bool, d: nat)
    requires ValidStmt(s) && s.code != LdxLen && InTable(nodes, val) && WfNodes(later) && nodes <= later && d in Defs(s)
    requires forall a :: a in Uses(s) && 0 <= a < N_ATOMS ==> val'[a] == val[a]
    requires var o := OptStmt(s, val, nodes, alter); o.Opt? && o.nodes <= later
    ensures var o, o' := OptStmt(s, val, nodes, alter), OptStmt(s, val', later, alter);
            d < N_ATOMS && o'.Opt? && o'.val[d] == o.val[d] && o'.nodes == later
  {
    hide Enter, Number, WfNodes, OptAluK, OptAluX, Plus, Negate, IsConst, ConstVal;
    match s.code {
      case AluK(op) =>
        assert A_ATOM in Uses(s);
        AluKAgain(s, op, val, nodes, val', later, alter);
      case AluX(op) =>
        assert A_ATOM in Uses(s) && X_ATOM in Uses(s);
        AluXAgain(s, op, val, nodes, val', later, alter);
      case LdInd(_) | Neg => FoldedAgain(s, val, nodes, val', later, alter);
      case LdImm | LdxImm => NumberStable(nodes, later, Const(s.k));
      case LdAbs(_) | LdxMsh => NumberStable(nodes, later, Node(s.code, s.k, 0));
      case LdLen => NumberStable(nodes, later, Node(s.code, 0, 0));
      case LdMem | LdxMem => assert s.k in Uses(s);
      case St | Tax => assert A_ATOM in Uses(s);
      case Stx | Txa => assert X_ATOM in Uses(s);
      case _ =>
    }
  }

  lemma FoldedAgain(s: Stmt, val: Vals, nodes: Nodes, val': Vals, later: Nodes, alter: bool)
    requires (s.code.LdInd? || s.code == Neg) && InTable(nodes, val) && WfNodes(later) && nodes <= later
    requires forall a :: a in Uses(s) && 0 <= a < N_ATOMS ==> val'[a] == val[a]
    requires OptStmt(s, val, nodes, alter).nodes <= later
    ensures var o, o' := OptStmt(s, val, nodes, alter), OptStmt(s, val', later, alter);
            o'.Opt? && o'.val[A_ATOM] == o.val[A_ATOM] && o'.nodes == later
  {
    hide Enter, Number, WfNodes, Plus, Negate, IsConst, ConstVal;
    var a := if s.code == Neg then A_ATOM else X_ATOM;
    assert a in Uses(s);
    ConstStable(nodes, later, val[a]);
    NumberStable(nodes, later,
                 if !(alter && IsConst(nodes, val[a])) then (if s.code == Neg then Node(Neg, val[a], 0) else Node(s.code, s.k, val[a]))
                 else if s.code == Neg then Const(Negate(ConstVal(nodes, val[a])))
                 else Node(LdAbs(s.code.size), Plus(ConstVal(nodes, val[a]), s.k), 0));
  }

  /** The statement leaves its register with the number it had. */
  predicate Redundant(s: Stmt, val: Vals, nodes: Nodes, val': Vals)
    requires ValidStmt(s)
  {
    match s.code
    case Nop => true
    case LdxLen | Neg => false
    case AluK(op) => s.k == 0 && (op == Add || op == Lsh || op == Rsh || op == BitOr)
    case AluX(op) => IsZero(nodes, val[A_ATOM]) && !IsConst(nodes, val[X_ATOM]) && (op == Mul || op == Div || op == BitAnd || op == Lsh || op == Rsh)
    case _ => forall d :: d in Defs(s) && 0 <= d < N_ATOMS ==> val'[d] == val[d]
  }

  /** Exactly the redundant statements are deleted: loads and moves of a value the register already
      has, additions, shifts and disjunctions of zero, and products, quotients, conjunctions and shifts
      of a zero accumulator. */
  lemma DeletedIff(s: Stmt, val: Vals, nodes: Nodes, alter: bool)
    requires ValidStmt(s) && WfNodes(nodes) && OptStmt(s, val, nodes, alter).Opt?
    ensures var o := OptStmt(s, val, nodes, alter);
            o.s.code == Nop <==> s.code == Nop || (alter && Redundant(s, val, nodes, o.val))
  {
    hide Enter, Number, Alu, Plus, Negate, WfNodes;
    match s.code {
      case AluK(_) =>
      case AluX(_) =>
        if IsZero(nodes, val[A_ATOM]) {
          ZeroNumber(nodes, val[A_ATOM]);
        }
      case Nop | LdxLen | Neg =>
      case St | Stx => assert s.k in Defs(s);
      case LdAbs(_) | LdInd(_) | LdLen | LdImm | LdMem | Txa => assert A_ATOM in Defs(s);
      case LdxImm | LdxMem | LdxMsh | Tax => assert X_ATOM in Defs(s);
    }
  }

  lemma ZeroNumber(nodes: Nodes, v: nat)
    requires WfNodes(nodes) && IsZero(nodes, v)
    ensures Number(nodes, Const(0)) == v && Enter(nodes, Const(0)) == nodes
  {
    assert WfNode(nodes[v - 1], v - 1);
    assert nodes[v - 1] == Const(0);
  }

  /** A register whose number is a constant is read by what is left of a statement only where the
      source leaves it: in moves, and as the accumulator of an operation with an unknown X that
      subtracts or whose constant is not zero. */
  lemma ConstantsDropped(s: Stmt, val: Vals, nodes: Nodes, a: nat)
    requires ValidStmt(s) && a in Uses(s) && a < N_ATOMS && IsConst(nodes, val[a]) && OptStmt(s, val, nodes, true).Opt?
    ensures match s.code
            case St | Stx | Tax | Txa => true
            case AluX(op) =>
              a in Uses(OptStmt(s, val, nodes, true).s) <==>
              a == A_ATOM && !IsConst(nodes, val[X_ATOM]) && (op == Sub || !IsZero(nodes, val[a]))
            case _ => a !in Uses(OptStmt(s, val, nodes, true).s)
  {
    hide Enter, Number, Alu, Plus, Negate;
  }

  /** What is computed from constants alone is a constant again. */
  lemma {:induction false} ConstantsFold(s: Stmt, val: Vals, nodes: Nodes, d: nat)
    requires ValidStmt(s) && d in Defs(s) && d < N_ATOMS && WfNodes(nodes) && InTable(nodes, val)
    requires forall a :: a in Uses(s) && 0 <= a < N_ATOMS ==> IsConst(nodes, val[a])
    requires !(s.code.LdAbs? || s.code.LdInd? || s.code.LdLen? || s.code.LdxMsh? || s.code.LdxLen?)
    requires OptStmt(s, val, nodes, true).Opt?
    ensures var o := OptStmt(s, val, nodes, true); IsConst(o.nodes, o.val[d])
  {
    hide Enter, Number, Alu, Plus, Negate, WfNodes, WideShift;
    match s.code {
      case LdMem | LdxMem => assert s.k in Uses(s);
      case St | Tax => assert A_ATOM in Uses(s);
      case Stx | Txa => assert X_ATOM in Uses(s);
      case Neg =>
        assert A_ATOM in Uses(s);
        ConstNumber(nodes, Negate(ConstVal(nodes, val[A_ATOM])));
      case AluK(op) =>
        assert A_ATOM in Uses(s);
        ConstNumber(nodes, 0);
        ConstNumber(Enter(nodes, Const(s.k)), FoldValue(op, ConstVal(nodes, val[A_ATOM]), s.k));
      case AluX(op) =>
        assert A_ATOM in Uses(s) && X_ATOM in Uses(s);
        ConstNumber(nodes, FoldValue(op, ConstVal(nodes, val[A_ATOM]), ConstVal(nodes, val[X_ATOM])));
      case _ => ConstNumber(nodes, s.k);
    }
  }

  lemma ConstNumber(nodes: Nodes, k: Word)
    ensures IsConst(Enter(nodes, Const(k)), Number(nodes, Const(k)))
  {
  }

  // ------------------------------------------------------------ whole statement lists

  datatype OptList = Done(stmts: seq<Stmt>, val: Vals, nodes: Nodes) | Stopped

  function OptStmts(ss: seq<Stmt>, val: Vals, nodes: Nodes, alter: bool): OptList
    requires ValidStmts(ss)
  {
    if |ss| == 0 then Done([], val, nodes)
    else
      match OptStmt(ss[0], val, nodes, alter)
      case Abandon => Stopped
      case Opt(s, val1, nodes1) =>
        match OptStmts(ss[1..], val1, nodes1, alter)
        case Stopped => Stopped
        case Done(t, val2, nodes2) => Done([s] + t, val2, nodes2)
  }

  /** The numbers are good enough for every statement when its turn comes. */
  predicate ReadableStmts(ss: seq<Stmt>, val: Vals, nodes: Nodes, alter: bool)
    requires ValidStmts(ss)
  {
    |ss| == 0 ||
    (&& Readable(ss[0], val, nodes, alter)
     && match OptStmt(ss[0], val, nodes, alter)
        case Abandon => true
        case Opt(_, val1, nodes1) => ReadableStmts(ss[1..], val1, nodes1, alter))
  }

  /** The statement is defined here, and is not a register division by zero that might be rewritten. */
  predicate Fine(s: Stmt, alter: bool, r: Regs, p: Packet)
  {
    Exec(s, r, p) != Undef && !(alter && s.code == AluX(Div) && r[X_ATOM] == 0)
  }

  /** ... and so is every statement the run of the list meets, up to one that rejects. */
  predicate FineStmts(ss: seq<Stmt>, alter: bool, r: Regs, p: Packet)
  {
    |ss| == 0 ||
    (Fine(ss[0], alter, r, p) && match Exec(ss[0], r, p) case Val(r') => FineStmts(ss[1..], alter, r', p) case _ => true)
  }

  /** Over a whole list: the rewritten list ends like the original, rejecting runs included, and if it
      runs through, sound numbers stay sound. */
  lemma {:induction false} OptStmtsSound(ss: seq<Stmt>, val: Vals, nodes: Nodes, alter: bool, r: Regs, p: Packet)
    requires ValidStmts(ss) && ReadableStmts(ss, val, nodes, alter) && FineStmts(ss, alter, r, p)
    requires WfNodes(nodes) && InTable(nodes, val) && Sound(nodes, val, r, p)
    requires OptStmts(ss, val, nodes, alter).Done?
    ensures var o := OptStmts(ss, val, nodes, alter);
            && ExecAll(o.stmts, r, p) == ExecAll(ss, r, p)
            && (ExecAll(ss, r, p).Val? ==>
                  && WfNodes(o.nodes) && nodes <= o.nodes && InTable(o.nodes, o.val)
                  && Sound(o.nodes, o.val, ExecAll(ss, r, p).v, p))
  {
    hide OptStmt, Exec, Readable, Meaning;
    if |ss| > 0 {
      var o := OptStmt(ss[0], val, nodes, alter);
      var rest := OptStmts(ss[1..], o.val, o.nodes, alter);
      assert ([o.s] + rest.stmts)[1..] == rest.stmts;
      match Exec(ss[0], r, p)
      case Val(r') =>
        OptStmtSound(ss[0], val, nodes, alter, r, r', p);
        OptStmtsSound(ss[1..], o.val, o.nodes, alter, r', p);
      case Reject => RejectKept(ss[0], val, nodes, alter, r, p);
      case Undef =>
    }
  }

  lemma RejectKept(s: Stmt, val: Vals, nodes: Nodes, alter: bool, r: Regs, p: Packet)
    requires ValidStmt(s) && Readable(s, val, nodes, alter) && Fine(s, alter, r, p)
    requires WfNodes(nodes) && InTable(nodes, val) && Sound(nodes, val, r, p) && Exec(s, r, p) == Reject
    ensures OptStmt(s, val, nodes, alter).Opt? && Exec(OptStmt(s, val, nodes, alter).s, r, p) == Reject
  {
    RejectKeptIff(s, val, nodes, alter, r, p);
    if s.code.AluX? {
      RejectingDivision(s, val, nodes, alter, r, p);
    }
  }

  /** No length is loaded into X. */
  predicate Supported(ss: seq<Stmt>)
  {
    forall i :: 0 <= i < |ss| ==> ss[i].code != LdxLen
  }

  /** A statement that reads known numbers makes the register it writes known. */
  lemma DefinedKnown(s: Stmt, val: Vals, nodes: Nodes, alter: bool, a: nat)
    requires ValidStmt(s) && s.code != LdxLen && Known(s, val) && a < N_ATOMS
    requires OptStmt(s, val, nodes, alter).Opt? && (a in Defs(s) || val[a] != 0)
    ensures OptStmt(s, val, nodes, alter).val[a] != 0
  {
    hide OptAluK, OptAluX, Enter, IsConst;
    match s.code {
      case LdMem => assert s.k in Uses(s);
      case LdxMem => assert s.k in Uses(s);
      case St => assert A_ATOM in Uses(s);
      case Tax => assert A_ATOM in Uses(s);
      case Stx => assert X_ATOM in Uses(s);
      case Txa => assert X_ATOM in Uses(s);
      case AluK(op) => AluKKnown(s, op, val, nodes, alter, a);
      case AluX(op) => AluXKnown(s, op, val, nodes, alter, a);
      case _ =>
    }
  }

  lemma FoldKnown(s: Stmt, op: AluOp, val: Vals, x: Word, y: Word, nodes: Nodes, a: nat)
    requires a < N_ATOMS && (a == A_ATOM || val[a] != 0) && Fold(s, val, op, x, y, nodes).Opt?
    ensures Fold(s, val, op, x, y, nodes).val[a] != 0
  {
  }

  lemma AluKKnown(s: Stmt, op: AluOp, val: Vals, nodes: Nodes, alter: bool, a: nat)
    requires s.code == AluK(op) && Known(s, val) && a < N_ATOMS && (a == A_ATOM || val[a] != 0)
    requires OptAluK(s, op, val, nodes, alter).Opt?
    ensures OptAluK(s, op, val, nodes, alter).val[a] != 0
  {
    assert A_ATOM in Uses(s);
    if !(alter && s.k == 0 && (op == Add || op == Lsh || op == Rsh || op == BitOr || op == Mul || op == BitAnd)) {
      if alter && IsConst(nodes, val[A_ATOM]) {
        FoldKnown(s, op, val, ConstVal(nodes, val[A_ATOM]), s.k, Enter(nodes, Const(s.k)), a);
      }
    }
  }

  lemma AluXKnown(s: Stmt, op: AluOp, val: Vals, nodes: Nodes, alter: bool, a: nat)
    requires s.code == AluX(op) && Known(s, val) && a < N_ATOMS && (a == A_ATOM || val[a] != 0)
    requires OptAluX(s, op, val, nodes, alter).Opt?
    ensures OptAluX(s, op, val, nodes, alter).val[a] != 0
  {
    assert A_ATOM in Uses(s) && X_ATOM in Uses(s);
    if alter && IsConst(nodes, val[X_ATOM]) && IsConst(nodes, val[A_ATOM]) {
      FoldKnown(s, op, val, ConstVal(nodes, val[A_ATOM]), ConstVal(nodes, val[X_ATOM]), nodes, a);
    }
  }

  /** If the registers live on entry are known then every statement reads known numbers. */
  lemma {:induction false} KnownIfLive(ss: seq<Stmt>, val: Vals, nodes: Nodes, alter: bool)
    requires ValidStmts(ss) && Supported(ss)
    requires forall a :: a in LiveIn(ss, {}) && 0 <= a < N_ATOMS ==> val[a] != 0
    ensures ReadableStmts(ss, val, nodes, alter)
  {
    if |ss| > 0 {
      KnownReadable(ss[0], val, nodes, alter);
      match OptStmt(ss[0], val, nodes, alter)
      case Abandon =>
      case Opt(s, val1, nodes1) =>
        forall a | a in LiveIn(ss[1..], {}) && 0 <= a < N_ATOMS
          ensures val1[a] != 0
        {
          DefinedKnown(ss[0], val, nodes, alter, a);
        }
        KnownIfLive(ss[1..], val1, nodes1, alter);
    }
  }

  /** Some statement writes `x`. */
  predicate Writes(ss: seq<Stmt>, x: nat)
  {
    exists i :: 0 <= i < |ss| && x in Defs(ss[i])
  }

  lemma WritesTail(ss: seq<Stmt>, x: nat)
    requires |ss| > 0
    ensures Writes(ss, x) <==> x in Defs(ss[0]) || Writes(ss[1..], x)
  {
    if i :| 0 <= i < |ss| && x in Defs(ss[i]) {
      assert i == 0 || ss[1..][i - 1] == ss[i];
    }
    if j :| 0 <= j < |ss[1..]| && x in Defs(ss[1..][j]) {
      assert ss[j + 1] == ss[1..][j];
    }
  }

  /** A register that no statement writes keeps its number. */
  lemma {:induction false} UnwrittenKept(ss: seq<Stmt>, val: Vals, nodes: Nodes, alter: bool, x: nat)
    requires ValidStmts(ss) && OptStmts(ss, val, nodes, alter).Done? && x < N_ATOMS && !Writes(ss, x)
    ensures OptStmts(ss, val, nodes, alter).val[x] == val[x]
  {
    hide OptStmt, Defs, Writes;
    if |ss| > 0 {
      WritesTail(ss, x);
      OptStmtShrinks(ss[0], val, nodes, alter);
      var o := OptStmt(ss[0], val, nodes, alter);
      UnwrittenKept(ss[1..], o.val, o.nodes, alter, x);
    }
  }

  /** If the registers live on entry are known, what is known on entry or written is known on exit. */
  lemma {:induction false} KnownThrough(ss: seq<Stmt>, val: Vals, nodes: Nodes, alter: bool, x: nat)
    requires ValidStmts(ss) && Supported(ss) && OptStmts(ss, val, nodes, alter).Done? && x < N_ATOMS
    requires forall a :: a in LiveIn(ss, {}) && 0 <= a < N_ATOMS ==> val[a] != 0
    requires val[x] != 0 || Writes(ss, x)
    ensures OptStmts(ss, val, nodes, alter).val[x] != 0
  {
    hide OptStmt, Writes;
    if ss != [] {
      WritesTail(ss, x);
      var o := OptStmt(ss[0], val, nodes, alter);
      forall a | a in LiveIn(ss[1..], {}) && 0 <= a < N_ATOMS
        ensures o.val[a] != 0
      {
        DefinedKnown(ss[0], val, nodes, alter, a);
      }
      if x in Defs(ss[0]) || val[x] != 0 {
        DefinedKnown(ss[0], val, nodes, alter, x);
      }
      KnownThrough(ss[1..], o.val, o.nodes, alter, x);
    } else {
      WritesNone(x);
    }
  }

  lemma WritesNone(x: nat)
    ensures !Writes([], x)
  {
  }

  /** Reading an unknown register breaks the guarantee: both numbers are 0, so the load goes. */
  lemma UnknownReadIsUnsound(p: Packet)
    ensures var s, val := Stmt(LdMem, 0), UNKNOWN;
            var r: Regs := ZEROS[0 := 1];
            && Sound([], val, r, p)
            && OptStmt(s, val, [], true) == Opt(Stmt(Nop, 0), val, [])
            && Exec(s, r, p) != Exec(Stmt(Nop, 0), r, p)
  {
    var r: Regs := ZEROS[0 := 1];
    assert Exec(Stmt(LdMem, 0), r, p) == Val(r[A_ATOM := 1]);
    assert r[A_ATOM := 1][A_ATOM] != r[A_ATOM];
  }

  /** A load of the packet length into X goes unnoticed, so its old number goes stale. */
  lemma LdxLenIsUnsound(p: Packet)
    requires p.wirelen == 7
    ensures var s := Stmt(LdxLen, 0);
            var val: Vals := UNKNOWN[X_ATOM := 1];
            var r: Regs := ZEROS[X_ATOM := 5];
            var nodes := [Const(5)];
            && WfNodes(nodes) && Sound(nodes, val, r, p)
            && Exec(s, r, p).Val? && OptStmt(s, val, nodes, false).Opt?
            && !Sound(OptStmt(s, val, nodes, false).nodes, OptStmt(s, val, nodes, false).val, Exec(s, r, p).v, p)
  {
    var nodes := [Const(5)];
    assert Meaning(nodes, 1, p) == Val(5);
    var val: Vals := UNKNOWN[X_ATOM := 1];
    assert val[X_ATOM] == 1;
  }
}
