/**
 The value-number table as the optimizer keeps it: a hash table of chained nodes, a
 vector of known constants, and the symbolic execution of statements over them.
 */
module ValueTable {
  import opened Bpf
  import opened Liveness
  import opened Values

  const MODULUS: nat := 213

  datatype VmapInfo = VmapInfo(isConst: bool, constVal: Word)

  // ---------------------------------------------------------------------- hashing

  function Xor(a: nat, b: nat): nat
  {
    if a == 0 then b else if b == 0 then a
    else 2 * Xor(a / 2, b / 2) + (if a % 2 == b % 2 then 0 else 1)
  }

  function Op(op: AluOp): nat
  {
    match op
    case Add => 0x00 case Sub => 0x10 case Mul => 0x20 case Div => 0x30
    case BitOr => 0x40 case BitAnd => 0x50 case Lsh => 0x60 case Rsh => 0x70
  }

  function SizeBits(size: Size): nat
  {
    match size case W => 0x00 case H => 0x08 case B => 0x10
  }

  /** The instruction set's encoding of a code. */
  function CodeBits(c: Code): nat
  {
    match c
    case Nop => 0xffff_ffff
    case LdAbs(size) => 0x20 + SizeBits(size)
    case LdInd(size) => 0x40 + SizeBits(size)
    case LdLen => 0x80
    case LdImm => 0x00
    case LdMem => 0x60
    case LdxImm => 0x01
    case LdxMem => 0x61
    case LdxMsh => 0xb1
    case LdxLen => 0x81
    case St => 0x02
    case Stx => 0x03
    case AluK(op) => 0x04 + Op(op)
    case AluX(op) => 0x0c + Op(op)
    case Neg => 0x84
    case Tax => 0x07
    case Txa => 0x87
  }

  function Hash(n: Node): (h: nat)
    ensures h < MODULUS
  {
    Xor(Xor(CodeBits(n.code), (n.v0 * 16) % WORD), (n.v1 * 256) % WORD) % MODULUS
  }

  // -------------------------------------------------------------------- the table

  /** The chains hold every number exactly where its node hashes to. */
  ghost predicate Chained(nodes: Nodes, hashtbl: seq<seq<nat>>)
  {
    && |hashtbl| == MODULUS
    && (forall h, v {:trigger v in hashtbl[h]} :: 0 <= h < MODULUS && v in hashtbl[h] ==> 0 < v <= |nodes|)
    && (forall i :: 0 <= i < |nodes| ==> i + 1 in hashtbl[Hash(nodes[i])])
  }

  ghost predicate Mapped(nodes: Nodes, vmap: seq<VmapInfo>)
  {
    && |nodes| < |vmap|
    && forall v :: 0 <= v < |vmap| ==>
         && vmap[v].isConst == IsConst(nodes, v)
         && (IsConst(nodes, v) ==> vmap[v].constVal == ConstVal(nodes, v))
  }

  lemma ChainedEnter(nodes: Nodes, hashtbl: seq<seq<nat>>, n: Node)
    requires Chained(nodes, hashtbl)
    ensures var h := Hash(n); Chained(nodes + [n], hashtbl[h := [|nodes| + 1] + hashtbl[h]])
  {
    var h := Hash(n);
    var hashtbl' := hashtbl[h := [|nodes| + 1] + hashtbl[h]];
    forall g, v | 0 <= g < MODULUS && v in hashtbl'[g]
      ensures 0 < v <= |nodes + [n]|
    {
      assert v == |nodes| + 1 || v in hashtbl[g];
    }
  }

  /** In a table without repetitions the number of a node is wherever the node is. */
  lemma NumberWhere(nodes: Nodes, v: nat)
    requires WfNodes(nodes) && 0 < v <= |nodes|
    ensures Enter(nodes, nodes[v - 1]) == nodes && Number(nodes, nodes[v - 1]) == v
  {
    var w := FindFrom(nodes, nodes[v - 1], 0);
  }

  /** Walks one chain; 0 if the node is not in it. */
  method Search(nodes: Nodes, hashtbl: seq<seq<nat>>, h: nat, n: Node) returns (v: nat)
    requires Chained(nodes, hashtbl) && h < MODULUS
    ensures v != 0 ==> 0 < v <= |nodes| && nodes[v - 1] == n
    ensures v == 0 ==> forall w :: w in hashtbl[h] ==> 0 < w <= |nodes| && nodes[w - 1] != n
  {
    var chain := hashtbl[h];
    for i := 0 to |chain|
      invariant forall j :: 0 <= j < i ==> 0 < chain[j] <= |nodes| && nodes[chain[j] - 1] != n
    {
      assert chain[i] in hashtbl[h];
      if nodes[chain[i] - 1] == n {
        return chain[i];
      }
    }
    v := 0;
  }

  lemma NotThere(nodes: Nodes, hashtbl: seq<seq<nat>>, n: Node)
    requires Chained(nodes, hashtbl)
    requires forall w :: w in hashtbl[Hash(n)] ==> 0 < w <= |nodes| && nodes[w - 1] != n
    ensures FindFrom(nodes, n, 0) == 0
  {
    forall i | 0 <= i < |nodes|
      ensures nodes[i] != n
    {
      assert i + 1 in hashtbl[Hash(nodes[i])];
    }
  }

  class Table {
    var nodes: Nodes
    var hashtbl: seq<seq<nat>>
    var vmap: seq<VmapInfo>

    ghost predicate Valid()
      reads this
    {
      WfNodes(nodes) && Chained(nodes, hashtbl) && Mapped(nodes, vmap)
    }

    constructor (maxval: nat)
      requires maxval > 0
      ensures Valid() && nodes == [] && |vmap| == maxval
    {
      nodes := [];
      hashtbl := seq(MODULUS, _ => []);
      vmap := seq(maxval, _ => VmapInfo(false, 0));
    }

    /** Looks a node up in its chain, and enters it at the head if it is not there. */
    method F(n: Node) returns (v: nat)
      requires Valid() && |nodes| + 1 < |vmap| && WfNode(n, |nodes|)
      modifies this
      ensures Valid() && |vmap| == old(|vmap|)
      ensures nodes == Enter(old(nodes), n) && v == Number(old(nodes), n)
    {
      var h := Hash(n);
      v := Search(nodes, hashtbl, h, n);
      if v != 0 {
        NumberWhere(nodes, v);
        return;
      }
      NotThere(nodes, hashtbl, n);
      EnterWf(nodes, n);
      ChainedEnter(nodes, hashtbl, n);
      v := |nodes| + 1;
      if n.code == LdImm {
        vmap := vmap[v := VmapInfo(true, n.v0)];
      }
      nodes := nodes + [n];
      hashtbl := hashtbl[h := [v] + hashtbl[h]];
    }

    /** The number of a constant. */
    method K(k: Word) returns (v: nat)
      requires Valid() && |nodes| + 1 < |vmap|
      modifies this
      ensures Valid() && |vmap| == old(|vmap|)
      ensures nodes == Enter(old(nodes), Const(k)) && v == Number(old(nodes), Const(k))
    {
      v := F(Const(k));
    }
  }

  method VstoreM(s: Stmt, val: Vals, atom: nat, v: nat, alter: bool, ghost nodes: Nodes) returns (s': Stmt, val': Vals)
    requires atom < N_ATOMS
    ensures Opt(s', val', nodes) == Vstore(s, val, atom, v, nodes, alter)
  {
    if alter && val[atom] == v {
      s', val' := s.(code := Nop), val;
    } else {
      s', val' := s, val[atom := v];
    }
  }

  /** One node stored in one register. */
  method Define(t: Table, s: Stmt, val: Vals, atom: nat, n: Node, alter: bool) returns (s': Stmt, val': Vals)
    requires t.Valid() && |t.nodes| + 1 < |t.vmap| && WfNode(n, |t.nodes|) && atom < N_ATOMS
    modifies t
    ensures t.Valid() && |t.vmap| == old(|t.vmap|)
    ensures Opt(s', val', t.nodes) == Vstore(s, val, atom, Number(old(t.nodes), n), Enter(old(t.nodes), n), alter)
  {
    var v := t.F(n);
    s', val' := VstoreM(s, val, atom, v, alter, t.nodes);
  }

  method LoadConstM(t: Table, ghost s: Stmt, val: Vals, k: Word) returns (s': Stmt, val': Vals)
    requires t.Valid() && |t.nodes| + 1 < |t.vmap|
    modifies t
    ensures t.Valid() && |t.vmap| == old(|t.vmap|)
    ensures Opt(s', val', t.nodes) == LoadConst(s, val, k, old(t.nodes))
  {
    s' := Stmt(LdImm, k);
    var v := t.K(k);
    val' := val[A_ATOM := v];
  }

  method FoldM(t: Table, s: Stmt, val: Vals, op: AluOp, a: Word, b: Word) returns (ok: bool, s': Stmt, val': Vals)
    requires t.Valid() && |t.nodes| + 1 < |t.vmap|
    modifies t
    ensures t.Valid() && |t.vmap| == old(|t.vmap|)
    ensures Fold(s, val, op, a, b, old(t.nodes)) == if ok then Opt(s', val', t.nodes) else Abandon
  {
    match Alu(op, false, a, b) {
      case Val(c) =>
        ok := true;
        s', val' := LoadConstM(t, s, val, c);
      case _ =>
        ok := op != Div;
        s', val' := s, val;
        if ok {
          s', val' := LoadConstM(t, s, val, WideShift(op, a, b));
        }
    }
  }

  method OptAluKM(t: Table, s: Stmt, op: AluOp, val: Vals, alter: bool) returns (ok: bool, s': Stmt, val': Vals)
    requires s.code == AluK(op) && t.Valid() && |t.nodes| + 2 < |t.vmap| && InTable(t.nodes, val)
    modifies t
    ensures t.Valid() && |t.vmap| == old(|t.vmap|)
    ensures OptAluK(s, op, val, old(t.nodes), alter) == if ok then Opt(s', val', t.nodes) else Abandon
  {
    ok := true;
    if alter && s.k == 0 {
      if op == Add || op == Lsh || op == Rsh || op == BitOr {
        return true, s.(code := Nop), val;
      }
      if op == Mul || op == BitAnd {
        s', val' := LoadConstM(t, s, val, 0);
        return;
      }
    }
    ok, s', val' := OptAluKGeneral(t, s, op, val, alter);
  }

  method OptAluKGeneral(t: Table, s: Stmt, op: AluOp, val: Vals, alter: bool) returns (ok: bool, s': Stmt, val': Vals)
    requires s.code == AluK(op) && t.Valid() && |t.nodes| + 2 < |t.vmap| && InTable(t.nodes, val)
    requires !(alter && s.k == 0 && (op == Add || op == Lsh || op == Rsh || op == BitOr || op == Mul || op == BitAnd))
    modifies t
    ensures t.Valid() && |t.vmap| == old(|t.vmap|)
    ensures OptAluK(s, op, val, old(t.nodes), alter) == if ok then Opt(s', val', t.nodes) else Abandon
  {
    hide Fold, Enter, Number;
    var info := t.vmap[val[A_ATOM]];
    EnterWf(t.nodes, Const(s.k));
    var kn := t.K(s.k);
    if alter && info.isConst {
      ok, s', val' := FoldM(t, s, val, op, info.constVal, s.k);
    } else {
      ok := true;
      var v := t.F(Node(AluK(op), val[A_ATOM], kn));
      s', val' := s, val[A_ATOM := v];
    }
  }

  method OptAluXConst(t: Table, s: Stmt, op: AluOp, val: Vals, c: Word) returns (ok: bool, s': Stmt, val': Vals)
    requires s.code == AluX(op) && t.Valid() && |t.nodes| + 2 < |t.vmap| && InTable(t.nodes, val)
    requires IsConst(t.nodes, val[X_ATOM]) && c == ConstVal(t.nodes, val[X_ATOM])
    modifies t
    ensures t.Valid() && |t.vmap| == old(|t.vmap|)
    ensures OptAluX(s, op, val, old(t.nodes), true) == if ok then Opt(s', val', t.nodes) else Abandon
  {
    if t.vmap[val[A_ATOM]].isConst {
      ok, s', val' := FoldM(t, s, val, op, t.vmap[val[A_ATOM]].constVal, c);
    } else {
      ok, s' := true, Stmt(AluK(op), c);
      EnterWf(t.nodes, Const(c));
      var kn := t.K(c);
      var v := t.F(Node(AluK(op), val[A_ATOM], kn));
      val' := val[A_ATOM := v];
    }
  }

  method OptAluXM(t: Table, s: Stmt, op: AluOp, val: Vals, alter: bool) returns (ok: bool, s': Stmt, val': Vals)
    requires s.code == AluX(op) && t.Valid() && |t.nodes| + 2 < |t.vmap| && InTable(t.nodes, val)
    modifies t
    ensures t.Valid() && |t.vmap| == old(|t.vmap|)
    ensures OptAluX(s, op, val, old(t.nodes), alter) == if ok then Opt(s', val', t.nodes) else Abandon
  {
    ok := true;
    var xinfo, ainfo := t.vmap[val[X_ATOM]], t.vmap[val[A_ATOM]];
    if alter && xinfo.isConst {
      ok, s', val' := OptAluXConst(t, s, op, val, xinfo.constVal);
      return;
    }
    if alter && ainfo.isConst && ainfo.constVal == 0 {
      if op == Add || op == BitOr {
        s', val' := VstoreM(s.(code := Txa), val, A_ATOM, val[X_ATOM], alter, t.nodes);
        return;
      }
      if op != Sub {
        s', val' := Define(t, Stmt(LdImm, 0), val, A_ATOM, Const(0), alter);
        return;
      }
    }
    var v := t.F(Node(AluX(op), val[A_ATOM], val[X_ATOM]));
    s', val' := s, val[A_ATOM := v];
  }

  /** The switch on the statement's code, over the real table, does what OptStmt specifies. */
  method OptStmtM(t: Table, s: Stmt, val: Vals, alter: bool) returns (ok: bool, s': Stmt, val': Vals)
    requires t.Valid() && ValidStmt(s) && InTable(t.nodes, val)
    requires s.code != Nop ==> |t.nodes| + 2 < |t.vmap|
    modifies t
    ensures t.Valid() && |t.vmap| == old(|t.vmap|)
    ensures OptStmt(s, val, old(t.nodes), alter) == if ok then Opt(s', val', t.nodes) else Abandon
    ensures ok ==> |t.nodes| <= old(|t.nodes|) + 2
  {
    NumbersUsed(s, val, t.nodes, alter);
    ok := true;
    match s.code {
      case LdAbs(_) => s', val' := Define(t, s, val, A_ATOM, Node(s.code, s.k, 0), alter);
      case LdInd(size) =>
        var info := t.vmap[val[X_ATOM]];
        if alter && info.isConst {
          s' := Stmt(LdAbs(size), Plus(info.constVal, s.k));
          s', val' := Define(t, s', val, A_ATOM, Node(s'.code, s'.k, 0), alter);
        } else {
          s', val' := Define(t, s, val, A_ATOM, Node(s.code, s.k, val[X_ATOM]), alter);
        }
      case LdLen => s', val' := Define(t, s, val, A_ATOM, Node(s.code, 0, 0), alter);
      case LdImm => s', val' := Define(t, s, val, A_ATOM, Const(s.k), alter);
      case LdxImm => s', val' := Define(t, s, val, X_ATOM, Const(s.k), alter);
      case LdxMsh => s', val' := Define(t, s, val, X_ATOM, Node(s.code, s.k, 0), alter);
      case Neg =>
        var info := t.vmap[val[A_ATOM]];
        if alter && info.isConst {
          s', val' := LoadConstM(t, s, val, Negate(info.constVal));
        } else {
          var v := t.F(Node(Neg, val[A_ATOM], 0));
          s', val' := s, val[A_ATOM := v];
        }
      case AluK(op) => ok, s', val' := OptAluKM(t, s, op, val, alter);
      case AluX(op) => ok, s', val' := OptAluXM(t, s, op, val, alter);
      case Txa => s', val' := VstoreM(s, val, A_ATOM, val[X_ATOM], alter, t.nodes);
      case Tax => s', val' := VstoreM(s, val, X_ATOM, val[A_ATOM], alter, t.nodes);
      case LdMem =>
        var v := val[s.k];
        s' := if alter && t.vmap[v].isConst then Stmt(LdImm, t.vmap[v].constVal) else s;
        s', val' := VstoreM(s', val, A_ATOM, v, alter, t.nodes);
      case LdxMem =>
        var v := val[s.k];
        s' := if alter && t.vmap[v].isConst then Stmt(LdxImm, t.vmap[v].constVal) else s;
        s', val' := VstoreM(s', val, X_ATOM, v, alter, t.nodes);
      case St => s', val' := VstoreM(s, val, s.k, val[A_ATOM], alter, t.nodes);
      case Stx => s', val' := VstoreM(s, val, s.k, val[X_ATOM], alter, t.nodes);
      case Nop => s', val' := s, val;
      case LdxLen => s', val' := s, val;
    }
  }
}
