/**
 The BPF machine: statements of the flow graph, instructions of the linear
 array, and one interpreter for each form.

 Registers are the optimizer's atoms: 0..15 are the scratch words, 16 is the
 accumulator and 17 the index register.  Words are 32-bit and wrap.
 */
module Bpf {

  const WORD: int := 0x1_0000_0000
  const MEMWORDS: nat := 16
  const A_ATOM: nat := 16
  const X_ATOM: nat := 17
  const N_ATOMS: nat := 18

  type Word = x: int | 0 <= x < 0x1_0000_0000
  type Byte = x: int | 0 <= x < 256
  type Regs = r: seq<Word> | |r| == 18 witness seq(18, _ => 0)

  const ZEROS: Regs := seq(18, _ => 0)

  datatype Packet = Packet(bytes: seq<Byte>, wirelen: Word)

  datatype Size = W | H | B
  datatype AluOp = Add | Sub | Mul | Div | BitAnd | BitOr | Lsh | Rsh

  datatype Code =
    | Nop
    | LdAbs(size: Size) | LdInd(size: Size) | LdLen | LdImm | LdMem
    | LdxImm | LdxMem | LdxMsh | LdxLen
    | St | Stx
    | AluK(op: AluOp) | AluX(op: AluOp) | Neg
    | Tax | Txa

  /** A statement: `code` says what to do, `k` is always present, used or not. */
  datatype Stmt = Stmt(code: Code, k: Word)

  /** Undef stands for what the C interpreter leaves undefined: a shift by 32 or
      more, a division by a zero constant, an access outside scratch memory, or a
      load that starts before the packet. */
  datatype Outcome<+T> = Val(v: T) | Reject | Undef

  datatype JmpOp = Jeq | Jgt | Jge | Jset

  /** How a block ends.  `jt` and `jf` are block numbers. */
  datatype Term =
    | Jump(op: JmpOp, useX: bool, k: Word, jt: nat, jf: nat)
    | Ret(useA: bool, k: Word)

  /** One instruction of the array form; displacements are relative to the next one. */
  datatype Insn =
    | Do(s: Stmt)
    | Branch(op: JmpOp, useX: bool, k: Word, jt: nat, jf: nat)
    | Ja(d: nat)
    | Return(useA: bool, k: Word)

  datatype Verdict = Accept(n: Word) | Undefined | Stuck

  // ---------------------------------------------------------------- arithmetic

  function Pow2(n: nat): (r: nat)
    ensures r >= 1
  {
    if n == 0 then 1 else 2 * Pow2(n - 1)
  }

  /** Bitwise conjunction, bit by bit. */
  function And(a: nat, b: nat): (r: nat)
    ensures r <= a
  {
    if a == 0 || b == 0 then 0 else 2 * And(a / 2, b / 2) + (a % 2) * (b % 2)
  }

  /** Bitwise disjunction, bit by bit. */
  function Or(a: nat, b: nat): nat
  {
    if a == 0 then b else if b == 0 then a
    else 2 * Or(a / 2, b / 2) + (if a % 2 + b % 2 > 0 then 1 else 0)
  }

  lemma {:induction false} OrBound(a: nat, b: nat, n: nat)
    requires a < Pow2(n) && b < Pow2(n)
    ensures Or(a, b) < Pow2(n)
  {
    if a == 0 || b == 0 {
    } else {
      OrBound(a / 2, b / 2, n - 1);
    }
  }

  lemma Pow2Of32()
    ensures Pow2(32) == WORD
  {
    assert Pow2(8) == 256;
    assert Pow2(16) == 65536;
    assert Pow2(24) == 16777216;
  }

  function OrWord(a: Word, b: Word): Word
  {
    OrBoundWord(a, b);
    Or(a, b)
  }

  lemma OrBoundWord(a: Word, b: Word)
    ensures Or(a, b) < WORD
  {
    Pow2Of32();
    OrBound(a, b, 32);
  }

  function Plus(a: Word, b: Word): Word
  {
    (a + b) % WORD
  }

  function Negate(a: Word): Word
  {
    (WORD - a) % WORD
  }

  /** `byX` selects the register form, whose division by zero rejects the packet. */
  function Alu(op: AluOp, byX: bool, a: Word, b: Word): Outcome<Word>
  {
    match op
    case Add => Val(Plus(a, b))
    case Sub => Val((a - b) % WORD)
    case Mul => Val((a * b) % WORD)
    case Div => if b == 0 then (if byX then Reject else Undef) else Val(Quotient(a, b))
    case BitAnd => Val(And(a, b))
    case BitOr => Val(OrWord(a, b))
    case Lsh => if b < 32 then Val((a * Pow2(b)) % WORD) else Undef
    case Rsh => if b < 32 then Val(Quotient(a, Pow2(b))) else Undef
  }

  function Quotient(a: Word, b: nat): (r: Word)
    requires b > 0
    ensures r <= a
  {
    QuotientBound(a, b);
    a / b
  }

  lemma QuotientBound(a: nat, b: nat)
    requires b > 0
    ensures 0 <= a / b <= a
  {
    if a < a / b {
      Scale(b, a / b);
    }
  }

  lemma {:induction false} Scale(b: nat, q: nat)
    requires b > 0
    ensures b * q >= q
  {
    if b > 1 {
      Scale(b - 1, q);
      assert b * q == (b - 1) * q + q;
    }
  }

  // ------------------------------------------------------------- packet access

  function Width(size: Size): nat
  {
    match size case W => 4 case H => 2 case B => 1
  }

  function Join(hi: int, lo: int): int
  {
    0x100 * hi + lo
  }

  /** The big-endian value of the `size` bytes at offset `at`. */
  function Extract(size: Size, at: nat, s: seq<Byte>): Word
    requires at + Width(size) <= |s|
  {
    match size
    case W => Join(Join(Join(s[at], s[at + 1]), s[at + 2]), s[at + 3])
    case H => Join(s[at], s[at + 1])
    case B => s[at]
  }

  /** Loads `size` bytes at the 32-bit offset `at`.  The bound check of the half and
      full word forms adds the width to a sign-extended offset, so the last few
      offsets pass it and read before the packet. */
  function Load(size: Size, at: Word, p: Packet): Outcome<Word>
  {
    var w := Width(size);
    if size != B && at + w >= WORD then
      (if at + w - WORD > |p.bytes| then Reject else Undef)
    else if at + w > |p.bytes| then Reject
    else Val(Extract(size, at, p.bytes))
  }

  function LoadMsh(at: Word, p: Packet): Outcome<Word>
  {
    if at >= |p.bytes| then Reject else Val(4 * (p.bytes[at] % 16))
  }

  // ---------------------------------------------------------------- statements

  function Put(r: Regs, atom: nat, v: Outcome<Word>): Outcome<Regs>
  {
    match v
    case Val(w) => if atom < N_ATOMS then Val(r[atom := w]) else Undef
    case Reject => Reject
    case Undef => Undef
  }

  /** One step of the filter machine on a straight-line statement. */
  function Exec(s: Stmt, r: Regs, p: Packet): Outcome<Regs>
  {
    match s.code
    case Nop => Val(r)
    case LdAbs(size) => Put(r, A_ATOM, Load(size, s.k, p))
    case LdInd(size) => Put(r, A_ATOM, Load(size, Plus(r[X_ATOM], s.k), p))
    case LdLen => Put(r, A_ATOM, Val(p.wirelen))
    case LdImm => Put(r, A_ATOM, Val(s.k))
    case LdMem => if s.k < MEMWORDS then Put(r, A_ATOM, Val(r[s.k])) else Undef
    case LdxImm => Put(r, X_ATOM, Val(s.k))
    case LdxMem => if s.k < MEMWORDS then Put(r, X_ATOM, Val(r[s.k])) else Undef
    case LdxMsh => Put(r, X_ATOM, LoadMsh(s.k, p))
    case LdxLen => Put(r, X_ATOM, Val(p.wirelen))
    case St => if s.k < MEMWORDS then Put(r, s.k, Val(r[A_ATOM])) else Undef
    case Stx => if s.k < MEMWORDS then Put(r, s.k, Val(r[X_ATOM])) else Undef
    case AluK(op) => Put(r, A_ATOM, Alu(op, false, r[A_ATOM], s.k))
    case AluX(op) => Put(r, A_ATOM, Alu(op, true, r[A_ATOM], r[X_ATOM]))
    case Neg => Put(r, A_ATOM, Val(Negate(r[A_ATOM])))
    case Tax => Put(r, X_ATOM, Val(r[A_ATOM]))
    case Txa => Put(r, A_ATOM, Val(r[X_ATOM]))
  }

  function ExecAll(ss: seq<Stmt>, r: Regs, p: Packet): Outcome<Regs>
  {
    if |ss| == 0 then Val(r)
    else
      match Exec(ss[0], r, p)
      case Val(r') => ExecAll(ss[1..], r', p)
      case Reject => Reject
      case Undef => Undef
  }

  predicate Holds(op: JmpOp, useX: bool, k: Word, r: Regs)
  {
    var a, b := r[A_ATOM], if useX then r[X_ATOM] else k;
    match op
    case Jeq => a == b
    case Jgt => a > b
    case Jge => a >= b
    case Jset => And(a, b) != 0
  }

  function Answer(useA: bool, k: Word, r: Regs): Verdict
  {
    Accept(if useA then r[A_ATOM] else k)
  }

  // --------------------------------------------------------------- array form

  /** The filter machine on an instruction array.  Falling off the end, or meeting a
      deleted statement, has no meaning: Stuck. */
  function Run(code: seq<Insn>, pc: nat, r: Regs, p: Packet): Verdict
    decreases |code| - pc
  {
    if pc >= |code| then Stuck
    else
      match code[pc]
      case Do(s) =>
        if s.code == Nop then Stuck
        else (match Exec(s, r, p)
          case Val(r') => Run(code, pc + 1, r', p)
          case Reject => Accept(0)
          case Undef => Undefined)
      case Branch(op, useX, k, jt, jf) =>
        Run(code, pc + 1 + (if Holds(op, useX, k, r) then jt else jf), r, p)
      case Ja(d) => Run(code, pc + 1 + d, r, p)
      case Return(useA, k) => Answer(useA, k, r)
  }

  lemma {:induction false} ExecAllAppend(s: seq<Stmt>, t: seq<Stmt>, r: Regs, p: Packet)
    ensures ExecAll(s + t, r, p) ==
            match ExecAll(s, r, p)
            case Val(r') => ExecAll(t, r', p)
            case Reject => Reject
            case Undef => Undef
  {
    if |s| == 0 {
      assert s + t == t;
    } else {
      assert (s + t)[1..] == s[1..] + t;
      match Exec(s[0], r, p)
      case Val(r') => ExecAllAppend(s[1..], t, r', p);
      case Reject =>
      case Undef =>
    }
  }
}
