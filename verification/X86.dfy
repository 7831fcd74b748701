/** The x86-64 subset the back end uses: operands, instructions, and their effect on registers,
    byte-addressed memory and flags. */
module X86 {
  import opened Arith
  import opened Memory
  import Semantics
  import Ir

  datatype Reg = AX | CX | DX | DI | SI | R8 | R9 | R10 | R11 | SP | BP | BX | R12 | R13 | R14 | R15

  /** Pseudo operands exist until stack slots are assigned. */
  datatype Operand =
    | Imm(i: int)
    | RegOp(r: Reg)
    | PseudoOp(id: nat)
    | Stack(off: int)
    | Data(sym: nat)

  datatype UnaryOp = NegOp | NotOp
  datatype BinaryOp = AddOp | SubOp | ImulOp | AndOp | OrOp | XorOp | SalOp | SarOp
  datatype Cond = CondE | CondNE | CondG | CondGE | CondL | CondLE

  datatype AInstr =
    | Mov(w: Width, src: Operand, dst: Operand)
    | Movsx(src: Operand, dst: Operand)
    | Unary(w: Width, uop: UnaryOp, dst: Operand)
    | Binary(w: Width, bop: BinaryOp, src: Operand, dst: Operand)
    | Cmp(w: Width, src: Operand, dst: Operand)
    | Idiv(w: Width, divisor: Operand)
    | Cdq(w: Width)
    | Jmp(target: Ir.Lbl)
    | Jcc(cond: Cond, target: Ir.Lbl)
    | Setcc(cond: Cond, dst: Operand)
    | LabelAt(lbl: Ir.Lbl)
    | Push(src: Operand)
    | Call(fn: nat)
    | Ret

  type Word = x: int | 0 <= x < 0x1_0000_0000_0000_0000

  /** The condition flags a comparison sets; unknown after arithmetic. */
  datatype Flags = Unknown | Flags(zero: bool, sign: bool, overflow: bool)

  datatype Mach = Mach(regs: map<Reg, Word>, mem: Bytes, flags: Flags, trace: seq<Semantics.Event>)

  function RegOf(m: Mach, r: Reg): Word {
    if r in m.regs then m.regs[r] else 0
  }

  function SetReg(m: Mach, r: Reg, v: Word): Mach {
    m.(regs := m.regs[r := v])
  }

  /** Where pseudos and static objects live: offsets from %rbp and absolute addresses. */
  datatype Places = Places(slot: map<nat, int>, data: map<nat, int>)

  function SlotOf(p: Places, id: nat): int {
    if id in p.slot then p.slot[id] else 0
  }

  function DataOf(p: Places, sym: nat): int {
    if sym in p.data then p.data[sym] else 0
  }

  predicate InMemory(o: Operand) {
    o.PseudoOp? || o.Stack? || o.Data?
  }

  function Address(m: Mach, o: Operand, p: Places): int
    requires InMemory(o)
  {
    match o
    case PseudoOp(id) => RegOf(m, BP) + SlotOf(p, id)
    case Stack(off) => RegOf(m, BP) + off
    case Data(sym) => DataOf(p, sym)
  }

  /** The 'n'-byte contents of an operand, unsigned. */
  function Get(m: Mach, o: Operand, n: nat, p: Places): (v: int)
    ensures 0 <= v < Pow256(n)
  {
    match o
    case Imm(i) => i % Pow256(n)
    case RegOp(r) => RegOf(m, r) % Pow256(n)
    case _ => Load(m.mem, Address(m, o, p), n)
  }

  /** Writing 4 bytes of a register clears its upper half; writing 1 byte keeps the rest. */
  function Set(m: Mach, o: Operand, w: Width, v: int, p: Places): Mach {
    match o
    case Imm(_) => m
    case RegOp(r) => SetReg(m, r, v % Modulus(w))
    case _ => m.(mem := Put(m.mem, Address(m, o, p), SizeOf(w), v))
  }

  function SetByte(m: Mach, o: Operand, b: Octet, p: Places): Mach {
    match o
    case Imm(_) => m
    case RegOp(r) => SetReg(m, r, RegOf(m, r) - RegOf(m, r) % 256 + b)
    case _ => m.(mem := Put(m.mem, Address(m, o, p), 1, b))
  }

  function GetW(m: Mach, o: Operand, w: Width, p: Places): int {
    Get(m, o, SizeOf(w), p)
  }

  function UnaryResult(op: UnaryOp, d: int, w: Width): int {
    match op case NegOp => -d case NotOp => -d - 1
  }

  /** Result of 'd op s' before reduction to the width; shift counts are taken modulo the width. */
  function BinaryResult(op: BinaryOp, d: int, s: int, w: Width): int {
    match op
    case AddOp => d + s
    case SubOp => d - s
    case ImulOp => d * s
    case AndOp => Bitwise(BitAnd, d, s, Bits(w))
    case OrOp => Bitwise(BitOr, d, s, Bits(w))
    case XorOp => Bitwise(BitXor, d, s, Bits(w))
    case SalOp => d * Pow2(s % Bits(w))
    case SarOp => Wrap(d, w) / Pow2(s % Bits(w))
  }

  /** Flags of the subtraction 'd - s'. */
  function CmpFlags(d: int, s: int, w: Width): Flags {
    var r := (d - s) % Modulus(w);
    var half := Modulus(w) / 2;
    Flags(r == 0, r >= half, (d >= half) != (s >= half) && (r >= half) != (d >= half))
  }

  predicate Holds(c: Cond, f: Flags)
    requires f.Flags?
  {
    match c
    case CondE => f.zero
    case CondNE => !f.zero
    case CondL => f.sign != f.overflow
    case CondLE => f.zero || f.sign != f.overflow
    case CondG => !f.zero && f.sign == f.overflow
    case CondGE => f.sign == f.overflow
  }

  /** Division of the double-width %dx:%ax; None is the divide exception. */
  function Divide(hi: int, lo: int, s: int, w: Width): Option<(int, int)> {
    var n := Wrap(hi, w) * Modulus(w) + lo;
    var d := Wrap(s, w);
    if d == 0 || !InRange(TruncDiv(n, d), w) then None else Some((TruncDiv(n, d), TruncRem(n, d)))
  }

  datatype Outcome = Next(m: Mach) | Goto(l: Ir.Lbl, m: Mach) | Exit(m: Mach, to: int) | Fault

  /** What a call instruction does, from its execution to the return of the callee. */
  type Calls = (nat, Mach) -> Option<Mach>

  /** 'ret' is written as: restore %rsp from %rbp, pop %rbp, return to the address popped next. */
  function Leave(m: Mach): Mach {
    var saved := Load(m.mem, RegOf(m, BP), 8);
    SetReg(SetReg(m, SP, (RegOf(m, BP) + 16) % Modulus(W64)), BP, saved % Modulus(W64))
  }

  function Exec(i: AInstr, m: Mach, p: Places, calls: Calls): Outcome {
    match i
    case Mov(w, s, d) => Next(Set(m, d, w, GetW(m, s, w, p), p))
    case Movsx(s, d) => Next(Set(m, d, W64, Wrap(Get(m, s, 4, p), W32), p))
    case Unary(w, op, d) => Next(Set(m, d, w, UnaryResult(op, GetW(m, d, w, p), w), p).(flags := Unknown))
    case Binary(w, op, s, d) =>
      Next(Set(m, d, w, BinaryResult(op, GetW(m, d, w, p), GetW(m, s, w, p), w), p).(flags := Unknown))
    case Cmp(w, s, d) => Next(m.(flags := CmpFlags(GetW(m, d, w, p), GetW(m, s, w, p), w)))
    case Idiv(w, s) =>
      var r := Divide(GetW(m, RegOp(DX), w, p), GetW(m, RegOp(AX), w, p), GetW(m, s, w, p), w);
      if r.None? then Fault
      else Next(Set(Set(m, RegOp(AX), w, r.value.0, p), RegOp(DX), w, r.value.1, p).(flags := Unknown))
    case Cdq(w) => Next(Set(m, RegOp(DX), w, if Wrap(GetW(m, RegOp(AX), w, p), w) < 0 then -1 else 0, p))
    case Jmp(l) => Goto(l, m)
    case Jcc(c, l) => if m.flags.Unknown? then Fault else if Holds(c, m.flags) then Goto(l, m) else Next(m)
    case Setcc(c, d) =>
      if m.flags.Unknown? then Fault else Next(SetByte(m, d, if Holds(c, m.flags) then 1 else 0, p))
    case LabelAt(_) => Next(m)
    case Push(s) =>
      var v := Get(m, s, 8, p);
      var m' := SetReg(m, SP, (RegOf(m, SP) - 8) % Modulus(W64));
      Next(m'.(mem := Put(m.mem, RegOf(m', SP), 8, v)))
    case Call(fn) => var r := calls(fn, m); if r.None? then Fault else Next(r.value)
    case Ret => Exit(Leave(m), Load(m.mem, RegOf(m, BP) + 8, 8))
  }

  /** Straight-line execution of a block, up to its first transfer of control. */
  function ExecAll(code: seq<AInstr>, m: Mach, p: Places, calls: Calls): Outcome {
    if code == [] then Next(m) else
    var r := Exec(code[0], m, p, calls);
    if r.Next? then ExecAll(code[1..], r.m, p, calls) else r
  }

  lemma {:induction false} ExecAppend(a: seq<AInstr>, b: seq<AInstr>, m: Mach, p: Places, calls: Calls)
    ensures ExecAll(a + b, m, p, calls) ==
            (var r := ExecAll(a, m, p, calls); if r.Next? then ExecAll(b, r.m, p, calls) else r)
  {
    hide Exec;
    if a == [] {
      assert a + b == b;
    } else {
      assert (a + b)[1..] == a[1..] + b;
      var r := Exec(a[0], m, p, calls);
      if r.Next? { ExecAppend(a[1..], b, r.m, p, calls); }
    }
  }

  /** First position of a label, or the end of the code. */
  function Lookup(code: seq<AInstr>, l: Ir.Lbl): (q: nat)
    ensures q <= |code|
  {
    if code == [] then 0 else if code[0] == LabelAt(l) then 0 else 1 + Lookup(code[1..], l)
  }

  datatype AState = Running(pc: nat, m: Mach) | Returned(m: Mach, to: int) | Crashed

  function AStep(code: seq<AInstr>, st: AState, p: Places, calls: Calls): AState {
    if !st.Running? then st
    else if st.pc >= |code| then Crashed
    else
      match Exec(code[st.pc], st.m, p, calls)
      case Next(m) => Running(st.pc + 1, m)
      case Goto(l, m) => Running(Lookup(code, l), m)
      case Exit(m, to) => Returned(m, to)
      case Fault => Crashed
  }

  function ASteps(code: seq<AInstr>, st: AState, n: nat, p: Places, calls: Calls): AState
    decreases n
  {
    if n == 0 then st else ASteps(code, AStep(code, st, p, calls), n - 1, p, calls)
  }
}
