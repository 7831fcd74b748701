/** Phase 1 of the back end: three-address code to two-address instructions over pseudo operands. */
module Lower {
  import opened Arith
  import A = Ast
  import opened Ir
  import X = X86
  import opened AsmArith

  function OperandOf(v: Value): X.Operand {
    match v
    case NoValue => X.PseudoOp(0)
    case Const(_, c) => X.Imm(c)
    case Pseudo(_, id) => X.PseudoOp(id)
    case StaticObj(_, id) => X.Data(id)
  }

  function WOf(v: Value): Width {
    A.WidthOf(TyOf(v))
  }

  function LowerUnary(op: A.UnOp, src: Value, dst: Value): seq<X.AInstr> {
    var d := OperandOf(dst);
    if op.LogNot? then
      [X.Cmp(WOf(src), X.Imm(0), OperandOf(src)), X.Mov(WOf(dst), X.Imm(0), d), X.Setcc(X.CondE, d)]
    else
      [X.Mov(WOf(dst), OperandOf(src), d), X.Unary(WOf(dst), if op.Neg? then X.NegOp else X.NotOp, d)]
  }

  function LowerBinary(op: A.BinOp, lhs: Value, rhs: Value, dst: Value): seq<X.AInstr> {
    var l, r, d := OperandOf(lhs), OperandOf(rhs), OperandOf(dst);
    if op.Div? || op.Rem? then
      var w := WOf(lhs);
      [X.Mov(w, l, X.RegOp(X.AX)), X.Cdq(w), X.Idiv(w, r), X.Mov(w, X.RegOp(if op.Div? then X.AX else X.DX), d)]
    else if A.IsCompare(op) then
      [X.Cmp(WOf(lhs), r, l), X.Mov(WOf(dst), X.Imm(0), d), X.Setcc(CondOf(op), d)]
    else if A.IsShift(op) then
      [X.Mov(WOf(dst), l, d)] +
      (if rhs.Const? then [X.Binary(WOf(dst), BinaryOf(op), X.Imm(rhs.c), d)]
       else [X.Mov(WOf(rhs), r, X.RegOp(X.CX)), X.Binary(WOf(dst), BinaryOf(op), X.RegOp(X.CX), d)])
    else
      [X.Mov(WOf(dst), l, d), X.Binary(WOf(dst), BinaryOf(op), r, d)]
  }

  function LowerCast(src: Value, dst: Value): seq<X.AInstr> {
    if TyOf(dst).Long? && !TyOf(src).Long? then [X.Movsx(OperandOf(src), OperandOf(dst))]
    else [X.Mov(W32, OperandOf(src), OperandOf(dst))]
  }

  /** The registers that carry the first six arguments. */
  function ArgReg(i: nat): X.Reg
    requires i < 6
  {
    [X.DI, X.SI, X.DX, X.CX, X.R8, X.R9][i]
  }

  function RegCount(n: nat): (r: nat)
    ensures r <= n && r <= 6
  {
    if n < 6 then n else 6
  }

  /** Bytes of padding that keep %rsp aligned when an odd number of arguments is pushed. */
  function Padding(n: nat): nat {
    if (n - RegCount(n)) % 2 != 0 then 8 else 0
  }

  /** Bytes by which a call with 'n' arguments lowers %rsp. */
  function PushedBytes(n: nat): nat {
    8 * (n - RegCount(n)) + Padding(n)
  }

  /** The arguments beyond the sixth, last one first. */
  function Pushes(rest: seq<Value>): seq<X.AInstr> {
    if rest == [] then [] else Pushes(rest[1..]) + [X.Push(OperandOf(rest[0]))]
  }

  /** Moves of arguments 0 to n-1 to their registers. */
  function RegMoves(args: seq<Value>, n: nat): seq<X.AInstr>
    requires n <= |args| && n <= 6
  {
    if n == 0 then []
    else RegMoves(args, n - 1) + [X.Mov(WOf(args[n - 1]), OperandOf(args[n - 1]), X.RegOp(ArgReg(n - 1)))]
  }

  function AdjustSp(op: X.BinaryOp, bytes: nat): seq<X.AInstr> {
    if bytes == 0 then [] else [X.Binary(W64, op, X.Imm(bytes), X.RegOp(X.SP))]
  }

  function TakeResult(dst: Value): seq<X.AInstr> {
    if dst.NoValue? then [] else [X.Mov(WOf(dst), X.RegOp(X.AX), OperandOf(dst))]
  }

  function LowerCall(fn: nat, args: seq<Value>, dst: Value): seq<X.AInstr> {
    var n := RegCount(|args|);
    AdjustSp(X.SubOp, Padding(|args|)) + (Pushes(args[n..]) + (RegMoves(args, n)
    + ([X.Call(fn)] + (AdjustSp(X.AddOp, PushedBytes(|args|)) + TakeResult(dst)))))
  }

  function LowerInstr(i: Instr): seq<X.AInstr> {
    match i
    case IReturn(v) => (if v.NoValue? then [] else [X.Mov(WOf(v), OperandOf(v), X.RegOp(X.AX))]) + [X.Ret]
    case IUnary(op, a, d) => LowerUnary(op, a, d)
    case IBinary(op, a, b, d) => LowerBinary(op, a, b, d)
    case ICopy(a, d) => [X.Mov(WOf(d), OperandOf(a), OperandOf(d))]
    case IJump(l) => [X.Jmp(l)]
    case IJumpIfZero(c, l) => [X.Cmp(WOf(c), X.Imm(0), OperandOf(c)), X.Jcc(X.CondE, l)]
    case IJumpIfNotZero(c, l) => [X.Cmp(WOf(c), X.Imm(0), OperandOf(c)), X.Jcc(X.CondNE, l)]
    case ILabel(l) => [X.LabelAt(l)]
    case ICall(fn, args, d) => LowerCall(fn, args, d)
    case ICast(a, d) => LowerCast(a, d)
  }

  function LowerAll(code: seq<Instr>): seq<X.AInstr> {
    if code == [] then [] else LowerInstr(code[0]) + LowerAll(code[1..])
  }

  /** Where the callee finds its i-th parameter on entry to its body. */
  function ParamSource(i: nat): X.Operand {
    if i < 6 then X.RegOp(ArgReg(i)) else X.Stack(16 + 8 * (i - 6))
  }

  /** Moves of parameters 0 to n-1 to their objects. */
  function LowerParams(params: seq<Value>, n: nat): seq<X.AInstr>
    requires n <= |params|
  {
    if n == 0 then []
    else LowerParams(params, n - 1) + [X.Mov(WOf(params[n - 1]), ParamSource(n - 1), OperandOf(params[n - 1]))]
  }

  function LowerFunction(params: seq<Value>, code: seq<Instr>): seq<X.AInstr> {
    LowerParams(params, |params|) + LowerAll(code)
  }
}
