/** Every instruction handed to the assembler exists, for exactly the code whose constant shift
    counts fit in 8 bits and whose frame fits in 32. */
module Encoding {
  import opened Arith
  import A = Ast
  import opened Ir
  import X = X86
  import opened Lower
  import opened Frames
  import opened LowerProof
  import opened AsmArith
  import opened Slots
  import opened Fixup
  import opened Backend
  import opened Execution
  import opened Placement
  import opened Callee
  import opened Typing
  import opened IrGen

  /** A constant shift count that an instruction can hold. */
  predicate CountFits(i: Instr) {
    i.IBinary? && A.IsShift(i.bop) && i.rhs.Const? ==> FitsByte(i.rhs.c)
  }

  predicate AllSized(c: seq<X.AInstr>, off: map<nat, int>) {
    forall k :: 0 <= k < |c| ==> Sized(Replace(c[k], off))
  }

  predicate AllLegal(c: seq<X.AInstr>) {
    forall k :: 0 <= k < |c| ==> Legal(c[k])
  }

  lemma UnarySized(t: Types, i: Instr, off: map<nat, int>)
    requires i.IUnary? && InstrOk(t, i) && HasSlots(t, off)
    ensures AllSized(LowerInstr(i), off)
  {
    hide OperandOf, ReplaceOp, ValOk, HasSlots;
    ValueLowered(t, i.src, off);
    ImmKept(off);
  }

  lemma BinarySized(t: Types, i: Instr, off: map<nat, int>)
    requires i.IBinary? && InstrOk(t, i) && HasSlots(t, off) && CountFits(i)
    ensures AllSized(LowerInstr(i), off)
  {
    hide OperandOf, ReplaceOp, ValOk, HasSlots;
    ValueLowered(t, i.lhs, off);
    ValueLowered(t, i.rhs, off);
    ImmKept(off);
    if A.IsShift(i.bop) { ShiftCode(i); }
  }

  lemma SizedJoin(a: seq<X.AInstr>, b: seq<X.AInstr>, off: map<nat, int>)
    requires AllSized(a, off) && AllSized(b, off)
    ensures AllSized(a + b, off)
  {
    hide Sized, Replace;
  }

  lemma MovesSized(c: seq<X.AInstr>, off: map<nat, int>)
    requires forall k :: 0 <= k < |c| ==> c[k].Push? || c[k].Mov? || c[k].Call?
    ensures AllSized(c, off)
  {
  }

  lemma AdjustSized(op: X.BinaryOp, bytes: nat, off: map<nat, int>)
    requires op.AddOp? || op.SubOp?
    ensures AllSized(AdjustSp(op, bytes), off)
  {
  }

  lemma CallSized(i: Instr, off: map<nat, int>)
    requires i.ICall?
    ensures AllSized(Before(i.args), off) && AllSized(After(i.args, i.dst), off)
  {
    hide AllSized, Pushes, RegMoves, AdjustSp;
    var n := RegCount(|i.args|);
    PushesPlain(i.args[n..]);
    RegMovesPlain(i.args, n);
    MovesSized(Pushes(i.args[n..]) + RegMoves(i.args, n), off);
    AdjustSized(X.SubOp, Padding(|i.args|), off);
    AdjustSized(X.AddOp, PushedBytes(|i.args|), off);
    MovesSized(TakeResult(i.dst), off);
    SizedJoin(AdjustSp(X.SubOp, Padding(|i.args|)), Pushes(i.args[n..]) + RegMoves(i.args, n), off);
    SizedJoin(AdjustSp(X.AddOp, PushedBytes(|i.args|)), TakeResult(i.dst), off);
  }

  lemma InstrSized(t: Types, i: Instr, off: map<nat, int>)
    requires !i.ICall? && InstrOk(t, i) && HasSlots(t, off) && CountFits(i)
    ensures AllSized(LowerInstr(i), off)
  {
    hide OperandOf, ReplaceOp, ValOk, HasSlots, LowerUnary, LowerBinary;
    ImmKept(off);
    match i
    case IReturn(v) => if !v.NoValue? { ValueLowered(t, v, off); }
    case IUnary(_, _, _) => UnarySized(t, i, off);
    case IBinary(_, _, _, _) => BinarySized(t, i, off);
    case ICopy(a, d) => ValueLowered(t, a, off);
    case IJump(_) =>
    case IJumpIfZero(c, _) => ValueLowered(t, c, off);
    case IJumpIfNotZero(c, _) => ValueLowered(t, c, off);
    case ILabel(_) =>
    case ICast(a, d) => ValueLowered(t, a, off);
  }

  lemma FixedLegal(c: seq<X.AInstr>, off: map<nat, int>)
    requires AllLowered(c, off) && AllSized(c, off)
    ensures AllLegal(Fixed(c, off))
  {
    hide Lowered, Sized, Legal, Replace;
    forall k | 0 <= k < |Fixed(c, off)| ensures Legal(Fixed(c, off)[k]) {
      FixLegal(ReplaceAll(c, off), k);
    }
  }

  /** A count that does not fit stays where no shift accepts it, or is legalised into %r10, which no
      shift accepts either. */
  lemma LargeCountIllegal(t: Types, i: Instr, off: map<nat, int>)
    requires InstrOk(t, i) && HasSlots(t, off) && !CountFits(i)
    ensures !AllLegal(BlockOf(i, off))
  {
    hide HasSlots, ValOk, FixMov;
    ShiftCode(i);
    ValueLowered(t, i.dst, off);
    var d, w, op := OperandOf(i.dst), WOf(i.dst), BinaryOf(i.bop);
    var first, second := X.Mov(w, OperandOf(i.lhs), d), X.Binary(w, op, X.Imm(i.rhs.c), d);
    var large := !FitsInt32(i.rhs.c);
    var bad := X.Binary(w, op, if large then VIA_R10 else X.Imm(i.rhs.c), ReplaceOp(d, off));
    var a := ReplaceAll([first], off);
    assert LowerInstr(i) == [first] + [second];
    ReplaceAppend([first], [second], off);
    FixAppend(a, ReplaceAll([second], off));
    assert ReplaceAll([second], off) == [Replace(second, off)];
    assert FixAll([Replace(second, off)]) == (if large then [X.Mov(w, X.Imm(i.rhs.c), VIA_R10), bad] else [bad]) by { OneFixed(Replace(second, off)); }
    var k := |FixAll(a)| + if large then 1 else 0;
    assert BlockOf(i, off)[k] == bad;
  }

  lemma OneFixed(i: X.AInstr)
    ensures FixAll([i]) == Fix(i)
  {
    assert [i][1..] == [];
  }

  /** Legalisation is complete for a typed instruction if and only if its shift count fits. */
  lemma BlockLegal(t: Types, i: Instr, off: map<nat, int>)
    requires InstrOk(t, i) && HasSlots(t, off)
    ensures AllLegal(BlockOf(i, off)) <==> CountFits(i)
  {
    hide InstrOk, HasSlots, AllLowered, AllSized, Before, After, Legal, LowerInstr;
    if !CountFits(i) {
      LargeCountIllegal(t, i, off);
    } else if i.ICall? {
      CallLowered(t, i, off);
      CallSized(i, off);
      FixedLegal(Before(i.args), off);
      FixedLegal(After(i.args, i.dst), off);
      CallBlockIs(i, off);
      assert Legal(X.Call(i.fn)) by { CallLegal(i.fn); }
    } else {
      InstrLowered(t, i, off);
      InstrSized(t, i, off);
      FixedLegal(LowerInstr(i), off);
    }
  }

  lemma CallLegal(fn: nat)
    ensures Legal(X.Call(fn))
  {
  }

  /** All of a function's code is legal if and only if all its constant shift counts fit. */
  lemma {:induction false} BlocksLegal(t: Types, code: seq<Instr>, off: map<nat, int>)
    requires AllInstrsOk(t, code) && HasSlots(t, off)
    ensures AllLegal(Blocks(code, off)) <==> forall k :: 0 <= k < |code| ==> CountFits(code[k])
  {
    hide InstrOk, HasSlots, BlockOf, Legal, CountFits;
    if code != [] {
      BlockLegal(t, code[0], off);
      BlocksLegal(t, code[1..], off);
      LegalJoin(BlockOf(code[0], off), Blocks(code[1..], off));
      assert forall k :: 0 < k < |code| ==> code[k] == code[1..][k - 1];
    }
  }

  lemma LegalJoin(a: seq<X.AInstr>, b: seq<X.AInstr>)
    ensures AllLegal(a + b) <==> AllLegal(a) && AllLegal(b)
  {
    hide Legal;
    if AllLegal(a + b) {
      forall k | 0 <= k < |a| ensures Legal(a[k]) { assert a[k] == (a + b)[k]; }
      forall k | 0 <= k < |b| ensures Legal(b[k]) { assert b[k] == (a + b)[|a| + k]; }
    }
  }

  lemma {:induction false} ParamsLegal(t: Types, params: seq<Value>, off: map<nat, int>)
    requires ParamsOk(t, params) && HasSlots(t, off)
    ensures AllLegal(Fixed(LowerParams(params, |params|), off))
  {
    hide AllLowered, ParamsOk, HasSlots, Fixed, AllLegal, AllSized;
    ParamsLowered(t, params, |params|, off);
    ParamsMoves(params, |params|);
    MovesSized(LowerParams(params, |params|), off);
    FixedLegal(LowerParams(params, |params|), off);
  }

  lemma {:induction false} ParamsMoves(params: seq<Value>, n: nat)
    requires n <= |params|
    ensures forall k :: 0 <= k < |LowerParams(params, n)| ==> LowerParams(params, n)[k].Mov?
  {
    hide OperandOf, ParamSource;
    if n > 0 { ParamsMoves(params, n - 1); }
  }

  /** The prologue is not legalised: its subtraction exists if the frame size fits. */
  lemma PrologueLegal(size: nat)
    ensures AllLegal(Prologue(size)) <==> FitsInt32(size)
  {
    var p := Prologue(size);
    assert p[0] == X.Push(X.RegOp(X.BP)) && p[1] == X.Mov(W64, X.RegOp(X.SP), X.RegOp(X.BP));
    if size > 0 { assert p[2] == X.Binary(W64, X.SubOp, X.Imm(size), X.RegOp(X.SP)); }
  }

  /** Everything handed to the assembler for a typed function exists if and only if its frame fits in
      32 bits and every constant shift count, in dead code too, in 8. */
  lemma FunctionLegal(t: Types, g: Fun)
    requires FunOk(t, g)
    ensures AllLegal(TextOf(t, g)) <==> FitsInt32(FrameSize(t, g)) && forall k :: 0 <= k < |g.code| ==> CountFits(g.code[k])
  {
    hide LayoutOf, InstrOk, ParamsOk, HasSlots, Restrict, Prologue, Fixed, Blocks, CountFits, AllLegal, LowerParams;
    var off, size := LaidOut(t, g).off, FrameSize(t, g);
    RestrictedSlots(t, off);
    RestrictedFun(t, g);
    PrologueLegal(size);
    ParamsLegal(Restrict(t, off), g.params, off);
    BlocksLegal(Restrict(t, off), g.code, off);
    LegalJoin(Prologue(size), Fixed(LowerParams(g.params, |g.params|), off) + Blocks(g.code, off));
    LegalJoin(Fixed(LowerParams(g.params, |g.params|), off), Blocks(g.code, off));
  }

  const X0 := A.Symbol(0, A.Int, false)
  const DEAD_SHIFT := A.Binary(A.Shl, A.Ident(X0), A.LongConst(5000000000), A.Int)
  const DEAD_CODE := A.If(A.IntConst(0), A.Return(Some(DEAD_SHIFT)), None)

  lemma LeafCode(s: A.Symbol, v: int, np: nat, nl: nat)
    ensures GenExpr(A.Ident(s), np, nl) == Out([], Object(s), np, nl)
    ensures GenExpr(A.IntConst(v), np, nl) == Out([], Const(A.Int, v), np, nl)
    ensures GenExpr(A.LongConst(v), np, nl) == Out([], Const(A.Long, v), np, nl)
  {
  }

  lemma DeadShiftCode(np: nat, nl: nat)
    ensures var code := GenStmt(DEAD_CODE, np, nl).code;
            |code| > 1 && code[1] == IBinary(A.Shl, Object(X0), Const(A.Long, 5000000000), Pseudo(A.Int, np))
  {
    hide GenExpr;
    LeafCode(X0, 0, np, nl);
    LeafCode(X0, 5000000000, np, nl + 1);
    BinaryCode(DEAD_SHIFT, np, nl + 1);
    assert GenStmt(A.Return(Some(DEAD_SHIFT)), np, nl + 1).code[0] == GenExpr(DEAD_SHIFT, np, nl + 1).code[0];
  }

  /** 'if (0) return x << 5000000000;' passes analysis, never shifts, and still cannot be assembled. */
  lemma DeadShift(t: Types, np: nat, nl: nat)
    requires 0 in t.pseudo && t.pseudo[0] == A.Int
    ensures StmtTyped(t, A.Int, DEAD_CODE)
    ensures exists k :: 0 <= k < |GenStmt(DEAD_CODE, np, nl).code| && !CountFits(GenStmt(DEAD_CODE, np, nl).code[k])
  {
    hide GenStmt;
    DeadShiftCode(np, nl);
    assert ValueTyped(t, DEAD_SHIFT);
    assert StmtTyped(t, A.Int, A.Return(Some(DEAD_SHIFT)));
  }
}
