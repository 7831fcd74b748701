/** Three-address code and its program-counter machine. */
module Ir {
  import opened Ast
  import opened Semantics

  datatype Value =
    | NoValue
    | Const(ty: Ty, c: int)
    | Pseudo(ty: Ty, id: nat)
    | StaticObj(ty: Ty, id: nat)

  datatype LabelKind = LTemp | LBreak | LContinue | LCase | LUser
  datatype Lbl = Lbl(kind: LabelKind, id: nat)

  datatype Instr =
    | IReturn(src: Value)
    | IUnary(uop: UnOp, src: Value, dst: Value)
    | IBinary(bop: BinOp, lhs: Value, rhs: Value, dst: Value)
    | ICopy(src: Value, dst: Value)
    | IJump(target: Lbl)
    | IJumpIfZero(cond: Value, target: Lbl)
    | IJumpIfNotZero(cond: Value, target: Lbl)
    | ILabel(lbl: Lbl)
    | ICall(fn: nat, args: seq<Value>, dst: Value)
    | ICast(src: Value, dst: Value)

  function ReadVal(v: Value, s: Store): int {
    match v
    case NoValue => 0
    case Const(_, c) => c
    case Pseudo(_, id) => Local(s, id)
    case StaticObj(_, id) => Static(s, id)
  }

  function WriteVal(v: Value, x: int, s: Store): Store {
    match v
    case Pseudo(_, id) => s.(locals := s.locals[id := x])
    case StaticObj(_, id) => s.(statics := s.statics[id := x])
    case _ => s
  }

  function ReadVals(vs: seq<Value>, s: Store): (r: seq<int>)
    ensures |r| == |vs|
  {
    if vs == [] then [] else [ReadVal(vs[0], s)] + ReadVals(vs[1..], s)
  }

  function TyOf(v: Value): Ty {
    if v.NoValue? then Void else v.ty
  }

  /** First position of a label, or the end of the code. */
  function Lookup(code: seq<Instr>, l: Lbl): (p: nat)
    ensures p <= |code|
  {
    if code == [] then 0
    else if code[0] == ILabel(l) then 0
    else 1 + Lookup(code[1..], l)
  }

  datatype IrState = At(pc: nat, s: Store) | Done(v: int, st: Store) | IrWrong

  function StepAt(code: seq<Instr>, pc: nat, s: Store, callees: Callees): IrState {
    if pc >= |code| then IrWrong else
    match code[pc]
    case IReturn(v) => Done(ReadVal(v, s), s)
    case IUnary(op, a, d) =>
      At(pc + 1, WriteVal(d, UnaryValue(op, ReadVal(a, s), WidthOf(TyOf(d))), s))
    case IBinary(op, a, b, d) =>
      var v := BinaryValue(op, ReadVal(a, s), ReadVal(b, s), WidthOf(TyOf(if IsShift(op) then d else a)));
      if v.None? then IrWrong else At(pc + 1, WriteVal(d, v.value, s))
    case ICopy(a, d) => At(pc + 1, WriteVal(d, ReadVal(a, s), s))
    case IJump(l) => At(Lookup(code, l), s)
    case IJumpIfZero(c, l) => if ReadVal(c, s) == 0 then At(Lookup(code, l), s) else At(pc + 1, s)
    case IJumpIfNotZero(c, l) => if ReadVal(c, s) != 0 then At(Lookup(code, l), s) else At(pc + 1, s)
    case ILabel(_) => At(pc + 1, s)
    case ICall(fn, args, d) =>
      var r := DoCall(s, fn, ReadVals(args, s), callees);
      if r.None? then IrWrong else At(pc + 1, WriteVal(d, r.value.0, r.value.1))
    case ICast(a, d) => At(pc + 1, WriteVal(d, Convert(ReadVal(a, s), TyOf(d)), s))
  }

  function IrStep(code: seq<Instr>, st: IrState, callees: Callees): IrState {
    if st.At? then StepAt(code, st.pc, st.s, callees) else st
  }

  function IrSteps(code: seq<Instr>, st: IrState, n: nat, callees: Callees): IrState
    decreases n
  {
    if n == 0 then st else IrSteps(code, IrStep(code, st, callees), n - 1, callees)
  }

  lemma {:induction false} Chain(code: seq<Instr>, a: IrState, n: nat, b: IrState, k: nat, c: IrState, callees: Callees)
    requires IrSteps(code, a, n, callees) == b
    requires IrSteps(code, b, k, callees) == c
    ensures IrSteps(code, a, n + k, callees) == c
    decreases n
  {
    if n > 0 {
      Chain(code, IrStep(code, a, callees), n - 1, b, k, c, callees);
    }
  }

  lemma {:induction false} StoppedStays(code: seq<Instr>, ir: IrState, n: nat, callees: Callees)
    requires !ir.At?
    ensures IrSteps(code, ir, n, callees) == ir
    decreases n
  {
    if n > 0 { StoppedStays(code, ir, n - 1, callees); }
  }

  lemma {:induction false} StepsSplit(code: seq<Instr>, ir: IrState, a: nat, b: nat, callees: Callees)
    ensures IrSteps(code, ir, a + b, callees) == IrSteps(code, IrSteps(code, ir, a, callees), b, callees)
    decreases a
  {
    if a > 0 { StepsSplit(code, IrStep(code, ir, callees), a - 1, b, callees); }
  }

  /** Occurrences of a label definition. */
  function Count(code: seq<Instr>, l: Lbl): nat {
    if code == [] then 0
    else (if code[0] == ILabel(l) then 1 else 0) + Count(code[1..], l)
  }

  ghost predicate UniqueLabels(code: seq<Instr>) {
    forall l :: Count(code, l) <= 1
  }

  lemma {:induction false} CountAppend(a: seq<Instr>, b: seq<Instr>, l: Lbl)
    ensures Count(a + b, l) == Count(a, l) + Count(b, l)
  {
    if a == [] {
      assert a + b == b;
    } else {
      assert (a + b)[1..] == a[1..] + b;
      CountAppend(a[1..], b, l);
    }
  }

  lemma {:induction false} CountAt(code: seq<Instr>, p: nat, l: Lbl)
    requires p < |code| && code[p] == ILabel(l)
    ensures Count(code, l) >= 1
  {
    if p > 0 { CountAt(code[1..], p - 1, l); }
  }

  /** With unique labels, a jump reaches the one place that defines its label. */
  lemma {:induction false} LookupAt(code: seq<Instr>, p: nat, l: Lbl)
    requires p < |code| && code[p] == ILabel(l)
    requires Count(code, l) <= 1
    ensures Lookup(code, l) == p
  {
    if p > 0 {
      CountAt(code[1..], p - 1, l);
      LookupAt(code[1..], p - 1, l);
    }
  }

  /** 'part' stands at position 'p' of 'code'. */
  predicate CodeAt(code: seq<Instr>, p: nat, part: seq<Instr>) {
    p + |part| <= |code| && code[p..p + |part|] == part
  }

  lemma CodeSplit(code: seq<Instr>, p: nat, a: seq<Instr>, b: seq<Instr>)
    requires CodeAt(code, p, a + b)
    ensures CodeAt(code, p, a) && CodeAt(code, p + |a|, b)
    ensures b != [] ==> p + |a| < |code| && code[p + |a|] == b[0]
  {
    var ab := code[p..p + |a + b|];
    assert ab[..|a|] == a && ab[|a|..] == b;
    assert code[p..p + |a|] == ab[..|a|];
    assert code[p + |a|..p + |a| + |b|] == ab[|a|..];
    if b != [] {
      assert code[p + |a|] == ab[|a|];
    }
  }

  lemma CodeHead(code: seq<Instr>, p: nat, part: seq<Instr>)
    requires CodeAt(code, p, part) && part != []
    ensures p < |code| && code[p] == part[0] && CodeAt(code, p + 1, part[1..])
  {
    assert code[p] == code[p..p + |part|][0];
    assert code[p + 1..p + |part|] == code[p..p + |part|][1..];
  }

  lemma CodeSplit4(code: seq<Instr>, p: nat, a: seq<Instr>, b: seq<Instr>, c: seq<Instr>, d: seq<Instr>)
    requires CodeAt(code, p, a + (b + (c + d)))
    ensures var q := p + |a|;
            var r := q + |b|;
            var t := r + |c|;
            && CodeAt(code, p, a) && CodeAt(code, q, b) && CodeAt(code, r, c) && CodeAt(code, t, d)
            && |a + (b + (c + d))| == |a| + |b| + |c| + |d|
  {
    hide CodeAt;
    CodeSplit(code, p, a, b + (c + d));
    CodeSplit(code, p + |a|, b, c + d);
    CodeSplit(code, p + |a| + |b|, c, d);
  }
}
