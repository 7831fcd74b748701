/** What the phases hand to each other: every pseudo of the code gets a slot, and every instruction
    of the result exists on the processor. */
module Placement {
  import A = Ast
  import opened Ir
  import opened Memory
  import X = X86
  import opened Lower
  import opened Frames
  import opened LowerProof
  import opened Slots
  import opened Fixup
  import opened Backend
  import opened Execution

  /** Size of each pseudo, from its one type. */
  function SizesOf(t: Types): (sizes: map<nat, nat>)
    ensures GoodSizes(sizes)
  {
    map id | id in t.pseudo :: SizeOf(PW(t, id))
  }

  function LayoutOf(t: Types, params: seq<Value>, code: seq<Instr>): Layout {
    PlaceAll(Layout(0, map[]), LowerFunction(params, code), SizesOf(t))
  }

  /** The types of the pseudos that have slots. */
  function Restrict(t: Types, off: map<nat, int>): Types {
    t.(pseudo := map id | id in t.pseudo && id in off :: t.pseudo[id])
  }

  predicate ValPlaced(v: Value, off: map<nat, int>) {
    v.Pseudo? ==> v.id in off
  }

  predicate AllPlaced(c: seq<X.AInstr>, off: map<nat, int>) {
    forall k :: 0 <= k < |c| ==> Placed(c[k], off)
  }

  /** Offsets for all the pseudos of 't'; stands for "is one of them". */
  function Members(t: Types): map<nat, int> {
    map id | id in t.pseudo :: 0
  }

  lemma PlacedKnown(i: X.AInstr, t: Types)
    requires Placed(i, Members(t))
    ensures OperandsKnown(i, SizesOf(t))
  {
  }

  lemma LoweredAllPlaced(c: seq<X.AInstr>, off: map<nat, int>)
    requires AllLowered(c, off)
    ensures AllPlaced(c, off)
  {
    hide Lowered, Replace, Placed;
    forall k | 0 <= k < |c| ensures Placed(c[k], off) { LoweredPlaced(c[k], off); }
  }

  lemma PlacedJoin(a: seq<X.AInstr>, b: seq<X.AInstr>, off: map<nat, int>)
    ensures AllPlaced(a + b, off) <==> AllPlaced(a, off) && AllPlaced(b, off)
  {
    hide Placed;
    if AllPlaced(a + b, off) {
      forall k | 0 <= k < |a| ensures Placed(a[k], off) { assert a[k] == (a + b)[k]; }
      forall k | 0 <= k < |b| ensures Placed(b[k], off) { assert b[k] == (a + b)[|a| + k]; }
    }
  }

  /** Lowered code mentions pseudos of 't' only. */
  lemma InstrMembers(t: Types, i: Instr)
    requires InstrOk(t, i)
    ensures AllPlaced(LowerInstr(i), Members(t))
  {
    hide LowerInstr, InstrOk, Placed;
    if i.ICall? {
      CallLowered(t, i, Members(t));
      LoweredAllPlaced(Before(i.args), Members(t));
      LoweredAllPlaced(After(i.args, i.dst), Members(t));
      CallSplit(i);
      assert Placed(X.Call(i.fn), Members(t)) by { CallPlaced(i.fn, Members(t)); }
      PlacedJoin([X.Call(i.fn)], After(i.args, i.dst), Members(t));
      PlacedJoin(Before(i.args), [X.Call(i.fn)] + After(i.args, i.dst), Members(t));
    } else {
      InstrLowered(t, i, Members(t));
      LoweredAllPlaced(LowerInstr(i), Members(t));
    }
  }

  lemma CallPlaced(fn: nat, off: map<nat, int>)
    ensures Placed(X.Call(fn), off)
  {
  }

  predicate AllInstrsOk(t: Types, code: seq<Instr>) {
    forall k :: 0 <= k < |code| ==> InstrOk(t, code[k])
  }

  lemma {:induction false} CodeMembers(t: Types, code: seq<Instr>)
    requires AllInstrsOk(t, code)
    ensures AllPlaced(LowerAll(code), Members(t))
  {
    hide LowerInstr, InstrOk, Placed;
    if code != [] {
      InstrMembers(t, code[0]);
      CodeMembers(t, code[1..]);
      PlacedJoin(LowerInstr(code[0]), LowerAll(code[1..]), Members(t));
    }
  }

  /** The slots of a function: aligned, disjoint, inside the frame, one for every pseudo it uses. */
  lemma LayoutSound(t: Types, params: seq<Value>, code: seq<Instr>)
    requires ParamsOk(t, params) && AllInstrsOk(t, code)
    ensures var l := LayoutOf(t, params, code);
            && LayoutOk(l, SizesOf(t))
            && AllPlaced(LowerParams(params, |params|), l.off) && AllPlaced(LowerAll(code), l.off)
  {
    hide LayoutOk, Placed, PlaceAll, InstrOk;
    var low := LowerFunction(params, code);
    ParamsLowered(t, params, |params|, Members(t));
    LoweredAllPlaced(LowerParams(params, |params|), Members(t));
    CodeMembers(t, code);
    PlacedJoin(LowerParams(params, |params|), LowerAll(code), Members(t));
    forall k | 0 <= k < |low| ensures OperandsKnown(low[k], SizesOf(t)) { PlacedKnown(low[k], t); }
    EmptyOk(SizesOf(t));
    PlaceAllOk(Layout(0, map[]), low, SizesOf(t));
    PlacedJoin(LowerParams(params, |params|), LowerAll(code), LayoutOf(t, params, code).off);
  }

  lemma EmptyOk(sizes: map<nat, nat>)
    ensures LayoutOk(Layout(0, map[]), sizes)
  {
  }

  lemma OperandPlaced(i: X.AInstr, v: Value, off: map<nat, int>)
    requires Placed(i, off) && OperandOf(v) in OperandsOf(i)
    ensures ValPlaced(v, off)
  {
  }

  lemma {:induction false} PushesMention(rest: seq<Value>, off: map<nat, int>, j: nat)
    requires AllPlaced(Pushes(rest), off) && j < |rest|
    ensures ValPlaced(rest[j], off)
  {
    hide Placed, OperandOf;
    var last := [X.Push(OperandOf(rest[0]))];
    PlacedJoin(Pushes(rest[1..]), last, off);
    if j == 0 {
      assert Placed(last[0], off);
      OperandPlaced(last[0], rest[0], off);
    } else {
      PushesMention(rest[1..], off, j - 1);
    }
  }

  lemma {:induction false} RegMovesMention(args: seq<Value>, n: nat, off: map<nat, int>, j: nat)
    requires n <= |args| && n <= 6 && AllPlaced(RegMoves(args, n), off) && j < n
    ensures ValPlaced(args[j], off)
  {
    hide Placed, OperandOf;
    var v := args[n - 1];
    var last := [X.Mov(WOf(v), OperandOf(v), X.RegOp(ArgReg(n - 1)))];
    PlacedJoin(RegMoves(args, n - 1), last, off);
    if j == n - 1 {
      assert Placed(last[0], off);
      OperandPlaced(last[0], v, off);
    } else {
      RegMovesMention(args, n - 1, off, j);
    }
  }

  lemma CallMentions(i: Instr, off: map<nat, int>)
    requires i.ICall? && AllPlaced(LowerInstr(i), off)
    ensures (forall k :: 0 <= k < |i.args| ==> ValPlaced(i.args[k], off)) && (i.dst.NoValue? || ValPlaced(i.dst, off))
  {
    hide Placed, AllPlaced, OperandOf, ValPlaced, Pushes, RegMoves, AdjustSp, LowerInstr;
    var n := RegCount(|i.args|);
    CallSplit(i);
    PlacedJoin(Before(i.args), [X.Call(i.fn)] + After(i.args, i.dst), off);
    PlacedJoin(AdjustSp(X.SubOp, Padding(|i.args|)), Pushes(i.args[n..]) + RegMoves(i.args, n), off);
    PlacedJoin(Pushes(i.args[n..]), RegMoves(i.args, n), off);
    PlacedJoin([X.Call(i.fn)], After(i.args, i.dst), off);
    PlacedJoin(AdjustSp(X.AddOp, PushedBytes(|i.args|)), TakeResult(i.dst), off);
    forall k | 0 <= k < |i.args| ensures ValPlaced(i.args[k], off) {
      if k < n { RegMovesMention(i.args, n, off, k); } else { PushesMention(i.args[n..], off, k - n); }
    }
    if !i.dst.NoValue? { TakeMentions(i.dst, off); }
  }

  lemma TakeMentions(d: Value, off: map<nat, int>)
    requires !d.NoValue? && AllPlaced(TakeResult(d), off)
    ensures ValPlaced(d, off)
  {
    OperandPlaced(TakeResult(d)[0], d, off);
  }

  lemma RestrictVal(t: Types, v: Value, off: map<nat, int>)
    requires ValOk(t, v) && ValPlaced(v, off)
    ensures ValOk(Restrict(t, off), v)
  {
  }

  /** The code is as well typed over the pseudos that have slots. */
  lemma InstrRestricted(t: Types, i: Instr, off: map<nat, int>)
    requires InstrOk(t, i) && AllPlaced(LowerInstr(i), off)
    ensures InstrOk(Restrict(t, off), i)
  {
    hide Placed, OperandOf, ValPlaced, ValOk, AllPlaced, LowerBinary, LowerCall;
    match i
    case IReturn(v) => if !v.NoValue? { Mentioned(i, v, 0, off); RestrictVal(t, v, off); }
    case IUnary(op, a, d) =>
      Mentioned(i, a, 0, off);
      Mentioned(i, d, 1, off);
      RestrictVal(t, a, off);
      RestrictVal(t, d, off);
    case IBinary(op, a, b, d) => BinaryRestricted(t, i, off);
    case ICopy(a, d) => Mentioned(i, a, 0, off); Mentioned(i, d, 0, off); RestrictVal(t, a, off); RestrictVal(t, d, off);
    case IJump(_) =>
    case IJumpIfZero(c, _) => Mentioned(i, c, 0, off); RestrictVal(t, c, off);
    case IJumpIfNotZero(c, _) => Mentioned(i, c, 0, off); RestrictVal(t, c, off);
    case ILabel(_) =>
    case ICall(fn, args, d) =>
      CallMentions(i, off);
      forall k | 0 <= k < |args| ensures ValOk(Restrict(t, off), args[k]) { RestrictVal(t, args[k], off); }
      if !d.NoValue? { RestrictVal(t, d, off); }
    case ICast(a, d) => Mentioned(i, a, 0, off); Mentioned(i, d, 0, off); RestrictVal(t, a, off); RestrictVal(t, d, off);
  }

  lemma Mentioned(i: Instr, v: Value, k: nat, off: map<nat, int>)
    requires AllPlaced(LowerInstr(i), off) && k < |LowerInstr(i)| && OperandOf(v) in OperandsOf(LowerInstr(i)[k])
    ensures ValPlaced(v, off)
  {
    hide Placed, ValPlaced, LowerInstr, OperandsOf;
    OperandPlaced(LowerInstr(i)[k], v, off);
  }

  lemma BinaryRestricted(t: Types, i: Instr, off: map<nat, int>)
    requires i.IBinary? && InstrOk(t, i) && AllPlaced(LowerInstr(i), off)
    ensures InstrOk(Restrict(t, off), i)
  {
    hide Placed, OperandOf, ValPlaced, ValOk, AllPlaced;
    var last := |LowerInstr(i)| - 1;
    Mentioned(i, i.lhs, 0, off);
    Mentioned(i, i.dst, last, off);
    if A.IsCompare(i.bop) { Mentioned(i, i.rhs, 0, off); }
    else if i.bop.Div? || i.bop.Rem? { Mentioned(i, i.rhs, 2, off); }
    else if A.IsShift(i.bop) { ShiftCode(i); if !i.rhs.Const? { Mentioned(i, i.rhs, 1, off); } else { ConstPlaced(i.rhs, off); } }
    else { Mentioned(i, i.rhs, 1, off); }
    RestrictVal(t, i.lhs, off);
    RestrictVal(t, i.rhs, off);
    RestrictVal(t, i.dst, off);
  }

  lemma ConstPlaced(v: Value, off: map<nat, int>)
    requires v.Const?
    ensures ValPlaced(v, off)
  {
  }
}
