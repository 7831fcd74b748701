/** The three phases composed: each three-address instruction becomes a block of legal instructions
    over stack slots, and running the blocks follows the three-address machine step by step. */
module Backend {
  import opened Arith
  import A = Ast
  import opened Ir
  import opened Semantics
  import opened Memory
  import X = X86
  import opened Lower
  import opened Frames
  import opened LowerProof
  import opened CallProof
  import opened Slots
  import opened Fixup

  function BlockOf(i: Instr, off: map<nat, int>): seq<X.AInstr> {
    FixAll(ReplaceAll(LowerInstr(i), off))
  }

  function Blocks(code: seq<Instr>, off: map<nat, int>): seq<X.AInstr> {
    if code == [] then [] else BlockOf(code[0], off) + Blocks(code[1..], off)
  }

  /** Position of the block of instruction 'i' among the blocks. */
  function Pos(code: seq<Instr>, i: nat, off: map<nat, int>): nat
    requires i <= |code|
  {
    if i == 0 then 0 else |BlockOf(code[0], off)| + Pos(code[1..], i - 1, off)
  }

  lemma {:induction false} ReplaceAppend(a: seq<X.AInstr>, b: seq<X.AInstr>, off: map<nat, int>)
    ensures ReplaceAll(a + b, off) == ReplaceAll(a, off) + ReplaceAll(b, off)
  {
    hide Replace;
    if a == [] {
      assert a + b == b;
    } else {
      assert (a + b)[1..] == a[1..] + b;
      ReplaceAppend(a[1..], b, off);
    }
  }

  /** The phases work block by block. */
  lemma {:induction false} BlocksAre(code: seq<Instr>, off: map<nat, int>)
    ensures FixAll(ReplaceAll(LowerAll(code), off)) == Blocks(code, off)
  {
    hide LowerInstr;
    if code != [] {
      ReplaceAppend(LowerInstr(code[0]), LowerAll(code[1..]), off);
      FixAppend(ReplaceAll(LowerInstr(code[0]), off), ReplaceAll(LowerAll(code[1..]), off));
      BlocksAre(code[1..], off);
    }
  }

  lemma {:induction false} BlockPlaced(code: seq<Instr>, i: nat, off: map<nat, int>)
    requires i < |code|
    ensures var a, b := Pos(code, i, off), Pos(code, i + 1, off);
            b == a + |BlockOf(code[i], off)| && b <= |Blocks(code, off)| && Blocks(code, off)[a..b] == BlockOf(code[i], off)
  {
    hide BlockOf;
    var first, rest := BlockOf(code[0], off), Blocks(code[1..], off);
    if i > 0 {
      BlockPlaced(code[1..], i - 1, off);
      var a, b := Pos(code[1..], i - 1, off), Pos(code[1..], i, off);
      assert (first + rest)[|first| + a..|first| + b] == rest[a..b];
    } else {
      assert Pos(code[1..], 0, off) == 0;
      assert (first + rest)[0..|first|] == first;
    }
  }

  predicate NoLabels(c: seq<X.AInstr>) {
    forall k :: 0 <= k < |c| ==> !c[k].LabelAt?
  }

  lemma {:induction false} LookupSkip(a: seq<X.AInstr>, b: seq<X.AInstr>, l: Lbl)
    requires forall k :: 0 <= k < |a| ==> a[k] != X.LabelAt(l)
    ensures X.Lookup(a + b, l) == |a| + X.Lookup(b, l)
  {
    if a == [] {
      assert a + b == b;
    } else {
      assert (a + b)[1..] == a[1..] + b;
      LookupSkip(a[1..], b, l);
    }
  }

  lemma FixNoLabel(i: X.AInstr)
    requires !i.LabelAt?
    ensures NoLabels(Fix(i)) && Fix(i) != []
  {
  }

  lemma {:induction false} FixNoLabels(c: seq<X.AInstr>)
    requires NoLabels(c)
    ensures NoLabels(FixAll(c)) && |c| <= |FixAll(c)|
  {
    hide Fix;
    if c != [] {
      FixNoLabel(c[0]);
      FixNoLabels(c[1..]);
    }
  }

  lemma {:induction false} PushesPlain(rest: seq<Value>)
    ensures forall k :: 0 <= k < |Pushes(rest)| ==> Pushes(rest)[k].Push?
  {
    if rest != [] { PushesPlain(rest[1..]); }
  }

  lemma {:induction false} RegMovesPlain(args: seq<Value>, n: nat)
    requires n <= |args| && n <= 6
    ensures forall k :: 0 <= k < |RegMoves(args, n)| ==> RegMoves(args, n)[k].Mov?
  {
    if n > 0 { RegMovesPlain(args, n - 1); }
  }

  lemma LowerNoLabels(i: Instr)
    requires !i.ILabel?
    ensures NoLabels(LowerInstr(i)) && LowerInstr(i) != []
  {
    hide LowerCall;
    if i.ICall? { CallNoLabels(i.fn, i.args, i.dst); }
  }

  lemma NoLabelsJoin(a: seq<X.AInstr>, b: seq<X.AInstr>)
    requires NoLabels(a) && NoLabels(b)
    ensures NoLabels(a + b)
  {
  }

  lemma CallNoLabels(fn: nat, args: seq<Value>, dst: Value)
    ensures NoLabels(LowerCall(fn, args, dst)) && LowerCall(fn, args, dst) != []
  {
    hide Pushes, RegMoves;
    var n := RegCount(|args|);
    PushesPlain(args[n..]);
    RegMovesPlain(args, n);
    var a, b, c := AdjustSp(X.SubOp, Padding(|args|)), Pushes(args[n..]), RegMoves(args, n);
    var d, e := AdjustSp(X.AddOp, PushedBytes(|args|)), TakeResult(dst);
    NoLabelsJoin(d, e);
    NoLabelsJoin([X.Call(fn)], d + e);
    NoLabelsJoin(c, [X.Call(fn)] + (d + e));
    NoLabelsJoin(b, c + ([X.Call(fn)] + (d + e)));
    NoLabelsJoin(a, b + (c + ([X.Call(fn)] + (d + e))));
  }

  lemma LabelBlock(l: Lbl, off: map<nat, int>)
    ensures BlockOf(ILabel(l), off) == [X.LabelAt(l)]
  {
    var r := ReplaceAll([X.LabelAt(l)], off);
    assert r == [X.LabelAt(l)];
    assert FixAll(r) == Fix(X.LabelAt(l)) + FixAll(r[1..]);
    assert r[1..] == [];
  }

  lemma BlockShape(i: Instr, off: map<nat, int>)
    ensures BlockOf(i, off) != [] && (!i.ILabel? ==> NoLabels(BlockOf(i, off)))
  {
    hide LowerInstr, FixAll;
    if i.ILabel? {
      LabelBlock(i.lbl, off);
    } else {
      LowerNoLabels(i);
      FixNoLabels(ReplaceAll(LowerInstr(i), off));
    }
  }

  /** Labels survive the phases in order: the machine finds a label where its block starts. */
  lemma {:induction false} LookupBlocks(code: seq<Instr>, l: Lbl, off: map<nat, int>)
    ensures X.Lookup(Blocks(code, off), l) == Pos(code, Lookup(code, l), off)
  {
    hide BlockOf;
    if code != [] {
      var b := BlockOf(code[0], off);
      BlockShape(code[0], off);
      if code[0] == ILabel(l) {
        LabelBlock(l, off);
      } else {
        if code[0].ILabel? { LabelBlock(code[0].lbl, off); }
        LookupSkip(b, Blocks(code[1..], off), l);
        LookupBlocks(code[1..], l, off);
      }
    }
  }

  lemma {:induction false} AChain(c: seq<X.AInstr>, a: X.AState, n: nat, b: X.AState, k: nat, p: X.Places, calls: X.Calls)
    requires X.ASteps(c, a, n, p, calls) == b
    ensures X.ASteps(c, a, n + k, p, calls) == X.ASteps(c, b, k, p, calls)
    decreases n
  {
    hide X.AStep;
    if n > 0 { AChain(c, X.AStep(c, a, p, calls), n - 1, b, k, p, calls); }
  }

  /** Where a block with outcome 'o' leaves the machine, 'q' being the position after the block. */
  function Landing(c: seq<X.AInstr>, q: nat, o: X.Outcome): X.AState {
    match o
    case Next(m) => X.Running(q, m)
    case Goto(l, m) => X.Running(X.Lookup(c, l), m)
    case Exit(m, to) => X.Returned(m, to)
    case Fault => X.Crashed
  }

  lemma {:induction false} RunBlock(c: seq<X.AInstr>, pc: nat, b: seq<X.AInstr>, m: X.Mach, p: X.Places, calls: X.Calls)
    returns (n: nat)
    requires pc + |b| <= |c| && c[pc..pc + |b|] == b
    ensures X.ASteps(c, X.Running(pc, m), n, p, calls) == Landing(c, pc + |b|, X.ExecAll(b, m, p, calls))
    ensures b != [] ==> n >= 1
    decreases |b|
  {
    hide X.Exec;
    n := 0;
    if b != [] {
      assert c[pc] == b[0];
      var r := X.Exec(b[0], m, p, calls);
      n := 1;
      assert X.ASteps(c, X.Running(pc, m), 1, p, calls) == X.AStep(c, X.Running(pc, m), p, calls) by {
        var st := X.AStep(c, X.Running(pc, m), p, calls);
        assert X.ASteps(c, st, 0, p, calls) == st;
      }
      if r.Next? {
        assert c[pc + 1..pc + 1 + |b[1..]|] == b[1..];
        var k := RunBlock(c, pc + 1, b[1..], r.m, p, calls);
        AChain(c, X.Running(pc, m), 1, X.Running(pc + 1, r.m), k, p, calls);
        n := 1 + k;
      }
    }
  }

  /** The scratch registers hold no part of the store. */
  lemma RelSimilar(f: Frame, s: Store, m: X.Mach, m': X.Mach, depth: int)
    requires Rel(f, s, m, depth) && Similar(m, m')
    ensures Rel(f, s, m', depth)
  {
    hide PseudoHolds, StaticsHold, KeptAbove;
    forall id ensures PseudoHolds(f, s, m'.mem, id) {
      assert PseudoHolds(f, s, m.mem, id);
    }
  }

  lemma ReturnedSimilar(f: Frame, s: Store, v: Value, m: X.Mach, m': X.Mach)
    requires ReturnedWith(f, s, v, m) && Similar(m, m')
    ensures ReturnedWith(f, s, v, m')
  {
    hide StaticsHold, KeptAbove;
  }

  lemma ReadySimilar(t: Types, places: X.Places, lim: int, fn: nat, m: X.Mach, m': X.Mach, xs: seq<int>, st: map<nat, int>)
    requires CallReady(t, places, lim, fn, m, xs, st) && Similar(m, m')
    ensures CallReady(t, places, lim, fn, m', xs, st)
  {
    hide StaticsHold, Wrap, Load, ArgWord, Similar;
    assert m'.mem == m.mem && X.RegOf(m', X.SP) == X.RegOf(m, X.SP) by { SimilarStack(m, m'); }
    forall i | 0 <= i < |t.params[fn]| ensures ArgPassed(m', i, t.params[fn][i], xs[i]) {
      assert ArgPassed(m, i, t.params[fn][i], xs[i]);
      WordSimilar(m, m', i);
    }
  }

  lemma SimilarStack(m: X.Mach, m': X.Mach)
    requires Similar(m, m')
    ensures m'.mem == m.mem && X.RegOf(m', X.SP) == X.RegOf(m, X.SP)
  {
  }

  /** No argument travels in a scratch register. */
  lemma WordSimilar(m: X.Mach, m': X.Mach, i: nat)
    requires Similar(m, m')
    ensures ArgWord(m', i) == ArgWord(m, i)
  {
    hide Load;
    if i < 6 { assert X.RegOf(m', ArgReg(i)) == X.RegOf(m, ArgReg(i)); }
  }

  /** What one three-address instruction does. */
  datatype Effect = Fall(s: Store) | Leap(l: Lbl, s: Store) | Stop | Bad

  function EffectOf(i: Instr, s: Store, callees: Callees): Effect {
    match i
    case IReturn(_) => Stop
    case IUnary(op, a, d) => Fall(WriteVal(d, UnaryValue(op, ReadVal(a, s), A.WidthOf(TyOf(d))), s))
    case IBinary(op, a, b, d) =>
      var v := BinaryValue(op, ReadVal(a, s), ReadVal(b, s), A.WidthOf(TyOf(if A.IsShift(op) then d else a)));
      if v.None? then Bad else Fall(WriteVal(d, v.value, s))
    case ICopy(a, d) => Fall(WriteVal(d, ReadVal(a, s), s))
    case IJump(l) => Leap(l, s)
    case IJumpIfZero(c, l) => if ReadVal(c, s) == 0 then Leap(l, s) else Fall(s)
    case IJumpIfNotZero(c, l) => if ReadVal(c, s) != 0 then Leap(l, s) else Fall(s)
    case ILabel(_) => Fall(s)
    case ICall(fn, args, d) =>
      var r := DoCall(s, fn, ReadVals(args, s), callees);
      if r.None? then Bad else Fall(WriteVal(d, r.value.0, r.value.1))
    case ICast(a, d) => Fall(WriteVal(d, A.Convert(ReadVal(a, s), TyOf(d)), s))
  }

  function StateAfter(code: seq<Instr>, pc: nat, i: Instr, s: Store, e: Effect): IrState {
    match e
    case Fall(s') => At(pc + 1, s')
    case Leap(l, s') => At(Lookup(code, l), s')
    case Stop => if i.IReturn? then Done(ReadVal(i.src, s), s) else IrWrong
    case Bad => IrWrong
  }

  lemma StepEffect(code: seq<Instr>, pc: nat, s: Store, callees: Callees)
    requires pc < |code|
    ensures StepAt(code, pc, s, callees) == StateAfter(code, pc, code[pc], s, EffectOf(code[pc], s, callees))
  {
    hide BinaryValue, UnaryValue, Lookup, A.Convert;
  }

  /** The machine does to its state what the instruction does to the store. */
  ghost predicate Matches(f: Frame, i: Instr, s: Store, e: Effect, o: X.Outcome) {
    match e
    case Fall(s') => o.Next? && Rel(f, s', o.m, 0)
    case Leap(l, s') => o.Goto? && o.l == l && Rel(f, s', o.m, 0)
    case Stop => i.IReturn? && o.Exit? && o.to == BackTo(f) && ReturnedWith(f, s, i.src, o.m)
    case Bad => true
  }

  lemma BinarySim(f: Frame, s: Store, m: X.Mach, i: Instr, calls: X.Calls) returns (m': X.Mach)
    requires Rel(f, s, m, 0) && FrameOk(f) && i.IBinary? && InstrOk(f.t, i)
    requires BinaryValue(i.bop, ReadVal(i.lhs, s), ReadVal(i.rhs, s), A.WidthOf(TyOf(if A.IsShift(i.bop) then i.dst else i.lhs))).Some?
    ensures X.ExecAll(LowerInstr(i), m, f.places, calls) == X.Next(m')
    ensures var v := BinaryValue(i.bop, ReadVal(i.lhs, s), ReadVal(i.rhs, s), A.WidthOf(TyOf(if A.IsShift(i.bop) then i.dst else i.lhs)));
            Rel(f, WriteVal(i.dst, v.value, s), m', 0)
  {
    hide Rel, FrameOk, BinaryValue, X.ExecAll, LowerInstr;
    if A.IsCompare(i.bop) { m' := CompareSim(f, s, m, i, calls); }
    else if A.IsShift(i.bop) { m' := ShiftSim(f, s, m, i, calls); }
    else if i.bop.Div? || i.bop.Rem? { m' := DivideSim(f, s, m, i, calls); }
    else { m' := DirectSim(f, s, m, i, calls); }
  }

  /** Phase 1, one instruction: everything but calls. */
  lemma PhaseOne(f: Frame, s: Store, m: X.Mach, i: Instr, calls: X.Calls, callees: Callees)
    requires Rel(f, s, m, 0) && FrameOk(f) && InstrOk(f.t, i) && !i.ICall?
    ensures Matches(f, i, s, EffectOf(i, s, callees), X.ExecAll(LowerInstr(i), m, f.places, calls))
  {
    hide Rel, FrameOk, BinaryValue, UnaryValue, X.ExecAll, ReturnedWith, ValOk, DstOk, A.Convert, X.Exec;
    match i
    case IReturn(_) => var _ := ReturnSim(f, s, m, i, calls);
    case IUnary(op, _, _) => if op.LogNot? { var _ := LogNotSim(f, s, m, i, calls); } else { var _ := UnarySim(f, s, m, i, calls); }
    case IBinary(op, a, b, d) =>
      if BinaryValue(op, ReadVal(a, s), ReadVal(b, s), A.WidthOf(TyOf(if A.IsShift(op) then d else a))).Some? {
        var _ := BinarySim(f, s, m, i, calls);
      }
    case ICopy(_, _) => var _ := CopySim(f, s, m, i, calls);
    case IJump(l) => JumpRuns(l, m, f.places, calls);
    case IJumpIfZero(_, _) => var _ := BranchSim(f, s, m, i, calls);
    case IJumpIfNotZero(_, _) => var _ := BranchSim(f, s, m, i, calls);
    case ILabel(l) => LabelRuns(l, m, f.places, calls);
    case ICast(_, _) => var _ := CastSim(f, s, m, i, calls);
  }

  lemma JumpRuns(l: Lbl, m: X.Mach, p: X.Places, calls: X.Calls)
    ensures X.ExecAll([X.Jmp(l)], m, p, calls) == X.Goto(l, m)
  {
  }

  lemma LabelRuns(l: Lbl, m: X.Mach, p: X.Places, calls: X.Calls)
    ensures X.ExecAll([X.LabelAt(l)], m, p, calls) == X.Next(m)
  {
    One(X.LabelAt(l), m, p, calls);
  }

  lemma MatchesSimilar(f: Frame, i: Instr, s: Store, e: Effect, o: X.Outcome, o': X.Outcome)
    requires Matches(f, i, s, e, o) && SameOutcome(o, o')
    ensures Matches(f, i, s, e, o')
  {
    hide Rel, ReturnedWith, Similar;
    match e
    case Fall(s') => RelSimilar(f, s', o.m, o'.m, 0);
    case Leap(_, s') => RelSimilar(f, s', o.m, o'.m, 0);
    case Stop => ReturnedSimilar(f, s, i.src, o.m, o'.m);
    case Bad =>
  }

  /** The pseudos of an instruction have slots. */
  ghost predicate HasSlots(t: Types, off: map<nat, int>) {
    forall id :: id in t.pseudo ==> id in off
  }

  predicate AllLowered(c: seq<X.AInstr>, off: map<nat, int>) {
    forall k :: 0 <= k < |c| ==> Lowered(Replace(c[k], off)) && !c[k].Call?
  }

  lemma ValueLowered(t: Types, v: Value, off: map<nat, int>)
    requires ValOk(t, v) && HasSlots(t, off)
    ensures var o := ReplaceOp(OperandOf(v), off);
            Plain(o) && (!v.Const? ==> !o.Imm?) && (WOf(v) == W32 ==> !IsLargeImm(o))
    ensures v.Const? ==> ReplaceOp(OperandOf(v), off) == X.Imm(v.c)
  {
  }

  lemma UnaryLowered(t: Types, i: Instr, off: map<nat, int>)
    requires i.IUnary? && InstrOk(t, i) && HasSlots(t, off)
    ensures AllLowered(LowerInstr(i), off)
  {
    hide OperandOf, ReplaceOp, ValOk, HasSlots;
    ValueLowered(t, i.src, off);
    ValueLowered(t, i.dst, off);
    ImmKept(off);
  }

  lemma ImmKept(off: map<nat, int>)
    ensures forall c {:trigger ReplaceOp(X.Imm(c), off)} :: ReplaceOp(X.Imm(c), off) == X.Imm(c)
    ensures forall r {:trigger ReplaceOp(X.RegOp(r), off)} :: ReplaceOp(X.RegOp(r), off) == X.RegOp(r)
  {
  }

  lemma BinaryLowered(t: Types, i: Instr, off: map<nat, int>)
    requires i.IBinary? && InstrOk(t, i) && HasSlots(t, off)
    ensures AllLowered(LowerInstr(i), off)
  {
    hide OperandOf, ReplaceOp, ValOk, HasSlots;
    ValueLowered(t, i.lhs, off);
    ValueLowered(t, i.rhs, off);
    ValueLowered(t, i.dst, off);
    ImmKept(off);
    if A.IsShift(i.bop) { ShiftCode(i); }
  }

  /** Without its call, every instruction lowers to what legalisation expects. */
  lemma InstrLowered(t: Types, i: Instr, off: map<nat, int>)
    requires !i.ICall? && InstrOk(t, i) && HasSlots(t, off)
    ensures AllLowered(LowerInstr(i), off)
  {
    hide OperandOf, ReplaceOp, ValOk, HasSlots, LowerUnary, LowerBinary;
    ImmKept(off);
    match i
    case IReturn(v) => if !v.NoValue? { ValueLowered(t, v, off); }
    case IUnary(_, _, _) => UnaryLowered(t, i, off);
    case IBinary(_, _, _, _) => BinaryLowered(t, i, off);
    case ICopy(a, d) => ValueLowered(t, a, off); ValueLowered(t, d, off);
    case IJump(_) =>
    case IJumpIfZero(c, _) => ValueLowered(t, c, off);
    case IJumpIfNotZero(c, _) => ValueLowered(t, c, off);
    case ILabel(_) =>
    case ICast(a, d) => ValueLowered(t, a, off); ValueLowered(t, d, off);
  }

  lemma LoweredPlaced(i: X.AInstr, off: map<nat, int>)
    requires Lowered(Replace(i, off))
    ensures Placed(i, off) && Replace(i, off).Call? == i.Call?
  {
  }

  /** Slot assignment and legalisation keep what a stretch of lowered code does. */
  lemma FixedRun(c: seq<X.AInstr>, m: X.Mach, p: X.Places, calls: X.Calls)
    requires AllLowered(c, p.slot)
    ensures SameOutcome(X.ExecAll(c, m, p, calls), X.ExecAll(FixAll(ReplaceAll(c, p.slot)), m, p, calls))
  {
    hide Lowered, Replace, Placed, Similar, SameOutcome;
    forall k | 0 <= k < |c| ensures Placed(c[k], p.slot) && Replace(c[k], p.slot).Call? == c[k].Call? {
      LoweredPlaced(c[k], p.slot);
    }
    ReplaceExecAll(c, m, p, calls);
    SimilarRefl(m);
    FixAllSim(ReplaceAll(c, p.slot), m, m, p, calls);
  }

  /** All three phases, one instruction: everything but calls. */
  lemma PlainBlock(f: Frame, s: Store, m: X.Mach, i: Instr, calls: X.Calls, callees: Callees)
    requires Rel(f, s, m, 0) && FrameOk(f) && InstrOk(f.t, i) && !i.ICall? && HasSlots(f.t, f.places.slot)
    ensures Matches(f, i, s, EffectOf(i, s, callees), X.ExecAll(BlockOf(i, f.places.slot), m, f.places, calls))
  {
    hide Rel, FrameOk, InstrOk, HasSlots, LowerInstr, X.ExecAll, AllLowered, SameOutcome;
    var e := EffectOf(i, s, callees);
    if !e.Bad? {
      InstrLowered(f.t, i, f.places.slot);
      PhaseOne(f, s, m, i, calls, callees);
      FixedRun(LowerInstr(i), m, f.places, calls);
      MatchesSimilar(f, i, s, e, X.ExecAll(LowerInstr(i), m, f.places, calls), X.ExecAll(BlockOf(i, f.places.slot), m, f.places, calls));
    }
  }

  lemma LoweredJoin(a: seq<X.AInstr>, b: seq<X.AInstr>, off: map<nat, int>)
    requires AllLowered(a, off) && AllLowered(b, off)
    ensures AllLowered(a + b, off)
  {
    hide Lowered, Replace;
  }

  lemma {:induction false} PushesLowered(t: Types, rest: seq<Value>, off: map<nat, int>)
    requires AllOk(t, rest) && HasSlots(t, off)
    ensures AllLowered(Pushes(rest), off)
  {
    hide OperandOf, ReplaceOp, ValOk, HasSlots, Lowered;
    if rest != [] {
      PushesLowered(t, rest[1..], off);
      ValueLowered(t, rest[0], off);
      OnePush(OperandOf(rest[0]), off);
      LoweredJoin(Pushes(rest[1..]), [X.Push(OperandOf(rest[0]))], off);
    }
  }

  lemma OnePush(o: X.Operand, off: map<nat, int>)
    requires Plain(ReplaceOp(o, off))
    ensures AllLowered([X.Push(o)], off)
  {
  }

  lemma OneMove(w: Width, s: X.Operand, d: X.Operand, off: map<nat, int>)
    requires Plain(ReplaceOp(s, off)) && Plain(ReplaceOp(d, off)) && !ReplaceOp(d, off).Imm?
    ensures AllLowered([X.Mov(w, s, d)], off)
  {
  }

  lemma {:induction false} RegMovesLowered(t: Types, args: seq<Value>, n: nat, off: map<nat, int>)
    requires AllOk(t, args) && HasSlots(t, off) && n <= |args| && n <= 6
    ensures AllLowered(RegMoves(args, n), off)
  {
    hide OperandOf, ValOk, HasSlots, Lowered, AllLowered;
    if n > 0 {
      RegMovesLowered(t, args, n - 1, off);
      ValueLowered(t, args[n - 1], off);
      OneMove(WOf(args[n - 1]), OperandOf(args[n - 1]), X.RegOp(ArgReg(n - 1)), off);
      LoweredJoin(RegMoves(args, n - 1), [X.Mov(WOf(args[n - 1]), OperandOf(args[n - 1]), X.RegOp(ArgReg(n - 1)))], off);
    } else {
      NoneLowered(off);
    }
  }

  lemma NoneLowered(off: map<nat, int>)
    ensures AllLowered([], off)
  {
  }

  lemma AdjustLowered(op: X.BinaryOp, bytes: nat, off: map<nat, int>)
    requires op.AddOp? || op.SubOp?
    ensures AllLowered(AdjustSp(op, bytes), off)
  {
  }

  lemma TakeLowered(t: Types, d: Value, off: map<nat, int>)
    requires (d.NoValue? || DstOk(t, d)) && HasSlots(t, off)
    ensures AllLowered(TakeResult(d), off)
  {
    hide OperandOf, ValOk, HasSlots;
    if !d.NoValue? {
      ValueLowered(t, d, off);
      OneMove(WOf(d), X.RegOp(X.AX), OperandOf(d), off);
    }
  }

  /** The code before the call instruction, and the code after it. */
  function Before(args: seq<Value>): seq<X.AInstr> {
    var n := RegCount(|args|);
    AdjustSp(X.SubOp, Padding(|args|)) + (Pushes(args[n..]) + RegMoves(args, n))
  }

  function After(args: seq<Value>, dst: Value): seq<X.AInstr> {
    AdjustSp(X.AddOp, PushedBytes(|args|)) + TakeResult(dst)
  }

  function Fixed(c: seq<X.AInstr>, off: map<nat, int>): seq<X.AInstr> {
    FixAll(ReplaceAll(c, off))
  }

  lemma CallBlockIs(i: Instr, off: map<nat, int>)
    requires i.ICall?
    ensures BlockOf(i, off) == Fixed(Before(i.args), off) + ([X.Call(i.fn)] + Fixed(After(i.args, i.dst), off))
  {
    hide Pushes, RegMoves, AdjustSp, TakeResult;
    var a, b, call := Before(i.args), After(i.args, i.dst), [X.Call(i.fn)];
    CallSplit(i);
    ReplaceAppend(a, call + b, off);
    ReplaceAppend(call, b, off);
    FixAppend(ReplaceAll(a, off), ReplaceAll(call + b, off));
    FixAppend(ReplaceAll(call, off), ReplaceAll(b, off));
    FixedCall(i.fn, off);
  }

  lemma CallSplit(i: Instr)
    requires i.ICall?
    ensures LowerInstr(i) == Before(i.args) + ([X.Call(i.fn)] + After(i.args, i.dst))
  {
    hide Pushes, RegMoves, AdjustSp, TakeResult;
    var n := RegCount(|i.args|);
    var a, b, c := AdjustSp(X.SubOp, Padding(|i.args|)), Pushes(i.args[n..]), RegMoves(i.args, n);
    var rest := [X.Call(i.fn)] + After(i.args, i.dst);
    assert a + (b + (c + rest)) == (a + (b + c)) + rest;
  }

  lemma FixedCall(fn: nat, off: map<nat, int>)
    ensures Fixed([X.Call(fn)], off) == [X.Call(fn)]
  {
    var r := ReplaceAll([X.Call(fn)], off);
    assert r == [X.Call(fn)];
    assert FixAll(r) == Fix(X.Call(fn)) + FixAll(r[1..]);
    assert r[1..] == [];
  }

  lemma CallLowered(t: Types, i: Instr, off: map<nat, int>)
    requires i.ICall? && InstrOk(t, i) && HasSlots(t, off)
    ensures AllLowered(Before(i.args), off) && AllLowered(After(i.args, i.dst), off)
  {
    hide HasSlots, AllLowered, Pushes, RegMoves, AdjustSp, TakeResult, ValOk;
    var n := RegCount(|i.args|);
    AdjustLowered(X.SubOp, Padding(|i.args|), off);
    PushesLowered(t, i.args[n..], off);
    RegMovesLowered(t, i.args, n, off);
    LoweredJoin(Pushes(i.args[n..]), RegMoves(i.args, n), off);
    LoweredJoin(AdjustSp(X.SubOp, Padding(|i.args|)), Pushes(i.args[n..]) + RegMoves(i.args, n), off);
    AdjustLowered(X.AddOp, PushedBytes(|i.args|), off);
    TakeLowered(t, i.dst, off);
    LoweredJoin(AdjustSp(X.AddOp, PushedBytes(|i.args|)), TakeResult(i.dst), off);
  }

  /** All three phases, a call: it runs with %rsp aligned and every argument in place, whatever
      legalisation put in the scratch registers. */
  lemma CallBlock(f: Frame, s: Store, m: X.Mach, i: Instr, calls: X.Calls, callees: Callees)
    requires Rel(f, s, m, 0) && FrameOk(f) && InstrOk(f.t, i) && i.ICall? && HasSlots(f.t, f.places.slot)
    requires f.lim <= f.bp - f.size - PushedBytes(|i.args|) && Abi(f.t, f.places, f.lim, calls, callees)
    ensures Matches(f, i, s, EffectOf(i, s, callees), X.ExecAll(BlockOf(i, f.places.slot), m, f.places, calls))
  {
    hide Rel, FrameOk, HasSlots, X.Exec, Abi, CallReady, StaticsHold, KeptAbove, Wrap, AllLowered, Before, After, BlockOf, Fixed, Similar;
    var p, k, xs := f.places, |i.args|, ReadVals(i.args, s);
    var call := DoCall(s, i.fn, xs, callees);
    if call.Some? {
      CallLowered(f.t, i, p.slot);
      var m1 := CallEntered(f, s, m, i, calls);
      var m2 := ConventionAt(f, s, m1, i.fn, xs, calls, callees);
      var r := callees(i.fn, xs, s.statics, s.trace).value;
      AfterCall(f, s, m1, i.fn, k, r, m2);
      var s2 := s.(statics := r.statics, trace := r.trace);
      var m3 := CallLeft(f, s2, m2, i, r.result, calls);
      CallBlockIs(i, p.slot);
      X.ExecAppend(Fixed(Before(i.args), p.slot), [X.Call(i.fn)] + Fixed(After(i.args, i.dst), p.slot), m, p, calls);
      X.ExecAppend([X.Call(i.fn)], Fixed(After(i.args, i.dst), p.slot), m1, p, calls);
      One(X.Call(i.fn), m1, p, calls);
    }
  }

  lemma CallEntered(f: Frame, s: Store, m: X.Mach, i: Instr, calls: X.Calls) returns (m': X.Mach)
    requires Rel(f, s, m, 0) && FrameOk(f) && InstrOk(f.t, i) && i.ICall? && AllLowered(Before(i.args), f.places.slot)
    requires f.lim <= f.bp - f.size - PushedBytes(|i.args|)
    ensures X.ExecAll(Fixed(Before(i.args), f.places.slot), m, f.places, calls) == X.Next(m')
    ensures Rel(f, s, m', PushedBytes(|i.args|)) && m'.trace == s.trace
    ensures CallReady(f.t, f.places, f.lim, i.fn, m', ReadVals(i.args, s), s.statics)
  {
    hide Rel, FrameOk, X.ExecAll, CallReady, AllLowered, Similar, AllOk;
    var m1 := SetUpSim(f, s, m, i.fn, i.args, calls);
    FixedRun(Before(i.args), m, f.places, calls);
    m' := X.ExecAll(Fixed(Before(i.args), f.places.slot), m, f.places, calls).m;
    RelSimilar(f, s, m1, m', PushedBytes(|i.args|));
    ReadySimilar(f.t, f.places, f.lim, i.fn, m1, m', ReadVals(i.args, s), s.statics);
    RelTrace(f, s, m', PushedBytes(|i.args|));
  }

  lemma RelTrace(f: Frame, s: Store, m: X.Mach, depth: int)
    requires Rel(f, s, m, depth)
    ensures m.trace == s.trace
  {
  }

  lemma CallLeft(f: Frame, s: Store, m: X.Mach, i: Instr, x: int, calls: X.Calls) returns (m': X.Mach)
    requires i.ICall? && Rel(f, s, m, PushedBytes(|i.args|)) && FrameOk(f) && InstrOk(f.t, i)
    requires AllLowered(After(i.args, i.dst), f.places.slot) && f.lim <= f.bp - f.size - PushedBytes(|i.args|)
    requires A.IsArithmetic(f.t.ret[i.fn]) ==> Wrap(X.RegOf(m, X.AX), A.WidthOf(f.t.ret[i.fn])) == x
    ensures X.ExecAll(Fixed(After(i.args, i.dst), f.places.slot), m, f.places, calls) == X.Next(m')
    ensures Rel(f, WriteVal(i.dst, x, s), m', 0)
  {
    hide Rel, FrameOk, X.Exec, AllLowered, Similar, AllOk, Wrap, AdjustSp, TakeResult;
    RoomUp(f, |i.args|);
    var m1 := AdjustSim(f, s, m, PushedBytes(|i.args|), X.AddOp, PushedBytes(|i.args|), calls);
    var m2 := TakeSim(f, s, m1, i.dst, x, calls);
    X.ExecAppend(AdjustSp(X.AddOp, PushedBytes(|i.args|)), TakeResult(i.dst), m, f.places, calls);
    FixedRun(After(i.args, i.dst), m, f.places, calls);
    m' := X.ExecAll(Fixed(After(i.args, i.dst), f.places.slot), m, f.places, calls).m;
    RelSimilar(f, WriteVal(i.dst, x, s), m2, m', 0);
  }
}
