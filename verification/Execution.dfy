/** Whole runs of a translated function: from the call instruction through its prologue, the moves
    of its parameters and its blocks, to its return. */
module Execution {
  import opened Arith
  import A = Ast
  import opened Ir
  import opened Semantics
  import opened Memory
  import X = X86
  import opened Lower
  import opened Frames
  import opened LowerProof
  import opened CallProof
  import opened Slots
  import opened Fixup
  import opened Backend

  /** A function's three-address code, its machine code, and where in it the blocks start. */
  datatype Unit = Unit(f: Frame, ret: A.Ty, code: seq<Instr>, text: seq<X.AInstr>, base: nat)

  predicate RoomFor(f: Frame, i: Instr) {
    i.ICall? ==> f.lim <= f.bp - f.size - PushedBytes(|i.args|)
  }

  /** Every 'return' gives back a value of the function's type. */
  predicate ReturnOk(i: Instr, ret: A.Ty) {
    i.IReturn? ==> TyOf(i.src) == ret
  }

  ghost predicate UnitOk(u: Unit) {
    && FrameOk(u.f) && HasSlots(u.f.t, u.f.places.slot)
    && u.base <= |u.text| && u.text[u.base..] == Blocks(u.code, u.f.places.slot) && NoLabels(u.text[..u.base])
    && forall k :: 0 <= k < |u.code| ==> InstrOk(u.f.t, u.code[k]) && RoomFor(u.f, u.code[k]) && ReturnOk(u.code[k], u.ret)
  }

  function PcOf(u: Unit, pc: nat): nat
    requires pc <= |u.code|
  {
    u.base + Pos(u.code, pc, u.f.places.slot)
  }

  /** The state after 'ret': the result in %ax, the caller's stack and frame back. */
  ghost predicate LeftWith(f: Frame, s: Store, ret: A.Ty, v: int, m: X.Mach) {
    && (A.IsArithmetic(ret) ==> Wrap(X.RegOf(m, X.AX), A.WidthOf(ret)) == v)
    && X.RegOf(m, X.SP) == f.bp + 16 && X.RegOf(m, X.BP) == Load(f.entry, f.bp, 8)
    && m.trace == s.trace && StaticsHold(f.t, f.places, s.statics, m.mem) && KeptAbove(f.entry, m.mem, f.bp)
  }

  /** At every instruction boundary the machine holds exactly the values of all pseudos and static
      objects, with %rsp at the bottom of the frame. */
  ghost predicate Tracks(u: Unit, ir: IrState, a: X.AState) {
    match ir
    case At(pc, s) => pc <= |u.code| && a.Running? && a.pc == PcOf(u, pc) && Rel(u.f, s, a.m, 0)
    case Done(v, s) => a.Returned? && a.to == BackTo(u.f) && LeftWith(u.f, s, u.ret, v, a.m)
    case IrWrong => true
  }

  /** The block of an instruction does what the instruction does. */
  lemma BlockSim(u: Unit, pc: nat, s: Store, m: X.Mach, calls: X.Calls, callees: Callees)
    requires UnitOk(u) && Abi(u.f.t, u.f.places, u.f.lim, calls, callees) && pc < |u.code| && Rel(u.f, s, m, 0)
    ensures Matches(u.f, u.code[pc], s, EffectOf(u.code[pc], s, callees),
                    X.ExecAll(BlockOf(u.code[pc], u.f.places.slot), m, u.f.places, calls))
  {
    hide Rel, FrameOk, InstrOk, Matches, EffectOf, BlockOf, X.ExecAll, Abi, HasSlots, Blocks, NoLabels;
    if u.code[pc].ICall? { CallBlock(u.f, s, m, u.code[pc], calls, callees); }
    else { PlainBlock(u.f, s, m, u.code[pc], calls, callees); }
  }

  /** The machine finds a label where the three-address machine does. */
  lemma LabelFound(u: Unit, l: Lbl)
    requires UnitOk(u)
    ensures X.Lookup(u.text, l) == PcOf(u, Lookup(u.code, l))
  {
    hide FrameOk, HasSlots, InstrOk, Blocks;
    assert u.text == u.text[..u.base] + u.text[u.base..];
    LookupSkip(u.text[..u.base], u.text[u.base..], l);
    LookupBlocks(u.code, l, u.f.places.slot);
  }

  lemma TextBlock(u: Unit, pc: nat)
    requires UnitOk(u) && pc < |u.code|
    ensures var b := BlockOf(u.code[pc], u.f.places.slot);
            && PcOf(u, pc + 1) == PcOf(u, pc) + |b| <= |u.text| && b != []
            && u.text[PcOf(u, pc)..PcOf(u, pc) + |b|] == b
  {
    hide FrameOk, HasSlots, InstrOk, Blocks, BlockOf, NoLabels;
    var off := u.f.places.slot;
    BlockPlaced(u.code, pc, off);
    BlockShape(u.code[pc], off);
    var a, b := Pos(u.code, pc, off), Pos(u.code, pc + 1, off);
    assert u.text[u.base..][a..b] == u.text[u.base + a..u.base + b];
  }

  /** One step of three-address code is at least one step of the machine. */
  lemma StepTracks(u: Unit, pc: nat, s: Store, m: X.Mach, calls: X.Calls, callees: Callees) returns (n: nat)
    requires UnitOk(u) && Abi(u.f.t, u.f.places, u.f.lim, calls, callees) && pc <= |u.code| && Rel(u.f, s, m, 0)
    requires !StepAt(u.code, pc, s, callees).IrWrong?
    ensures n >= 1
    ensures Tracks(u, StepAt(u.code, pc, s, callees),
                   X.ASteps(u.text, X.Running(PcOf(u, pc), m), n, u.f.places, calls))
  {
    hide UnitOk, Rel, EffectOf, BlockOf, X.ExecAll, Abi, X.ASteps, ReturnedWith, LeftWith;
    assert pc < |u.code| by { hide BinaryValue, DoCall, Lookup; }
    var i := u.code[pc];
    BlockSim(u, pc, s, m, calls, callees);
    StepEffect(u.code, pc, s, callees);
    TextBlock(u, pc);
    var b := BlockOf(i, u.f.places.slot);
    n := RunBlock(u.text, PcOf(u, pc), b, m, u.f.places, calls);
    var e := EffectOf(i, s, callees);
    var o := X.ExecAll(b, m, u.f.places, calls);
    match e
    case Fall(s') =>
    case Leap(l, s') => LabelFound(u, l);
    case Stop => ReturnTracks(u, pc, s, o.m);
    case Bad =>
  }

  lemma ReturnTracks(u: Unit, pc: nat, s: Store, m: X.Mach)
    requires UnitOk(u) && pc < |u.code| && u.code[pc].IReturn? && ReturnedWith(u.f, s, u.code[pc].src, m)
    ensures LeftWith(u.f, s, u.ret, ReadVal(u.code[pc].src, s), m)
  {
    hide FrameOk, HasSlots, Blocks, StaticsHold, KeptAbove, Load, Wrap, NoLabels;
  }

  /** Back-end simulation: every run of the three-address code is followed by the machine code, in
      at least as many steps. */
  lemma {:induction false} StepsTrack(u: Unit, ir: IrState, a: X.AState, k: nat, calls: X.Calls, callees: Callees) returns (n: nat)
    requires UnitOk(u) && Abi(u.f.t, u.f.places, u.f.lim, calls, callees) && Tracks(u, ir, a)
    requires !IrSteps(u.code, ir, k, callees).IrWrong?
    ensures Tracks(u, IrSteps(u.code, ir, k, callees), X.ASteps(u.text, a, n, u.f.places, calls))
    ensures IrSteps(u.code, ir, k, callees).At? ==> n >= k
    decreases k
  {
    hide UnitOk, Rel, Abi, X.AStep, StepAt, LeftWith, PcOf;
    n := 0;
    if k > 0 {
      var next := IrStep(u.code, ir, callees);
      if ir.At? {
        if next.IrWrong? { StoppedStays(u.code, next, k - 1, callees); }
        n := StepTracks(u, ir.pc, ir.s, a.m, calls, callees);
        var b := X.ASteps(u.text, a, n, u.f.places, calls);
        var n2 := StepsTrack(u, next, b, k - 1, calls, callees);
        AChain(u.text, a, n, b, n2, u.f.places, calls);
        n := n + n2;
      } else {
        StoppedStays(u.code, ir, k, callees);
      }
    }
  }

  /** 'push %rbp; mov %rsp, %rbp; sub $size, %rsp'. */
  function Prologue(size: nat): seq<X.AInstr> {
    [X.Push(X.RegOp(X.BP)), X.Mov(W64, X.RegOp(X.SP), X.RegOp(X.BP))] + AdjustSp(X.SubOp, size)
  }

  /** What the call instruction does before control reaches the callee: it pushes its return address. */
  function Called(m: X.Mach, ra: X.Word): X.Mach {
    Pushed(m, ra)
  }

  /** The machine just after the prologue has saved %rbp. */
  function Saved(m: X.Mach, ra: X.Word): X.Mach {
    Pushed(Called(m, ra), X.RegOf(m, X.BP))
  }

  /** The values the slots happen to hold. */
  function Found(t: Types, places: X.Places, bp: int, mem: Bytes): map<nat, int> {
    map id | id in t.pseudo :: Cell(mem, bp + X.SlotOf(places, id), PW(t, id))
  }

  /** The frame of a call made in state 'm'. */
  function FrameOf(t: Types, places: X.Places, size: nat, lim: int, m: X.Mach, ra: X.Word): Frame {
    Frame(t, places, size, X.RegOf(m, X.SP) - 16, lim, Saved(m, ra).mem)
  }

  /** Enough stack below the caller for the callee's frame. */
  ghost predicate EntryOk(t: Types, places: X.Places, size: nat, lim: int, m: X.Mach, st: map<nat, int>) {
    && X.RegOf(m, X.SP) % 16 == 0 && size % 16 == 0 && 0 <= lim <= X.RegOf(m, X.SP) - 16 - size
    && StaticsHold(t, places, st, m.mem)
    && forall id {:trigger X.DataOf(places, id)} :: id in t.statics ==> X.DataOf(places, id) + SizeOf(SW(t, id)) <= lim
  }

  lemma PutAbove(t: Types, places: X.Places, st: map<nat, int>, mem: Bytes, a: int, n: nat, v: int, lim: int)
    requires StaticsHold(t, places, st, mem) && lim <= a
    requires forall id {:trigger X.DataOf(places, id)} :: id in t.statics ==> X.DataOf(places, id) + SizeOf(SW(t, id)) <= lim
    ensures StaticsHold(t, places, st, Put(mem, a, n, v))
  {
    hide Load, Put, Wrap;
    forall id ensures StaticHolds(t, places, st, Put(mem, a, n, v), id) {
      assert StaticHolds(t, places, st, mem, id);
      if id in t.statics { LoadPutOther(mem, a, n, v, X.DataOf(places, id), SizeOf(SW(t, id))); }
    }
  }

  lemma SavedIs(t: Types, places: X.Places, size: nat, lim: int, m: X.Mach, ra: X.Word, st: map<nat, int>)
    requires EntryOk(t, places, size, lim, m, st)
    ensures var sp, m2 := X.RegOf(m, X.SP), Saved(m, ra);
            && m2 == X.SetReg(X.SetReg(m, X.SP, sp - 8), X.SP, sp - 16).(mem := m2.mem)
            && Load(m2.mem, sp - 16, 8) == X.RegOf(m, X.BP) && Load(m2.mem, sp - 8, 8) == ra
            && KeptAbove(m.mem, m2.mem, sp) && StaticsHold(t, places, st, m2.mem)
  {
    hide Load, Put, Wrap, StaticsHold;
    var sp := X.RegOf(m, X.SP);
    FullWord(sp - 8, W64);
    FullWord(sp - 16, W64);
    var mem1 := Called(m, ra).mem;
    assert mem1 == Put(m.mem, sp - 8, 8, ra);
    assert X.RegOf(Called(m, ra), X.SP) == sp - 8 && X.RegOf(Called(m, ra), X.BP) == X.RegOf(m, X.BP);
    assert Saved(m, ra).mem == Put(mem1, sp - 16, 8, X.RegOf(m, X.BP));
    PutAbove(t, places, st, m.mem, sp - 8, 8, ra, lim);
    PutAbove(t, places, st, mem1, sp - 16, 8, X.RegOf(m, X.BP), lim);
    LoadPutSame(mem1, sp - 16, 8, X.RegOf(m, X.BP));
    LoadPutSame(m.mem, sp - 8, 8, ra);
    LoadPutOther(mem1, sp - 16, 8, X.RegOf(m, X.BP), sp - 8, 8);
    Pow256Of(W64);
    FullWord(X.RegOf(m, X.BP), W64);
    FullWord(ra, W64);
    PutKeepsAbove(m.mem, m.mem, sp - 8, 8, ra, sp);
    PutKeepsAbove(m.mem, mem1, sp - 16, 8, X.RegOf(m, X.BP), sp);
  }

  lemma PutKeepsAbove(base: Bytes, mem: Bytes, a: int, n: nat, v: int, top: int)
    requires KeptAbove(base, mem, top) && a + n <= top
    ensures KeptAbove(base, Put(mem, a, n, v), top)
  {
    hide Put;
    forall x | top <= x ensures At8(Put(mem, a, n, v), x) == At8(base, x) {
      assert At8(mem, x) == At8(base, x);
      PutElsewhere(mem, a, n, v, x);
    }
  }

  /** The prologue sets up a frame whose slots hold whatever memory held. */
  lemma PrologueSim(t: Types, places: X.Places, size: nat, lim: int, m: X.Mach, ra: X.Word, st: map<nat, int>, calls: X.Calls)
    returns (m': X.Mach)
    requires EntryOk(t, places, size, lim, m, st)
    ensures X.ExecAll(Prologue(size), Called(m, ra), places, calls) == X.Next(m')
    ensures var f := FrameOf(t, places, size, lim, m, ra);
            Rel(f, Store(Found(t, places, f.bp, m'.mem), st, m.trace), m', 0) && m'.mem == f.entry
    ensures forall r: X.Reg :: r != X.SP && r != X.BP ==> X.RegOf(m', r) == X.RegOf(m, r)
  {
    hide Load, Put, Wrap, Cell, StaticsHold, X.Exec, Saved, Called;
    var sp, m2 := X.RegOf(m, X.SP), Saved(m, ra);
    SavedIs(t, places, size, lim, m, ra, st);
    var f := FrameOf(t, places, size, lim, m, ra);
    var m3 := X.SetReg(m2, X.BP, sp - 16);
    SaveRuns(m, ra, sp, places, calls);
    var s := Store(Found(t, places, f.bp, m3.mem), st, m.trace);
    forall id ensures PseudoHolds(f, s, m3.mem, id) {
    }
    assert Rel(f, s, m3, 0 - size);
    m' := AdjustSim(f, s, m3, 0 - size, X.SubOp, size, calls);
    X.ExecAppend([X.Push(X.RegOp(X.BP)), X.Mov(W64, X.RegOp(X.SP), X.RegOp(X.BP))], AdjustSp(X.SubOp, size), Called(m, ra), places, calls);
  }

  lemma SaveRuns(m: X.Mach, ra: X.Word, sp: int, places: X.Places, calls: X.Calls)
    requires 16 <= sp < Modulus(W64) && X.RegOf(Saved(m, ra), X.SP) == sp - 16
    ensures X.ExecAll([X.Push(X.RegOp(X.BP)), X.Mov(W64, X.RegOp(X.SP), X.RegOp(X.BP))], Called(m, ra), places, calls)
            == X.Next(X.SetReg(Saved(m, ra), X.BP, sp - 16))
  {
    hide Load, Put, X.Exec;
    var c, m2 := Called(m, ra), Saved(m, ra);
    PushIs(X.RegOp(X.BP), c, places, calls);
    Pow256Of(W64);
    FullWord(X.RegOf(m, X.BP), W64);
    FullWord(sp - 16, W64);
    assert X.Get(c, X.RegOp(X.BP), 8, places) == X.RegOf(m, X.BP);
    MovIs(W64, X.RegOp(X.SP), X.RegOp(X.BP), m2, places, calls);
    Two(X.Push(X.RegOp(X.BP)), X.Mov(W64, X.RegOp(X.SP), X.RegOp(X.BP)), c, m2, X.Next(X.SetReg(m2, X.BP, sp - 16)), places, calls);
  }

  /** The store once parameters 0 to n-1 have been moved to their objects. */
  function Received(params: seq<Value>, xs: seq<int>, n: nat, s: Store): Store
    requires n <= |params| && n <= |xs|
  {
    if n == 0 then s else WriteVal(params[n - 1], xs[n - 1], Received(params, xs, n - 1, s))
  }

  /** Parameters are automatic objects of the function. */
  predicate ParamsOk(t: Types, params: seq<Value>) {
    forall i :: 0 <= i < |params| ==> params[i].Pseudo? && DstOk(t, params[i])
  }

  /** The callee finds value 'x' for its i-th parameter. */
  ghost predicate Arrived(f: Frame, m: X.Mach, v: Value, i: nat, x: int) {
    Wrap(X.GetW(m, ParamSource(i), WOf(v), f.places), WOf(v)) == x
  }

  lemma ArrivedStill(f: Frame, m: X.Mach, m': X.Mach, v: Value, i: nat, x: int)
    requires Arrived(f, m, v, i, x) && X.RegOf(m, X.BP) == f.bp && KeptAbove(m.mem, m'.mem, f.bp)
    requires forall r :: X.RegOf(m', r) == X.RegOf(m, r)
    ensures Arrived(f, m', v, i, x)
  {
    hide Load, Wrap;
    if i >= 6 {
      var a := f.bp + 16 + 8 * (i - 6);
      forall y | a <= y < a + SizeOf(WOf(v)) ensures At8(m.mem, y) == At8(m'.mem, y) {
      }
      LoadAgrees(m.mem, m'.mem, a, SizeOf(WOf(v)));
    }
  }

  lemma ParamMoveSim(f: Frame, s: Store, m: X.Mach, v: Value, i: nat, x: int, calls: X.Calls) returns (m': X.Mach)
    requires Rel(f, s, m, 0) && FrameOk(f) && v.Pseudo? && DstOk(f.t, v) && Arrived(f, m, v, i, x)
    ensures X.Exec(X.Mov(WOf(v), ParamSource(i), OperandOf(v)), m, f.places, calls) == X.Next(m')
    ensures Rel(f, WriteVal(v, x, s), m', 0) && KeptAbove(m.mem, m'.mem, f.bp)
    ensures forall r :: X.RegOf(m', r) == X.RegOf(m, r)
  {
    hide PseudoHolds, StaticsHold, Wrap, Load, Put;
    var u := X.GetW(m, ParamSource(i), WOf(v), f.places);
    MovIs(WOf(v), ParamSource(i), OperandOf(v), m, f.places, calls);
    SetVal(f, s, m, 0, v, u);
    m' := X.Set(m, OperandOf(v), WOf(v), u, f.places);
    PutKeepsAbove(m.mem, m.mem, f.bp + X.SlotOf(f.places, v.id), SizeOf(WOf(v)), u, f.bp);
  }

  /** Every parameter receives its argument, for any number of them. */
  lemma {:induction false} ParamsSim(f: Frame, s: Store, m: X.Mach, params: seq<Value>, n: nat, xs: seq<int>, calls: X.Calls)
    returns (m': X.Mach)
    requires Rel(f, s, m, 0) && FrameOk(f) && ParamsOk(f.t, params) && n <= |params| == |xs|
    requires forall i :: 0 <= i < |params| ==> Arrived(f, m, params[i], i, xs[i])
    ensures X.ExecAll(LowerParams(params, n), m, f.places, calls) == X.Next(m')
    ensures Rel(f, Received(params, xs, n, s), m', 0) && KeptAbove(m.mem, m'.mem, f.bp)
    ensures forall r :: X.RegOf(m', r) == X.RegOf(m, r)
  {
    hide Rel, FrameOk, Arrived, X.Exec, ValOk;
    m' := m;
    if n > 0 {
      var m1 := ParamsSim(f, s, m, params, n - 1, xs, calls);
      var v := params[n - 1];
      assert X.RegOf(m, X.BP) == f.bp by { RelBase(f, s, m); }
      ArrivedStill(f, m, m1, v, n - 1, xs[n - 1]);
      m' := ParamMoveSim(f, Received(params, xs, n - 1, s), m1, v, n - 1, xs[n - 1], calls);
      var mv := X.Mov(WOf(v), ParamSource(n - 1), OperandOf(v));
      One(mv, m1, f.places, calls);
      X.ExecAppend(LowerParams(params, n - 1), [mv], m, f.places, calls);
    }
  }

  lemma RelBase(f: Frame, s: Store, m: X.Mach)
    requires Rel(f, s, m, 0)
    ensures X.RegOf(m, X.BP) == f.bp
  {
  }

  lemma {:induction false} ParamsLowered(t: Types, params: seq<Value>, n: nat, off: map<nat, int>)
    requires ParamsOk(t, params) && HasSlots(t, off) && n <= |params|
    ensures AllLowered(LowerParams(params, n), off) && NoLabels(LowerParams(params, n))
  {
    hide OperandOf, ValOk, HasSlots, Lowered, AllLowered, ReplaceOp;
    if n > 0 {
      ParamsLowered(t, params, n - 1, off);
      ValueLowered(t, params[n - 1], off);
      SourcePlain(n - 1, off);
      OneMove(WOf(params[n - 1]), ParamSource(n - 1), OperandOf(params[n - 1]), off);
      LoweredJoin(LowerParams(params, n - 1), [X.Mov(WOf(params[n - 1]), ParamSource(n - 1), OperandOf(params[n - 1]))], off);
    } else {
      NoneLowered(off);
    }
  }

  lemma SourcePlain(i: nat, off: map<nat, int>)
    ensures Plain(ReplaceOp(ParamSource(i), off))
  {
  }

  /** An argument in place at the call is where the callee looks for it. */
  lemma ArgumentArrives(f: Frame, m: X.Mach, m': X.Mach, v: Value, i: nat, x: int)
    requires ArgPassed(m, i, TyOf(v), x) && f.bp == X.RegOf(m, X.SP) - 16 == X.RegOf(m', X.BP)
    requires KeptAbove(m.mem, m'.mem, X.RegOf(m, X.SP))
    requires forall r: X.Reg :: r != X.SP && r != X.BP ==> X.RegOf(m', r) == X.RegOf(m, r)
    ensures Arrived(f, m', v, i, x)
  {
    hide Load, Wrap, Pow256;
    var w := WOf(v);
    Pow256Of(w);
    WrapMod(ArgWord(m, i), w);
    if i < 6 {
      assert X.RegOf(m', ArgReg(i)) == X.RegOf(m, ArgReg(i));
    } else {
      var a := X.RegOf(m, X.SP) + 8 * (i - 6);
      LoadLow(m'.mem, a, SizeOf(w), 8);
      LoadAgrees(m.mem, m'.mem, a, 8);
    }
  }

  /** The machine code of a function. */
  function Text(params: seq<Value>, code: seq<Instr>, off: map<nat, int>, size: nat): seq<X.AInstr> {
    Prologue(size) + (Fixed(LowerParams(params, |params|), off) + Blocks(code, off))
  }

  function Head(params: seq<Value>, off: map<nat, int>, size: nat): seq<X.AInstr> {
    Prologue(size) + Fixed(LowerParams(params, |params|), off)
  }

  /** From the call instruction to the first instruction of the body: the parameters hold the
      arguments, everything else is as it was found. */
  lemma EnterSim(f: Frame, params: seq<Value>, m: X.Mach, ra: X.Word, xs: seq<int>, ts: seq<A.Ty>, st: map<nat, int>, calls: X.Calls)
    returns (m': X.Mach)
    requires FrameOk(f) && f == FrameOf(f.t, f.places, f.size, f.lim, m, ra)
    requires EntryOk(f.t, f.places, f.size, f.lim, m, st)
    requires HasSlots(f.t, f.places.slot) && ParamsOk(f.t, params) && ArgsPassed(m, ts, xs) && |ts| == |params|
    requires forall i :: 0 <= i < |params| ==> TyOf(params[i]) == ts[i]
    ensures X.ExecAll(Head(params, f.places.slot, f.size), Called(m, ra), f.places, calls) == X.Next(m')
    ensures Rel(f, Received(params, xs, |params|, Store(Found(f.t, f.places, f.bp, f.entry), st, m.trace)), m', 0)
  {
    hide Rel, FrameOk, HasSlots, Prologue, X.ExecAll, Arrived, Similar, AllLowered, Called, StaticsHold, Saved, Found, NoLabels, ArgPassed, ValOk;
    var m1 := PrologueSim(f.t, f.places, f.size, f.lim, m, ra, st, calls);
    var s := Store(Found(f.t, f.places, f.bp, f.entry), st, m.trace);
    SavedIs(f.t, f.places, f.size, f.lim, m, ra, st);
    RelBase(f, s, m1);
    forall i | 0 <= i < |params| ensures Arrived(f, m1, params[i], i, xs[i]) {
      assert ArgPassed(m, i, ts[i], xs[i]);
      ArgumentArrives(f, m, m1, params[i], i, xs[i]);
    }
    var m2 := ParamsSim(f, s, m1, params, |params|, xs, calls);
    ParamsLowered(f.t, params, |params|, f.places.slot);
    FixedRun(LowerParams(params, |params|), m1, f.places, calls);
    m' := X.ExecAll(Fixed(LowerParams(params, |params|), f.places.slot), m1, f.places, calls).m;
    RelSimilar(f, Received(params, xs, |params|, s), m2, m', 0);
    X.ExecAppend(Prologue(f.size), Fixed(LowerParams(params, |params|), f.places.slot), Called(m, ra), f.places, calls);
  }
}
