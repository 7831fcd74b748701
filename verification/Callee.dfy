/** A translated function keeps the calling convention that its callers rely on. */
module Callee {
  import opened Arith
  import A = Ast
  import opened Ir
  import opened Semantics
  import opened Memory
  import X = X86
  import opened Lower
  import opened Frames
  import opened LowerProof
  import opened CallProof
  import opened Slots
  import opened Backend
  import opened Execution
  import opened Placement

  /** A function as the back end gets it: return type, parameters and three-address code. */
  datatype Fun = Fun(ret: A.Ty, params: seq<Value>, code: seq<Instr>)

  ghost predicate FunOk(t: Types, g: Fun) {
    ParamsOk(t, g.params) && AllInstrsOk(t, g.code) && forall k :: 0 <= k < |g.code| ==> ReturnOk(g.code[k], g.ret)
  }

  function LaidOut(t: Types, g: Fun): Layout {
    LayoutOf(t, g.params, g.code)
  }

  function FrameSize(t: Types, g: Fun): nat {
    StackSize(LaidOut(t, g))
  }

  /** The machine code that all three phases and the prologue make of a function. */
  function TextOf(t: Types, g: Fun): seq<X.AInstr> {
    Text(g.params, g.code, LaidOut(t, g).off, FrameSize(t, g))
  }

  /** The most that one of its calls pushes. */
  function MaxPushed(code: seq<Instr>): nat {
    if code == [] then 0
    else
      var n := if code[0].ICall? then PushedBytes(|code[0].args|) else 0;
      var r := MaxPushed(code[1..]);
      if n > r then n else r
  }

  lemma {:induction false} PushedFits(code: seq<Instr>, k: nat)
    requires k < |code| && code[k].ICall?
    ensures PushedBytes(|code[k].args|) <= MaxPushed(code)
  {
    if k > 0 { PushedFits(code[1..], k - 1); }
  }

  /** Stack a call of the function takes before it calls on. */
  function Need(t: Types, g: Fun): nat {
    16 + FrameSize(t, g) + MaxPushed(g.code)
  }

  ghost predicate DataApart(t: Types, data: map<nat, int>, lim: int) {
    var p := X.Places(map[], data);
    && (forall id {:trigger X.DataOf(p, id)} :: id in t.statics ==> X.DataOf(p, id) + SizeOf(SW(t, id)) <= lim)
    && (forall id, id2 {:trigger X.DataOf(p, id), X.DataOf(p, id2)} :: id in t.statics && id2 in t.statics && id != id2 ==>
          Apart(X.DataOf(p, id), SizeOf(SW(t, id)), X.DataOf(p, id2), SizeOf(SW(t, id2))))
  }

  function UnitFor(t: Types, data: map<nat, int>, lim: int, g: Fun, m: X.Mach, ra: X.Word): Unit {
    var off, size := LaidOut(t, g).off, FrameSize(t, g);
    Unit(FrameOf(Restrict(t, off), X.Places(off, data), size, lim, m, ra), g.ret, g.code, TextOf(t, g), |Head(g.params, off, size)|)
  }

  /** The slots handed out make a frame. */
  lemma FrameLaid(t: Types, data: map<nat, int>, lim: int, g: Fun, m: X.Mach, ra: X.Word)
    requires FunOk(t, g) && DataApart(t, data, lim) && X.RegOf(m, X.SP) % 16 == 0
    requires 0 <= lim <= X.RegOf(m, X.SP) - 16 - FrameSize(t, g)
    ensures FrameOk(UnitFor(t, data, lim, g, m, ra).f)
  {
    hide LayoutOf, InstrOk, Saved, DataApart, LayoutOk, FrameOk, Restrict, X.RegOf, AllInstrsOk, Text, Head, LowerParams, LowerAll, AllPlaced;
    var l := LaidOut(t, g);
    LayoutSound(t, g.params, g.code);
    FrameFits(t, data, lim, l, m, ra);
  }

  lemma FrameFits(t: Types, data: map<nat, int>, lim: int, l: Layout, m: X.Mach, ra: X.Word)
    requires LayoutOk(l, SizesOf(t)) && DataApart(t, data, lim) && X.RegOf(m, X.SP) % 16 == 0
    requires 0 <= lim <= X.RegOf(m, X.SP) - 16 - StackSize(l)
    ensures FrameOk(FrameOf(Restrict(t, l.off), X.Places(l.off, data), StackSize(l), lim, m, ra))
  {
    hide LayoutOk, DataApart, SlotsOk, DataOk, Saved, X.RegOf, RoundUp;
    var f := FrameOf(Restrict(t, l.off), X.Places(l.off, data), StackSize(l), lim, m, ra);
    BasePointer(X.RegOf(m, X.SP));
    SlotsFit(t, l, f);
    DataOkFrom(t, data, lim, f);
  }

  /** A layout's slots are a frame's slots. */
  lemma SlotsFit(t: Types, l: Layout, f: Frame)
    requires LayoutOk(l, SizesOf(t)) && f.t == Restrict(t, l.off) && f.places.slot == l.off && l.frame <= f.size
    ensures SlotsOk(f)
  {
    forall id {:trigger X.SlotOf(f.places, id)} | id in f.t.pseudo
      ensures 0 <= X.SlotOf(f.places, id) + f.size && X.SlotOf(f.places, id) + SizeOf(PW(f.t, id)) <= 0
    {
      assert SlotOk(l, SizesOf(t), id);
    }
    forall id, id2 {:trigger X.SlotOf(f.places, id), X.SlotOf(f.places, id2)} | id in f.t.pseudo && id2 in f.t.pseudo && id != id2
      ensures Apart(X.SlotOf(f.places, id), SizeOf(PW(f.t, id)), X.SlotOf(f.places, id2), SizeOf(PW(f.t, id2)))
    {
      assert SlotOk(l, SizesOf(t), id) && SlotOk(l, SizesOf(t), id2);
    }
  }

  lemma DataOkFrom(t: Types, data: map<nat, int>, lim: int, f: Frame)
    requires DataApart(t, data, lim) && f.t.statics == t.statics && f.places.data == data && f.lim == lim
    ensures DataOk(f)
  {
    var p := X.Places(map[], data);
    forall id {:trigger X.DataOf(f.places, id)} | id in f.t.statics ensures X.DataOf(f.places, id) + SizeOf(SW(f.t, id)) <= f.lim {
      assert X.DataOf(p, id) == X.DataOf(f.places, id);
    }
    forall id, id2 {:trigger X.DataOf(f.places, id), X.DataOf(f.places, id2)} | id in f.t.statics && id2 in f.t.statics && id != id2
      ensures Apart(X.DataOf(f.places, id), SizeOf(SW(f.t, id)), X.DataOf(f.places, id2), SizeOf(SW(f.t, id2)))
    {
      assert X.DataOf(p, id) == X.DataOf(f.places, id) && X.DataOf(p, id2) == X.DataOf(f.places, id2);
    }
  }

  lemma BasePointer(sp: int)
    requires sp % 16 == 0
    ensures (sp - 16) % 16 == 0
  {
  }

  lemma RestrictedSlots(t: Types, off: map<nat, int>)
    ensures HasSlots(Restrict(t, off), off)
  {
  }

  lemma HeadPlain(t: Types, params: seq<Value>, off: map<nat, int>, size: nat)
    requires ParamsOk(t, params) && HasSlots(t, off)
    ensures NoLabels(Head(params, off, size))
  {
    hide HasSlots, AllLowered, ValOk, LowerParams;
    ParamsLowered(t, params, |params|, off);
    FixNoLabels(ReplaceAll(LowerParams(params, |params|), off));
    NoLabelsJoin(Prologue(size), Fixed(LowerParams(params, |params|), off));
  }

  lemma {:induction false} ParamsMention(t: Types, params: seq<Value>, n: nat, off: map<nat, int>)
    requires ParamsOk(t, params) && n <= |params| && AllPlaced(LowerParams(params, n), off)
    ensures forall i :: 0 <= i < n ==> DstOk(Restrict(t, off), params[i])
  {
    hide Placed, OperandOf, ValPlaced, ValOk, Restrict;
    if n > 0 {
      var v := params[n - 1];
      var last := [X.Mov(WOf(v), ParamSource(n - 1), OperandOf(v))];
      PlacedJoin(LowerParams(params, n - 1), last, off);
      assert Placed(last[0], off);
      OperandPlaced(last[0], v, off);
      RestrictVal(t, v, off);
      ParamsMention(t, params, n - 1, off);
    }
  }

  lemma {:induction false} CodeMention(code: seq<Instr>, off: map<nat, int>, k: nat)
    requires AllPlaced(LowerAll(code), off) && k < |code|
    ensures AllPlaced(LowerInstr(code[k]), off)
  {
    hide Placed, LowerInstr;
    PlacedJoin(LowerInstr(code[0]), LowerAll(code[1..]), off);
    if k > 0 { CodeMention(code[1..], off, k - 1); }
  }

  lemma RestrictedFun(t: Types, g: Fun)
    requires FunOk(t, g)
    ensures FunOk(Restrict(t, LaidOut(t, g).off), g)
  {
    hide Restrict, InstrOk, ValOk, AllPlaced, LayoutOk, LayoutOf;
    var off := LaidOut(t, g).off;
    LayoutSound(t, g.params, g.code);
    ParamsMention(t, g.params, |g.params|, off);
    forall k | 0 <= k < |g.code| ensures InstrOk(Restrict(t, off), g.code[k]) {
      CodeMention(g.code, off, k);
      InstrRestricted(t, g.code[k], off);
    }
  }

  /** All the back end's invariants hold of the translated function. */
  lemma UnitBuilt(t: Types, data: map<nat, int>, lim: int, g: Fun, m: X.Mach, ra: X.Word)
    requires FunOk(t, g) && DataApart(t, data, lim) && X.RegOf(m, X.SP) % 16 == 0
    requires 0 <= lim <= X.RegOf(m, X.SP) - Need(t, g)
    ensures UnitOk(UnitFor(t, data, lim, g, m, ra))
  {
    hide FrameOk, DataApart, HasSlots, Restrict, InstrOk, NoLabels, Blocks, Head, LayoutOf, Saved, Fixed, Prologue, ParamsOk;
    var u := UnitFor(t, data, lim, g, m, ra);
    var off := LaidOut(t, g).off;
    FrameLaid(t, data, lim, g, m, ra);
    RestrictedSlots(t, off);
    RestrictedFun(t, g);
    HeadPlain(Restrict(t, off), g.params, off, u.f.size);
    TextIs(g.params, g.code, off, u.f.size);
    var head := Head(g.params, off, u.f.size);
    assert u.text[u.base..] == Blocks(g.code, off) && u.text[..u.base] == head;
    forall k | 0 <= k < |u.code| ensures RoomFor(u.f, u.code[k]) {
      if u.code[k].ICall? { PushedFits(u.code, k); }
    }
  }

  lemma TextIs(params: seq<Value>, code: seq<Instr>, off: map<nat, int>, size: nat)
    ensures Text(params, code, off, size) == Head(params, off, size) + Blocks(code, off)
  {
    hide Prologue, Fixed, Blocks;
  }

  /** The store in which the body starts: parameters bound, other objects as found on the stack. */
  function StartStore(u: Unit, g: Fun, m: X.Mach, xs: seq<int>, st: map<nat, int>): Store
    requires |xs| == |g.params|
  {
    Received(g.params, xs, |xs|, Store(Found(u.f.t, u.f.places, u.f.bp, u.f.entry), st, m.trace))
  }

  /** What the caller has set up, seen from the callee. */
  ghost predicate Invoked(t: Types, data: map<nat, int>, lim: int, g: Fun, m: X.Mach, xs: seq<int>, ts: seq<A.Ty>, st: map<nat, int>) {
    && FunOk(t, g) && DataApart(t, data, lim) && X.RegOf(m, X.SP) % 16 == 0 && 0 <= lim <= X.RegOf(m, X.SP) - Need(t, g)
    && ArgsPassed(m, ts, xs) && |ts| == |g.params| && (forall i :: 0 <= i < |ts| ==> TyOf(g.params[i]) == ts[i])
    && StaticsHold(t, X.Places(map[], data), st, m.mem)
  }

  lemma SameStatics(t: Types, p: X.Places, t': Types, p': X.Places, st: map<nat, int>, mem: Bytes)
    requires StaticsHold(t, p, st, mem) && t'.statics == t.statics && p'.data == p.data
    ensures StaticsHold(t', p', st, mem)
  {
    hide Load, Wrap;
    forall id ensures StaticHolds(t', p', st, mem, id) { assert StaticHolds(t, p, st, mem, id); }
  }

  lemma Arity(t: Types, data: map<nat, int>, lim: int, g: Fun, m: X.Mach, xs: seq<int>, ts: seq<A.Ty>, st: map<nat, int>)
    requires Invoked(t, data, lim, g, m, xs, ts, st)
    ensures |xs| == |g.params|
  {
    hide FunOk, DataApart, ArgPassed, StaticsHold;
  }

  /** The callee's code reaches its body with its parameters bound. */
  lemma Arrives(t: Types, data: map<nat, int>, lim: int, g: Fun, m: X.Mach, ra: X.Word, xs: seq<int>, ts: seq<A.Ty>, st: map<nat, int>, calls: X.Calls)
    returns (n: nat, m': X.Mach)
    requires Invoked(t, data, lim, g, m, xs, ts, st)
    ensures var u := UnitFor(t, data, lim, g, m, ra);
            && UnitOk(u) && EntryOk(u.f.t, u.f.places, u.f.size, lim, m, st)
            && X.ASteps(u.text, X.Running(0, Called(m, ra)), n, u.f.places, calls) == X.Running(PcOf(u, 0), m')
            && Rel(u.f, StartStore(u, g, m, xs, st), m', 0)
  {
    hide FunOk, Restrict, NoLabels, Blocks, Head, LayoutOf, Saved, Called, Rel, X.ExecAll, Found, Received, StaticsHold, FrameOk, X.ASteps, ArgPassed, ParamsOk, UnitOk;
    var u := UnitFor(t, data, lim, g, m, ra);
    var off := LaidOut(t, g).off;
    UnitBuilt(t, data, lim, g, m, ra);
    EntryIs(t, data, lim, g, m, ra, st);
    RestrictedFun(t, g);
    UnitFrame(u);
    assert ParamsOk(u.f.t, g.params) by { FunParams(u.f.t, g); }
    m' := EnterSim(u.f, g.params, m, ra, xs, ts, st, calls);
    TextIs(g.params, g.code, off, u.f.size);
    var head := Head(g.params, off, u.f.size);
    assert u.text[0..|head|] == head;
    n := RunBlock(u.text, 0, head, Called(m, ra), u.f.places, calls);
  }

  lemma FunParams(t: Types, g: Fun)
    requires FunOk(t, g)
    ensures ParamsOk(t, g.params)
  {
  }

  lemma UnitFrame(u: Unit)
    requires UnitOk(u)
    ensures FrameOk(u.f) && HasSlots(u.f.t, u.f.places.slot)
  {
  }

  lemma EntryIs(t: Types, data: map<nat, int>, lim: int, g: Fun, m: X.Mach, ra: X.Word, st: map<nat, int>)
    requires DataApart(t, data, lim) && X.RegOf(m, X.SP) % 16 == 0 && 0 <= lim <= X.RegOf(m, X.SP) - Need(t, g)
    requires StaticsHold(t, X.Places(map[], data), st, m.mem)
    ensures var f := UnitFor(t, data, lim, g, m, ra).f;
            EntryOk(f.t, f.places, f.size, lim, m, st)
  {
    hide LayoutOf, StaticHolds, Saved;
    var f := UnitFor(t, data, lim, g, m, ra).f;
    SameStatics(t, X.Places(map[], data), f.t, f.places, st, m.mem);
    DataOkFrom(t, data, lim, f);
  }

  lemma UnitShares(t: Types, data: map<nat, int>, lim: int, g: Fun, m: X.Mach, ra: X.Word)
    ensures var f := UnitFor(t, data, lim, g, m, ra).f;
            f == FrameOf(f.t, f.places, f.size, f.lim, m, ra) && f.t.statics == t.statics && f.places.data == data && f.lim == lim
    ensures var u := UnitFor(t, data, lim, g, m, ra); u.text == TextOf(t, g) && u.code == g.code && u.ret == g.ret
  {
    hide LayoutOf, Saved, Text, Head;
  }

  /** When the three-address code returns, so does the machine code, to the address that the call pushed, with
      the same result, static objects and outside calls, and with everything its caller counts on in place. */
  lemma CalleeReturns(t: Types, data: map<nat, int>, lim: int, g: Fun, fn: nat, m: X.Mach, ra: X.Word, xs: seq<int>, st: map<nat, int>,
                      k: nat, calls: X.Calls, callees: Callees) returns (n: nat, m': X.Mach)
    requires fn in t.params && fn in t.ret && t.ret[fn] == g.ret && Invoked(t, data, lim, g, m, xs, t.params[fn], st)
    requires var u := UnitFor(t, data, lim, g, m, ra);
             Abi(u.f.t, u.f.places, lim, calls, callees) && IrSteps(g.code, At(0, StartStore(u, g, m, xs, st)), k, callees).Done?
    ensures var u := UnitFor(t, data, lim, g, m, ra);
            var end := IrSteps(g.code, At(0, StartStore(u, g, m, xs, st)), k, callees);
            && X.ASteps(TextOf(t, g), X.Running(0, Called(m, ra)), n, u.f.places, calls) == X.Returned(m', ra)
            && CallDone(t, X.Places(map[], data), fn, m, |xs|, CallResult(end.v, end.st.statics, end.st.trace), m')
  {
    hide Invoked, UnitOk, Abi, Rel, X.ASteps, IrSteps, EntryOk, LayoutOf, LeftWith, CallDone, StartStore, Saved, Called, UnitFor, TextOf, PcOf;
    UnitShares(t, data, lim, g, m, ra);
    var u := UnitFor(t, data, lim, g, m, ra);
    var n1, m1 := Arrives(t, data, lim, g, m, ra, xs, t.params[fn], st, calls);
    Arity(t, data, lim, g, m, xs, t.params[fn], st);
    var start := At(0, StartStore(u, g, m, xs, st));
    var n2 := StepsTrack(u, start, X.Running(PcOf(u, 0), m1), k, calls, callees);
    AChain(u.text, X.Running(0, Called(m, ra)), n1, X.Running(PcOf(u, 0), m1), n2, u.f.places, calls);
    n, m' := n1 + n2, X.ASteps(u.text, X.Running(PcOf(u, 0), m1), n2, u.f.places, calls).m;
    var end := IrSteps(g.code, start, k, callees);
    Restored(u.f, t, data, fn, m, ra, |xs|, st, end.st, end.v, m');
  }

  /** The caller's view of the state after 'ret'. */
  lemma Restored(f: Frame, t: Types, data: map<nat, int>, fn: nat, m: X.Mach, ra: X.Word, n: nat, st: map<nat, int>,
                 s: Store, v: int, m': X.Mach)
    requires fn in t.ret && f == FrameOf(f.t, f.places, f.size, f.lim, m, ra) && f.t.statics == t.statics && f.places.data == data
    requires EntryOk(f.t, f.places, f.size, f.lim, m, st) && LeftWith(f, s, t.ret[fn], v, m')
    ensures CallDone(t, X.Places(map[], data), fn, m, n, CallResult(v, s.statics, s.trace), m') && BackTo(f) == ra
  {
    hide Load, Wrap, StaticsHold, KeptAbove, Saved, EntryOk, RegCount;
    SavedIs(f.t, f.places, f.size, f.lim, m, ra, st);
    SameStatics(f.t, f.places, t, X.Places(map[], data), s.statics, m'.mem);
    KeptTrans(m.mem, f.entry, m'.mem, f.bp, X.RegOf(m, X.SP), 8 * (n - RegCount(n)));
  }

  lemma KeptTrans(a: Bytes, b: Bytes, c: Bytes, low: int, top: int, up: nat)
    requires KeptAbove(a, b, top) && KeptAbove(b, c, low) && low <= top
    ensures KeptAbove(a, c, top + up)
  {
    forall x | top + up <= x ensures At8(c, x) == At8(a, x) {
      assert At8(c, x) == At8(b, x) && At8(b, x) == At8(a, x);
    }
  }

  /** When the three-address code runs on for ever, so does the machine code. */
  lemma CalleeDiverges(t: Types, data: map<nat, int>, lim: int, g: Fun, m: X.Mach, ra: X.Word, xs: seq<int>, ts: seq<A.Ty>, st: map<nat, int>,
                       n: nat, calls: X.Calls, callees: Callees)
    requires Invoked(t, data, lim, g, m, xs, ts, st)
    requires var u := UnitFor(t, data, lim, g, m, ra);
             Abi(u.f.t, u.f.places, lim, calls, callees)
             && IrSteps(g.code, At(0, StartStore(u, g, m, xs, st)), n, callees).At?
    ensures var u := UnitFor(t, data, lim, g, m, ra);
            X.ASteps(TextOf(t, g), X.Running(0, Called(m, ra)), n, u.f.places, calls).Running?
  {
    hide Invoked, UnitOk, Abi, Rel, X.AStep, IrSteps, EntryOk, LayoutOf, StartStore, Saved, Called, UnitFor, TextOf, PcOf;
    UnitShares(t, data, lim, g, m, ra);
    var u := UnitFor(t, data, lim, g, m, ra);
    var n1, m1 := Arrives(t, data, lim, g, m, ra, xs, ts, st, calls);
    Arity(t, data, lim, g, m, xs, ts, st);
    var start, a := At(0, StartStore(u, g, m, xs, st)), X.Running(0, Called(m, ra));
    var n2 := StepsTrack(u, start, X.Running(PcOf(u, 0), m1), n, calls, callees);
    AChain(u.text, a, n1, X.Running(PcOf(u, 0), m1), n2, u.f.places, calls);
    AChain(u.text, a, n, X.ASteps(u.text, a, n, u.f.places, calls), n1 + n2 - n, u.f.places, calls);
    if !X.ASteps(u.text, a, n, u.f.places, calls).Running? {
      MachineStopped(u.text, X.ASteps(u.text, a, n, u.f.places, calls), n1 + n2 - n, u.f.places, calls);
    }
  }

  lemma {:induction false} MachineStopped(c: seq<X.AInstr>, a: X.AState, n: nat, p: X.Places, calls: X.Calls)
    requires !a.Running?
    ensures X.ASteps(c, a, n, p, calls) == a
    decreases n
  {
    hide X.Exec;
    if n > 0 { MachineStopped(c, a, n - 1, p, calls); }
  }
}
