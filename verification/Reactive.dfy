/** What a call does before it returns, if it ever does: every outside call that the source comes to, and
    every way it goes on for ever, is found again in the machine code. */
module Reactive {
  import opened Arith
  import opened Ast
  import opened Semantics
  import opened Ir
  import opened IrGen
  import opened Program
  import opened Watching
  import opened WatchedRuns
  import X = X86
  import opened Frames
  import opened CallProof
  import opened Backend
  import opened Execution
  import opened Placement
  import opened Callee
  import opened Compiler

  ghost predicate RunShows(code: seq<Instr>, params: seq<Symbol>, args: seq<int>, st: map<nat, int>, tr: seq<Event>,
                           callees: Callees, h: Watch, endless: bool) {
    forall found :: CodeShows(code, Store(Bind(params, args, found), st, tr), callees, h, endless)
  }

  /** The same of the translated program as SourceShows of the source. */
  ghost function TargetShows(prog: seq<Fn>, np: nat, nl: nat, ext: Callees, hext: Watch, endless: bool, d: nat): Watch
    decreases d
  {
    (fn, args, st, tr) =>
      var i := IndexOf(prog, fn);
      if i.None? then hext(fn, args, st, tr)
      else if d == 0 then endless
      else
        RunShows(CodeOf(prog, i.value, np, nl), prog[i.value].params, args, st, tr, TargetCallees(prog, np, nl, ext, d - 1),
                 TargetShows(prog, np, nl, ext, hext, endless, d - 1), endless)
  }

  ghost predicate Within(h: Watch, h': Watch) {
    forall fn, args, st, tr :: h(fn, args, st, tr) ==> h'(fn, args, st, tr)
  }

  lemma CodeWithin(code: seq<Instr>, s: Store, callees: Callees, h: Watch, h': Watch, endless: bool)
    requires Within(h, h') && CodeShows(code, s, callees, h, endless)
    ensures CodeShows(code, s, callees, h', endless)
  {
    hide IrSteps, ReadVals;
    if n: nat :| AtMet(code, IrSteps(code, At(0, s), n, callees), h) {
      assert AtMet(code, IrSteps(code, At(0, s), n, callees), h');
    }
  }

  /** What a source call shows, its three-address code shows. */
  lemma {:induction false} ProgramShows(prog: seq<Fn>, np: nat, nl: nat, ext: Callees, hext: Watch, early: bool, endless: bool, d: nat)
    requires ProgramOk(prog, np, nl) && InOrder(prog, early)
    ensures Within(SourceShows(prog, ext, hext, early, endless, d), TargetShows(prog, np, nl, ext, hext, endless, d))
    decreases d
  {
    hide BodyOk, Sequenced, GenFunction, StartOf, Bind, BodyShows, CodeShows;
    var f, g := SourceShows(prog, ext, hext, early, endless, d), TargetShows(prog, np, nl, ext, hext, endless, d);
    if d > 0 {
      ProgramShows(prog, np, nl, ext, hext, early, endless, d - 1);
      ProgramCorrect(prog, np, nl, ext, early, d - 1);
    }
    forall fn, args, st, tr | f(fn, args, st, tr) ensures g(fn, args, st, tr) {
      var i := IndexOf(prog, fn);
      if i.Some? && d > 0 {
        var src, tgt := SourceCallees(prog, ext, early, d - 1), TargetCallees(prog, np, nl, ext, d - 1);
        var h, h' := SourceShows(prog, ext, hext, early, endless, d - 1), TargetShows(prog, np, nl, ext, hext, endless, d - 1);
        var (a, b) := StartOf(prog, i.value, np, nl);
        assert CallShows(prog[i.value], args, st, tr, early, src, h, endless);
        forall found
          ensures CodeShows(CodeOf(prog, i.value, np, nl), Store(Bind(prog[i.value].params, args, found), st, tr), tgt, h', endless)
        {
          var s := Store(Bind(prog[i.value].params, args, found), st, tr);
          FunctionShows(prog[i.value].body, prog[i.value].ret, a, b, s, s, src, tgt, h, early, endless);
          CodeWithin(CodeOf(prog, i.value, np, nl), s, tgt, h, h', endless);
        }
        assert RunShows(CodeOf(prog, i.value, np, nl), prog[i.value].params, args, st, tr, tgt, h', endless);
      }
    }
  }

  /** Machine calls to watch for. */
  type WatchCalls = (nat, X.Mach) -> bool

  ghost predicate AtCall(text: seq<X.AInstr>, a: X.AState, xh: WatchCalls) {
    a.Running? && a.pc < |text| && text[a.pc].Call? && xh(text[a.pc].fn, a.m)
  }

  /** The call comes to a watched call instruction, or, where that counts, runs on for ever. */
  ghost predicate TextShows(text: seq<X.AInstr>, p: X.Places, m: X.Mach, ra: X.Word, calls: X.Calls, xh: WatchCalls,
                            endless: bool) {
    || (exists n: nat :: AtCall(text, X.ASteps(text, X.Running(0, Called(m, ra)), n, p, calls), xh))
    || (endless && forall n: nat :: X.ASteps(text, X.Running(0, Called(m, ra)), n, p, calls).Running?)
  }

  ghost function AsmShows(im: Image, ra: Returns, ext: X.Calls, xhext: WatchCalls, endless: bool, d: nat): WatchCalls
    requires |im.ts| == |im.prog|
    decreases d
  {
    (fn: nat, m: X.Mach) =>
      var i := IndexOf(im.prog, fn);
      if i.None? then xhext(fn, m)
      else if d == 0 then endless
      else
        TextShows(TextOf(im.ts[i.value], FunAt(im, i.value)), PlacesAt(im, i.value), m, ra(fn, m), AsmCalls(im, ra, ext, d - 1),
                  AsmShows(im, ra, ext, xhext, endless, d - 1), endless)
  }

  ghost predicate ShowsAt(t: Types, p: X.Places, lim: int, xh: WatchCalls, h: Watch,
                          fn: nat, m: X.Mach, xs: seq<int>, st: map<nat, int>) {
    CallReady(t, p, lim, fn, m, xs, st) && h(fn, xs, st, m.trace) ==> xh(fn, m)
  }

  /** A machine call is watched for when the call it carries out is. */
  ghost predicate AbiShows(t: Types, p: X.Places, lim: int, xh: WatchCalls, h: Watch) {
    forall fn, m, xs, st :: ShowsAt(t, p, lim, xh, h, fn, m, xs, st)
  }

  lemma ShowsSame(t: Types, p: X.Places, t2: Types, p2: X.Places, lim: int, xh: WatchCalls, h: Watch)
    requires AbiShows(t, p, lim, xh, h) && t2.statics == t.statics && t2.params == t.params && t2.ret == t.ret && p2.data == p.data
    ensures AbiShows(t2, p2, lim, xh, h)
  {
    hide ArgsPassed, StaticsHold;
    forall fn, m, xs, st ensures ShowsAt(t2, p2, lim, xh, h, fn, m, xs, st) {
      assert ShowsAt(t, p, lim, xh, h, fn, m, xs, st);
      if CallReady(t2, p2, lim, fn, m, xs, st) { SameStatics(t2, p2, t, p, st, m.mem); }
    }
  }

  /** At a watched call, the machine goes through the set-up to its call instruction. */
  lemma BlockReaches(u: Unit, pc: nat, s: Store, m: X.Mach, calls: X.Calls, h: Watch, xh: WatchCalls) returns (n: nat)
    requires UnitOk(u) && AbiShows(u.f.t, u.f.places, u.f.lim, xh, h) && AtMet(u.code, At(pc, s), h) && Rel(u.f, s, m, 0)
    ensures pc < |u.code| && AtCall(u.text, X.ASteps(u.text, X.Running(PcOf(u, pc), m), n, u.f.places, calls), xh)
  {
    hide Rel, FrameOk, InstrOk, BlockOf, X.ExecAll, HasSlots, Blocks, NoLabels, AllLowered, CallReady, PcOf, Fixed, Before, After, X.ASteps;
    var i, p := u.code[pc], u.f.places;
    TextBlock(u, pc);
    CallLowered(u.f.t, i, p.slot);
    var m1 := CallEntered(u.f, s, m, i, calls);
    CallBlockIs(i, p.slot);
    var b := Fixed(Before(i.args), p.slot);
    var q := PcOf(u, pc);
    assert u.text[q..q + |b|] == b && u.text[q + |b|] == X.Call(i.fn) by {
      var whole := BlockOf(i, p.slot);
      assert whole[..|b|] == b && whole[|b|] == X.Call(i.fn);
      assert u.text[q..q + |whole|][..|b|] == u.text[q..q + |b|] && u.text[q..q + |whole|][|b|] == u.text[q + |b|];
    }
    n := RunBlock(u.text, q, b, m, p, calls);
    assert ShowsAt(u.f.t, p, u.f.lim, xh, h, i.fn, m1, ReadVals(i.args, s), s.statics);
  }

  /** What three-address code shows, the machine code shows. */
  lemma CalleeShows(t: Types, data: map<nat, int>, lim: int, g: Fun, m: X.Mach, ra: X.Word, xs: seq<int>, ts: seq<Ty>, st: map<nat, int>,
                    calls: X.Calls, callees: Callees, h: Watch, xh: WatchCalls, endless: bool)
    requires Invoked(t, data, lim, g, m, xs, ts, st) && |xs| == |g.params|
    requires var u := UnitFor(t, data, lim, g, m, ra);
             && Abi(u.f.t, u.f.places, lim, calls, callees) && AbiShows(u.f.t, u.f.places, lim, xh, h)
             && CodeShows(g.code, StartStore(u, g, m, xs, st), callees, h, endless)
    ensures TextShows(TextOf(t, g), UnitFor(t, data, lim, g, m, ra).f.places, m, ra, calls, xh, endless)
  {
    hide Invoked, UnitOk, Abi, AbiShows, Rel, X.ASteps, IrSteps, EntryOk, LayoutOf, StartStore, Saved, Called, UnitFor, TextOf, PcOf, Met;
    UnitShares(t, data, lim, g, m, ra);
    var u := UnitFor(t, data, lim, g, m, ra);
    var start, a := At(0, StartStore(u, g, m, xs, st)), X.Running(0, Called(m, ra));
    if k: nat :| AtMet(g.code, IrSteps(g.code, start, k, callees), h) {
      var n1, m1 := Arrives(t, data, lim, g, m, ra, xs, ts, st, calls);
      var b := X.Running(PcOf(u, 0), m1);
      var n2 := StepsTrack(u, start, b, k, calls, callees);
      var ir, c := IrSteps(g.code, start, k, callees), X.ASteps(u.text, b, n2, u.f.places, calls);
      var n3 := BlockReaches(u, ir.pc, ir.s, c.m, calls, h, xh);
      AChain(u.text, b, n2, c, n3, u.f.places, calls);
      AChain(u.text, a, n1, b, n2 + n3, u.f.places, calls);
      assert AtCall(u.text, X.ASteps(u.text, a, n1 + (n2 + n3), u.f.places, calls), xh);
    } else {
      forall n: nat ensures X.ASteps(u.text, a, n, u.f.places, calls).Running? {
        CalleeDiverges(t, data, lim, g, m, ra, xs, ts, st, n, calls, callees);
      }
    }
  }

  /** One compiled call, given that the calls it makes keep the convention and show what they should. */
  lemma CallShown(im: Image, i: nat, lim: int, need: nat, m: X.Mach, ra: X.Word, xs: seq<int>, st: map<nat, int>,
                  calls: X.Calls, callees: Callees, h: Watch, xh: WatchCalls, endless: bool)
    requires ImageOk(im) && i < |im.prog| && Enough(im, need) && 0 <= lim && DataApart(im.g, im.data, lim)
    requires CallReady(im.g, Statics(im), lim + need, im.prog[i].id, m, xs, st)
    requires Abi(im.g, Statics(im), lim, calls, callees) && AbiShows(im.g, Statics(im), lim, xh, h)
    requires RunShows(FunAt(im, i).code, im.prog[i].params, xs, st, m.trace, callees, h, endless)
    ensures |im.ts| == |im.prog| && TextShows(TextOf(im.ts[i], FunAt(im, i)), PlacesAt(im, i), m, ra, calls, xh, endless)
  {
    hide ImageOk, Enough, DataApart, CallReady, Abi, AbiShows, Invoked, TextOf, StartStore, CodeOf, CodeShows, TextShows, LayoutOf,
         UnitFor, Found, Bind;
    Lengths(im);
    var t, f, g := im.ts[i], im.prog[i], FunAt(im, i);
    InvokedFrom(im, i, lim, need, m, xs, st);
    Arity(t, im.data, lim, g, m, xs, t.params[f.id], st);
    TableShares(im, i);
    var u := UnitFor(t, im.data, lim, g, m, ra);
    UnitPlaces(im, i, lim, m, ra);
    StartIs(im, i, lim, m, ra, xs, st);
    AbiSame(im.g, Statics(im), u.f.t, u.f.places, lim, calls, callees);
    ShowsSame(im.g, Statics(im), u.f.t, u.f.places, lim, xh, h);
    CalleeShows(t, im.data, lim, g, m, ra, xs, t.params[f.id], st, calls, callees, h, xh, endless);
  }

  /** The same for whole programs, however deep the calls. */
  lemma {:induction false} ShowsHold(im: Image, ra: Returns, ext: X.Calls, out: Callees, hext: Watch, xhext: WatchCalls, endless: bool,
                                     base: nat, need: nat, d: nat)
    requires ImageOk(im) && Enough(im, need) && DataApart(im.g, im.data, base) && Abi(im.g, Statics(im), base, ext, out)
    requires AbiShows(im.g, Statics(im), base, xhext, hext)
    ensures AbiShows(im.g, Statics(im), Lowest(base, need, d), AsmShows(im, ra, ext, xhext, endless, d),
                     TargetShows(im.prog, im.np, im.nl, out, hext, endless, d))
    decreases d
  {
    hide ImageOk, Enough, DataApart, CallReady, TextOf, TextShows, RunShows, LayoutOf, CodeOf, PlacesAt, Abi;
    Lengths(im);
    var xh, h := AsmShows(im, ra, ext, xhext, endless, d), TargetShows(im.prog, im.np, im.nl, out, hext, endless, d);
    if d > 0 {
      ShowsHold(im, ra, ext, out, hext, xhext, endless, base, need, d - 1);
      AbiHolds(im, ra, ext, out, base, need, d - 1);
    }
    LowestMono(base, need, d);
    forall fn, m, xs, st ensures ShowsAt(im.g, Statics(im), Lowest(base, need, d), xh, h, fn, m, xs, st) {
      var i := IndexOf(im.prog, fn);
      if CallReady(im.g, Statics(im), Lowest(base, need, d), fn, m, xs, st) && h(fn, xs, st, m.trace) {
        ReadyLower(im.g, Statics(im), base, Lowest(base, need, d), fn, m, xs, st);
        if i.None? {
          assert ShowsAt(im.g, Statics(im), base, xhext, hext, fn, m, xs, st);
        } else if d > 0 {
          FnIndex(im.prog, fn);
          LowestMono(base, need, d - 1);
          DataLower(im.g, im.data, base, Lowest(base, need, d - 1));
          CallShown(im, i.value, Lowest(base, need, d - 1), need, m, ra(fn, m), xs, st,
                    AsmCalls(im, ra, ext, d - 1), TargetCallees(im.prog, im.np, im.nl, out, d - 1),
                    TargetShows(im.prog, im.np, im.nl, out, hext, endless, d - 1), AsmShows(im, ra, ext, xhext, endless, d - 1), endless);
        }
      }
    }
  }

  /** Compilation keeps behaviour: whatever a call of a source function shows, under C's value semantics
      ('early') and whatever uninitialised objects hold, the compiled call shows. With 'endless', a call that
      goes on for ever is compiled to one that does, neither returning nor faulting. */
  lemma BehaviourKept(im: Image, ra: Returns, ext: X.Calls, out: Callees, hext: Watch, xhext: WatchCalls,
                      early: bool, endless: bool, base: nat, need: nat, d: nat, fn: nat, m: X.Mach, xs: seq<int>, st: map<nat, int>)
    requires ImageOk(im) && Enough(im, need) && DataApart(im.g, im.data, base) && Abi(im.g, Statics(im), base, ext, out)
    requires AbiShows(im.g, Statics(im), base, xhext, hext)
    requires CallReady(im.g, Statics(im), Lowest(base, need, d), fn, m, xs, st)
    requires InOrder(im.prog, early) && SourceShows(im.prog, out, hext, early, endless, d)(fn, xs, st, m.trace)
    ensures AsmShows(im, ra, ext, xhext, endless, d)(fn, m)
  {
    hide Enough, DataApart, SourceShows, TargetShows, AsmShows, TableOk, ProgramOk, StaticsHold, ArgsPassed, Abi;
    ShowsHold(im, ra, ext, out, hext, xhext, endless, base, need, d);
    ProgramShows(im.prog, im.np, im.nl, out, hext, early, endless, d);
    assert ShowsAt(im.g, Statics(im), Lowest(base, need, d), AsmShows(im, ra, ext, xhext, endless, d),
                   TargetShows(im.prog, im.np, im.nl, out, hext, endless, d), fn, m, xs, st);
  }

  /** The call of 'f' with these arguments, static objects and earlier outside calls. */
  ghost function Made(f: nat, args: seq<int>, st: map<nat, int>, tr: seq<Event>): Watch {
    (fn, xs, st', tr') => fn == f && xs == args && st' == st && tr' == tr
  }

  /** The same at a call instruction: arguments in place, static objects in memory. */
  ghost function Arriving(im: Image, lim: int, f: nat, args: seq<int>, st: map<nat, int>, tr: seq<Event>): WatchCalls {
    (fn: nat, m: X.Mach) => fn == f && m.trace == tr && CallReady(im.g, Statics(im), lim, f, m, args, st)
  }

  /** Every outside call that the source makes, in a run that returns, goes on for ever or goes wrong later,
      the compiled program makes, with the same arguments, static objects and outside calls before it. */
  lemma OutsideCallsKept(im: Image, ra: Returns, ext: X.Calls, out: Callees, early: bool, base: nat, need: nat, d: nat,
                         fn: nat, m: X.Mach, xs: seq<int>, st: map<nat, int>,
                         f: nat, args: seq<int>, st': map<nat, int>, tr': seq<Event>)
    requires ImageOk(im) && Enough(im, need) && DataApart(im.g, im.data, base) && Abi(im.g, Statics(im), base, ext, out)
    requires CallReady(im.g, Statics(im), Lowest(base, need, d), fn, m, xs, st)
    requires InOrder(im.prog, early) && SourceShows(im.prog, out, Made(f, args, st', tr'), early, false, d)(fn, xs, st, m.trace)
    ensures AsmShows(im, ra, ext, Arriving(im, base, f, args, st', tr'), false, d)(fn, m)
  {
    hide Enough, DataApart, SourceShows, AsmShows, SourceOk, TableOk, CallReady, Abi;
    var h, xh := Made(f, args, st', tr'), Arriving(im, base, f, args, st', tr');
    forall fn', m', xs', s' ensures ShowsAt(im.g, Statics(im), base, xh, h, fn', m', xs', s') {
    }
    BehaviourKept(im, ra, ext, out, h, xh, early, false, base, need, d, fn, m, xs, st);
  }

  /** Watched calls do not return. */
  ghost predicate SilentCalls(xh: WatchCalls, calls: X.Calls) {
    forall fn, m :: xh(fn, m) ==> calls(fn, m).None?
  }

  lemma {:induction false} AtCallNotLeft(text: seq<X.AInstr>, a: X.AState, k: nat, n: nat, p: X.Places, calls: X.Calls, xh: WatchCalls)
    requires AtCall(text, X.ASteps(text, a, k, p, calls), xh) && SilentCalls(xh, calls)
    ensures !X.ASteps(text, a, n, p, calls).Returned?
  {
    var at := X.ASteps(text, a, k, p, calls);
    if n <= k {
      var end := X.ASteps(text, a, n, p, calls);
      AChain(text, a, n, end, k - n, p, calls);
      if !end.Running? { MachineStopped(text, end, k - n, p, calls); }
    } else {
      AChain(text, a, k, at, n - k, p, calls);
      MachineStopped(text, X.Crashed, n - k - 1, p, calls);
    }
  }

  /** Code that comes to a call that does not return, or runs on for ever, does not return. */
  lemma TextNeverReturns(text: seq<X.AInstr>, p: X.Places, m: X.Mach, ra: X.Word, calls: X.Calls, xh: WatchCalls, endless: bool)
    requires TextShows(text, p, m, ra, calls, xh, endless) && SilentCalls(xh, calls)
    ensures MachineCall(text, p, m, ra, calls).None?
  {
    hide X.ASteps, Called, AtCall;
    var start := X.Running(0, Called(m, ra));
    forall n: nat ensures !X.ASteps(text, start, n, p, calls).Returned? {
      if k: nat :| AtCall(text, X.ASteps(text, start, k, p, calls), xh) { AtCallNotLeft(text, start, k, n, p, calls, xh); }
    }
  }

  /** No compiled call both returns and goes on for ever. */
  lemma {:induction false} MachineExclusive(im: Image, ra: Returns, ext: X.Calls, xhext: WatchCalls, endless: bool, d: nat)
    requires |im.ts| == |im.prog| && SilentCalls(xhext, ext)
    ensures SilentCalls(AsmShows(im, ra, ext, xhext, endless, d), AsmCalls(im, ra, ext, d))
    decreases d
  {
    hide TextShows, MachineCall, TextOf, PlacesAt, CodeOf;
    var xh, calls := AsmShows(im, ra, ext, xhext, endless, d), AsmCalls(im, ra, ext, d);
    if d > 0 { MachineExclusive(im, ra, ext, xhext, endless, d - 1); }
    forall fn, m | xh(fn, m) ensures calls(fn, m).None? {
      var i := IndexOf(im.prog, fn);
      if i.Some? && d > 0 {
        TextNeverReturns(TextOf(im.ts[i.value], FunAt(im, i.value)), PlacesAt(im, i.value), m, ra(fn, m), AsmCalls(im, ra, ext, d - 1),
                         AsmShows(im, ra, ext, xhext, endless, d - 1), endless);
      }
    }
  }

  /** int f(void) { return f(); } */
  function SelfCall(): Fn {
    Fn(0, [], Int, Block([Return(Some(Call(0, [], [], Int)))]))
  }

  /** It recurses for ever: at every depth its call is still running. */
  lemma {:induction false} RecursesForEver(ext: Callees, hext: Watch, early: bool, d: nat, st: map<nat, int>, tr: seq<Event>)
    ensures SourceShows([SelfCall()], ext, hext, early, true, d)(0, [], st, tr)
    decreases d
  {
    hide BodyShows;
    assert IndexOf([SelfCall()], 0) == Some(0);
    if d > 0 {
      RecursesForEver(ext, hext, early, d - 1, st, tr);
      var f, callees, h := SelfCall(), SourceCallees([SelfCall()], ext, early, d - 1),
        SourceShows([SelfCall()], ext, hext, early, true, d - 1);
      forall found ensures BodyShows(f.body, Store(Bind(f.params, [], found), st, tr), early, callees, h, true) {
        CallsItself(Store(Bind(f.params, [], found), st, tr), early, callees, h);
      }
      assert CallShows(f, [], st, tr, early, callees, h, true);
    }
  }

  lemma CallsItself(m: Store, early: bool, callees: Callees, h: Watch)
    requires h(0, [], m.statics, m.trace)
    ensures BodyShows(SelfCall().body, m, early, callees, h, true)
  {
    var body := SelfCall().body;
    var call := body.items[0];
    var start := Run(body, KStop, m);
    var at := Run(call, KSeq([], KStop), m);
    assert body.items == [call] && [call][1..] == [];
    assert Steps(body, start, 2, early, callees) == at by {
      var next := Resume(KSeq([call], KStop), m);
      assert Step(body, start, early, callees) == next && Step(body, next, early, callees) == at;
      assert Steps(body, at, 0, early, callees) == at;
      assert Steps(body, next, 1, early, callees) == at;
    }
    assert StateMeets(at, early, callees, h);
  }
}
