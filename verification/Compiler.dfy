/** The compiler from analysed programs to machine code: what a source call returns, the compiled
    call returns, for whole programs of functions that call each other. */
module Compiler {
  import opened Arith
  import opened Ast
  import opened Semantics
  import opened Ir
  import opened IrGen
  import opened Program
  import X = X86
  import opened Frames
  import opened CallProof
  import opened Execution
  import opened Placement
  import opened Callee
  import opened Typing
  import opened Mentions

  function ParamValues(params: seq<Symbol>): (vs: seq<Value>)
    ensures |vs| == |params| && forall k :: 0 <= k < |params| ==> vs[k] == Object(params[k])
  {
    seq(|params|, k requires 0 <= k < |params| => Object(params[k]))
  }

  function FunOf(prog: seq<Fn>, i: nat, np: nat, nl: nat): Fun
    requires i < |prog|
  {
    Fun(prog[i].ret, ParamValues(prog[i].params), CodeOf(prog, i, np, nl))
  }

  predicate Distinct(params: seq<Symbol>) {
    forall j, k :: 0 <= j < k < |params| ==> params[j].id != params[k].id
  }

  lemma {:induction false} BindSnoc(params: seq<Symbol>, xs: seq<int>, p: Symbol, x: int, found: map<nat, int>)
    requires |params| == |xs| && forall k :: 0 <= k < |params| ==> params[k].id != p.id
    ensures Bind(params + [p], xs + [x], found) == Bind(params, xs, found)[p.id := x]
  {
    if params == [] {
      assert (params + [p])[1..] == [] && (xs + [x])[1..] == [];
    } else {
      assert (params + [p])[1..] == params[1..] + [p] && (xs + [x])[1..] == xs[1..] + [x];
      BindSnoc(params[1..], xs[1..], p, x, found);
      var b: map<nat, int> := Bind(params[1..], xs[1..], found);
      var u, v: map<nat, int> := b[p.id := x], b[params[0].id := xs[0]];
      assert u[params[0].id := xs[0]] == v[p.id := x];
    }
  }

  /** Moving the parameters in order binds them. */
  lemma {:induction false} ReceivedIsBind(params: seq<Symbol>, xs: seq<int>, n: nat, s: Store)
    requires n <= |params| == |xs| && Distinct(params) && forall k :: 0 <= k < |params| ==> !params[k].isStatic
    ensures Received(ParamValues(params), xs, n, s) == s.(locals := Bind(params[..n], xs[..n], s.locals))
  {
    if n > 0 {
      ReceivedIsBind(params, xs, n - 1, s);
      BindSnoc(params[..n - 1], xs[..n - 1], params[n - 1], xs[n - 1], s.locals);
      assert params[..n] == params[..n - 1] + [params[n - 1]] && xs[..n] == xs[..n - 1] + [xs[n - 1]];
    }
  }

  /** The definition agrees with the declared signature and its body is typed. 'g' gives the types of
      all automatic and static objects and the signatures of all functions. */
  ghost predicate FnTyped(g: Types, f: Fn) {
    && StmtTyped(g, f.ret, f.body) && (IsArithmetic(f.ret) || f.ret.Void?) && Distinct(f.params)
    && f.id in g.params && f.id in g.ret && g.ret[f.id] == f.ret && |g.params[f.id]| == |f.params|
    && forall k :: 0 <= k < |f.params| ==> ParamTyped(g, f.params[k], g.params[f.id][k])
  }

  predicate ParamTyped(g: Types, p: Symbol, ty: Ty) {
    p.ty == ty && !p.isStatic && SymTyped(g, p) && IsArithmetic(ty)
  }

  /** What error-free analysis establishes of a program. */
  ghost predicate SourceOk(prog: seq<Fn>, np: nat, nl: nat, g: Types) {
    && ProgramOk(prog, np, nl) && NumberedApart(prog) && ObjectsApart(prog, np) && Bounded(g, np)
    && forall i :: 0 <= i < |prog| ==> FnTyped(g, prog[i])
  }

  predicate FunUses(g: Fun, id: nat) {
    ValsUse(g.params, id) || CodeUses(g.code, id)
  }

  /** 't' types the pseudos that the i-th function uses, and no others. */
  ghost predicate TableOk(prog: seq<Fn>, i: nat, np: nat, nl: nat, g: Types, t: Types)
    requires i < |prog|
  {
    && t.statics == g.statics && t.params == g.params && t.ret == g.ret && FunOk(t, FunOf(prog, i, np, nl))
    && forall id :: id in t.pseudo ==> FunUses(FunOf(prog, i, np, nl), id)
  }

  /** The types of the pseudos that the function uses. */
  function Used(t: Types, g: Fun): Types {
    t.(pseudo := map id | id in t.pseudo && FunUses(g, id) :: t.pseudo[id])
  }

  lemma UsedVal(t: Types, g: Fun, v: Value)
    requires ValOk(t, v) && (v.Pseudo? ==> FunUses(g, v.id))
    ensures ValOk(Used(t, g), v)
  {
    hide FunUses;
  }

  lemma UsedInstr(t: Types, g: Fun, i: Instr)
    requires InstrOk(t, i) && forall id :: InstrUses(i, id) ==> FunUses(g, id)
    ensures InstrOk(Used(t, g), i)
  {
    hide FunUses, ValOk, Used;
    UsedOnly(t, g);
    match i
    case IReturn(v) => if !v.NoValue? { UsedVal(t, g, v); }
    case IUnary(_, a, d) => UsedVal(t, g, a); UsedVal(t, g, d);
    case IBinary(_, a, b, d) => UsedVal(t, g, a); UsedVal(t, g, b); UsedVal(t, g, d);
    case ICopy(a, d) => UsedVal(t, g, a); UsedVal(t, g, d);
    case ICast(a, d) => UsedVal(t, g, a); UsedVal(t, g, d);
    case IJump(_) =>
    case IJumpIfZero(c, _) => UsedVal(t, g, c);
    case IJumpIfNotZero(c, _) => UsedVal(t, g, c);
    case ILabel(_) =>
    case ICall(fn, args, d) =>
      forall k | 0 <= k < |args| ensures ValOk(Used(t, g), args[k]) {
        assert args[k].Pseudo? ==> ValUses(args[k], args[k].id);
        UsedVal(t, g, args[k]);
      }
      if !d.NoValue? { UsedVal(t, g, d); }
  }

  lemma UsedFun(t: Types, g: Fun)
    requires FunOk(t, g)
    ensures FunOk(Used(t, g), g)
  {
    hide InstrOk, ValOk, Used, InstrUses;
    forall k | 0 <= k < |g.params| ensures DstOk(Used(t, g), g.params[k]) {
      assert ValUses(g.params[k], g.params[k].id);
      UsedVal(t, g, g.params[k]);
    }
    forall k | 0 <= k < |g.code| ensures InstrOk(Used(t, g), g.code[k]) {
      assert forall id :: InstrUses(g.code[k], id) ==> CodeUses(g.code, id);
      UsedInstr(t, g, g.code[k]);
    }
  }

  /** A function's code and parameters use the automatic objects that it names and its own temporaries. */
  lemma FunOwns(prog: seq<Fn>, i: nat, np: nat, nl: nat, id: nat)
    requires i < |prog| && FunUses(FunOf(prog, i, np, nl), id)
    ensures FnMentions(prog[i], id) || TempOf(id, StartOf(prog, i, np, nl).0, StartOf(prog, i + 1, np, nl).0)
  {
    hide CodeUses, StmtMentions, CodeOf, StartOf;
    var g := FunOf(prog, i, np, nl);
    if CodeUses(g.code, id) {
      CodeOwns(prog, i, np, nl, id);
    } else {
      var k :| 0 <= k < |g.params| && ValUses(g.params[k], id);
      assert Is(prog[i].params[k], id);
    }
  }

  /** No pseudo is used by two functions. The back end gives slots to all functions from one table that it never
      resets, so that a shared one would have a slot in the first function's frame only. */
  lemma PseudosApart(prog: seq<Fn>, np: nat, nl: nat, i: nat, j: nat, id: nat)
    requires ObjectsApart(prog, np) && i < |prog| && j < |prog| && i != j
    requires FunUses(FunOf(prog, i, np, nl), id)
    ensures !FunUses(FunOf(prog, j, np, nl), id)
  {
    hide FunUses, FnMentions, StartOf;
    FunOwns(prog, i, np, nl, id);
    if FunUses(FunOf(prog, j, np, nl), id) {
      FunOwns(prog, j, np, nl, id);
      CountersGrow(prog, if i < j then i + 1 else j + 1, if i < j then j else i, np, nl);
      CountersGrow(prog, if i < j then i else j, if i < j then i else j, np, nl);
    }
  }

  lemma TableExists(prog: seq<Fn>, i: nat, np: nat, nl: nat, g: Types) returns (t: Types)
    requires SourceOk(prog, np, nl, g) && i < |prog|
    ensures TableOk(prog, i, np, nl, g, t)
  {
    hide ProgramOk, StmtTyped, GenFunction, InstrOk, Used, FunUses, ObjectsApart;
    var f := prog[i];
    var (a, b) := StartOf(prog, i, np, nl);
    CountersGrow(prog, i, i, np, nl);
    assert FnTyped(g, f);
    var all := FunctionTyped(g, f.ret, f.body, a, b);
    var ps := ParamValues(f.params);
    forall k | 0 <= k < |ps| ensures ps[k].Pseudo? && DstOk(all, ps[k]) {
      assert ParamTyped(g, f.params[k], g.params[f.id][k]);
      ExtSym(g, all, f.params[k]);
      ObjectOk(all, f.params[k]);
    }
    var h := FunOf(prog, i, np, nl);
    t := Used(all, h);
    UsedFun(all, h);
    UsedOnly(all, h);
  }

  lemma UsedOnly(t: Types, g: Fun)
    ensures var u := Used(t, g); u.statics == t.statics && u.params == t.params && u.ret == t.ret && forall id :: id in u.pseudo ==> FunUses(g, id)
  {
    hide FunUses;
  }

  /** A compiled program: the source, where its temporaries and labels start, the types of its objects,
      each function's table of pseudo types, and the addresses of its static objects. */
  datatype Image = Image(prog: seq<Fn>, np: nat, nl: nat, g: Types, ts: seq<Types>, data: map<nat, int>)

  ghost predicate ImageOk(im: Image) {
    && SourceOk(im.prog, im.np, im.nl, im.g) && |im.ts| == |im.prog|
    && forall i :: 0 <= i < |im.prog| ==> TableOk(im.prog, i, im.np, im.nl, im.g, im.ts[i])
  }

  /** Every well-formed program can be compiled. */
  lemma {:induction false} TablesExist(prog: seq<Fn>, np: nat, nl: nat, g: Types, n: nat) returns (ts: seq<Types>)
    requires SourceOk(prog, np, nl, g) && n <= |prog|
    ensures |ts| == n && forall i :: 0 <= i < n ==> TableOk(prog, i, np, nl, g, ts[i])
  {
    hide SourceOk, TableOk;
    ts := [];
    if n > 0 {
      ts := TablesExist(prog, np, nl, g, n - 1);
      var t := TableExists(prog, n - 1, np, nl, g);
      ts := ts + [t];
    }
  }

  function FunAt(im: Image, i: nat): Fun
    requires i < |im.prog|
  {
    FunOf(im.prog, i, im.np, im.nl)
  }

  function PlacesAt(im: Image, i: nat): X.Places
    requires i < |im.prog| == |im.ts|
  {
    X.Places(LaidOut(im.ts[i], FunAt(im, i)).off, im.data)
  }

  function Statics(im: Image): X.Places {
    X.Places(map[], im.data)
  }

  /** The state a call of this code returns in, if it ever returns to its caller. */
  ghost function MachineCall(text: seq<X.AInstr>, p: X.Places, m: X.Mach, ra: X.Word, calls: X.Calls): Option<X.Mach> {
    var start := X.Running(0, Called(m, ra));
    if exists n: nat :: ReturnsTo(X.ASteps(text, start, n, p, calls), ra) then
      var n: nat :| ReturnsTo(X.ASteps(text, start, n, p, calls), ra);
      Some(X.ASteps(text, start, n, p, calls).m)
    else None
  }

  predicate ReturnsTo(a: X.AState, ra: X.Word) {
    a.Returned? && a.to == ra
  }

  lemma MachineCallIs(text: seq<X.AInstr>, p: X.Places, m: X.Mach, ra: X.Word, calls: X.Calls, n: nat)
    requires ReturnsTo(X.ASteps(text, X.Running(0, Called(m, ra)), n, p, calls), ra)
    ensures MachineCall(text, p, m, ra, calls) == Some(X.ASteps(text, X.Running(0, Called(m, ra)), n, p, calls).m)
  {
    hide X.ASteps, Called;
    var start := X.Running(0, Called(m, ra));
    var k: nat :| ReturnsTo(X.ASteps(text, start, k, p, calls), ra)
      && MachineCall(text, p, m, ra, calls) == Some(X.ASteps(text, start, k, p, calls).m);
    var lo, hi := if k < n then k else n, if k < n then n else k;
    var mid := X.ASteps(text, start, lo, p, calls);
    Backend.AChain(text, start, lo, mid, hi - lo, p, calls);
    MachineStopped(text, mid, hi - lo, p, calls);
  }

  /** Return addresses, whatever they are. */
  type Returns = (nat, X.Mach) -> X.Word

  /** Calls of the compiled program, nested at most 'd' deep; other functions are as in 'ext'. */
  ghost function AsmCalls(im: Image, ra: Returns, ext: X.Calls, d: nat): X.Calls
    requires |im.ts| == |im.prog|
    decreases d
  {
    (fn: nat, m: X.Mach) =>
      var i := IndexOf(im.prog, fn);
      if i.None? then ext(fn, m)
      else if d == 0 then None
      else
        MachineCall(TextOf(im.ts[i.value], FunAt(im, i.value)), PlacesAt(im, i.value), m, ra(fn, m), AsmCalls(im, ra, ext, d - 1))
  }

  /** Lowest stack address a call may use when calls nest 'd' deep and each needs 'need' bytes. */
  function Lowest(base: int, need: nat, d: nat): int {
    if d == 0 then base else Lowest(base, need, d - 1) + need
  }

  lemma {:induction false} LowestMono(base: int, need: nat, d: nat)
    ensures base <= Lowest(base, need, d)
  {
    if d > 0 { LowestMono(base, need, d - 1); }
  }

  /** The stack any function of the program needs for one activation is at most 'need'. */
  ghost predicate Enough(im: Image, need: nat) {
    |im.ts| == |im.prog| && forall i :: 0 <= i < |im.prog| ==> Need(im.ts[i], FunAt(im, i)) <= need
  }

  /** The convention speaks of static objects and signatures only. */
  lemma AbiSame(t: Types, p: X.Places, t2: Types, p2: X.Places, lim: int, calls: X.Calls, callees: Callees)
    requires Abi(t, p, lim, calls, callees) && t2.statics == t.statics && t2.params == t.params && t2.ret == t.ret && p2.data == p.data
    ensures Abi(t2, p2, lim, calls, callees)
  {
    hide ArgsPassed, StaticsHold, KeptAbove, Wrap;
    forall fn, m, xs, st ensures AbiAt(t2, p2, lim, calls, callees, fn, m, xs, st) {
      assert AbiAt(t, p, lim, calls, callees, fn, m, xs, st);
      if CallReady(t2, p2, lim, fn, m, xs, st) && callees(fn, xs, st, m.trace).Some? {
        SameStatics(t2, p2, t, p, st, m.mem);
        var r := callees(fn, xs, st, m.trace).value;
        SameStatics(t, p, t2, p2, r.statics, calls(fn, m).value.mem);
      }
    }
  }

  lemma DoneSame(t: Types, p: X.Places, t2: Types, p2: X.Places, fn: nat, m: X.Mach, n: nat, r: CallResult, m': X.Mach)
    requires fn in t.ret && CallDone(t, p, fn, m, n, r, m') && t2.statics == t.statics && t2.ret == t.ret && p2.data == p.data
    ensures CallDone(t2, p2, fn, m, n, r, m')
  {
    hide StaticsHold, KeptAbove, Wrap;
    SameStatics(t, p, t2, p2, r.statics, m'.mem);
  }

  lemma InvokedFrom(im: Image, i: nat, lim: int, need: nat, m: X.Mach, xs: seq<int>, st: map<nat, int>)
    requires ImageOk(im) && i < |im.prog| && Enough(im, need) && 0 <= lim && DataApart(im.g, im.data, lim)
    requires CallReady(im.g, Statics(im), lim + need, im.prog[i].id, m, xs, st)
    ensures var t, fn := im.ts[i], im.prog[i].id;
            && fn in t.params && fn in t.ret && t.ret[fn] == im.prog[i].ret
            && Invoked(t, im.data, lim, FunAt(im, i), m, xs, t.params[fn], st)
  {
    hide FunOk, ProgramOk, StaticsHold, ArgsPassed, StmtTyped, CodeOf, LayoutOf, DataApart;
    var t, f := im.ts[i], im.prog[i];
    assert TableOk(im.prog, i, im.np, im.nl, im.g, t) && FnTyped(im.g, f);
    SameStatics(im.g, Statics(im), t, Statics(im), st, m.mem);
    DataSame(im.g, t, im.data, lim);
    forall k | 0 <= k < |f.params| ensures TyOf(FunAt(im, i).params[k]) == t.params[f.id][k] {
      assert ParamTyped(im.g, f.params[k], im.g.params[f.id][k]);
    }
    ArgCount(m, t.params[f.id], xs);
  }

  lemma ArgCount(m: X.Mach, ts: seq<Ty>, xs: seq<int>)
    requires ArgsPassed(m, ts, xs)
    ensures |ts| == |xs|
  {
  }

  lemma DataSame(g: Types, t: Types, data: map<nat, int>, lim: int)
    requires DataApart(g, data, lim) && t.statics == g.statics
    ensures DataApart(t, data, lim)
  {
  }

  lemma ParamsAutomatic(g: Types, f: Fn, k: nat)
    requires FnTyped(g, f) && k < |f.params|
    ensures !f.params[k].isStatic
  {
    hide StmtTyped;
    assert ParamTyped(g, f.params[k], g.params[f.id][k]);
  }

  /** The body starts with the parameters bound and other objects as found. */
  lemma StartIs(im: Image, i: nat, lim: int, m: X.Mach, ra: X.Word, xs: seq<int>, st: map<nat, int>)
    requires ImageOk(im) && i < |im.prog| && |xs| == |im.prog[i].params|
    ensures var u := UnitFor(im.ts[i], im.data, lim, FunAt(im, i), m, ra);
            StartStore(u, FunAt(im, i), m, xs, st)
            == Store(Bind(im.prog[i].params, xs, Found(u.f.t, u.f.places, u.f.bp, u.f.entry)), st, m.trace)
  {
    hide ProgramOk, FunOk, Found, LayoutOf, CodeOf, Saved, StmtTyped, TableOk;
    var f := im.prog[i];
    var u := UnitFor(im.ts[i], im.data, lim, FunAt(im, i), m, ra);
    assert FnTyped(im.g, f);
    forall k | 0 <= k < |f.params| ensures !f.params[k].isStatic { ParamsAutomatic(im.g, f, k); }
    ReceivedIsBind(f.params, xs, |xs|, Store(Found(u.f.t, u.f.places, u.f.bp, u.f.entry), st, m.trace));
    assert f.params[..|xs|] == f.params && xs[..|xs|] == xs;
  }

  lemma MachineRan(code: seq<Instr>, s: Store, callees: Callees) returns (n: nat)
    requires MachineResult(code, s, callees).Some?
    ensures IrSteps(code, At(0, s), n, callees).Done?
    ensures var end := IrSteps(code, At(0, s), n, callees);
            MachineResult(code, s, callees) == Some(CallResult(end.v, end.st.statics, end.st.trace))
  {
    hide IrSteps;
    n :| IrSteps(code, At(0, s), n, callees).Done?
      && MachineResult(code, s, callees) ==
         Some(CallResult(IrSteps(code, At(0, s), n, callees).v, IrSteps(code, At(0, s), n, callees).st.statics,
                         IrSteps(code, At(0, s), n, callees).st.trace));
  }

  /** One compiled call, given that the calls it makes keep the convention. */
  lemma CallHolds(im: Image, i: nat, lim: int, need: nat, m: X.Mach, ra: X.Word, xs: seq<int>, st: map<nat, int>,
                  calls: X.Calls, callees: Callees)
    requires ImageOk(im) && i < |im.prog| && Enough(im, need) && 0 <= lim && DataApart(im.g, im.data, lim)
    requires CallReady(im.g, Statics(im), lim + need, im.prog[i].id, m, xs, st) && Abi(im.g, Statics(im), lim, calls, callees)
    requires Determined(MachineRuns(FunAt(im, i).code, im.prog[i].params, xs, st, m.trace, callees)).Some?
    ensures im.prog[i].id in im.g.ret
    ensures var r := Determined(MachineRuns(FunAt(im, i).code, im.prog[i].params, xs, st, m.trace, callees)).value;
            var end := MachineCall(TextOf(im.ts[i], FunAt(im, i)), PlacesAt(im, i), m, ra, calls);
            end.Some? && CallDone(im.g, Statics(im), im.prog[i].id, m, |xs|, r, end.value)
  {
    hide ImageOk, Enough, DataApart, CallReady, Abi, Invoked, TextOf, StartStore, CodeOf, X.ASteps, IrSteps, CallDone,
         Determined, MachineRuns, MachineCall, LayoutOf, UnitFor;
    Lengths(im);
    var t, f, h := im.ts[i], im.prog[i], FunAt(im, i);
    InvokedFrom(im, i, lim, need, m, xs, st);
    Arity(t, im.data, lim, h, m, xs, t.params[f.id], st);
    var k, r := BodyRan(im, i, lim, m, ra, xs, st, callees);
    TableShares(im, i);
    var u := UnitFor(t, im.data, lim, h, m, ra);
    UnitPlaces(im, i, lim, m, ra);
    AbiSame(im.g, Statics(im), u.f.t, u.f.places, lim, calls, callees);
    var n, m' := CalleeReturns(t, im.data, lim, h, f.id, m, ra, xs, st, k, calls, callees);
    MachineCallIs(TextOf(t, h), u.f.places, m, ra, calls, n);
    DoneSame(t, Statics(im), im.g, Statics(im), f.id, m, |xs|, r, m');
  }

  lemma UnitPlaces(im: Image, i: nat, lim: int, m: X.Mach, ra: X.Word)
    requires ImageOk(im) && i < |im.prog|
    ensures |im.ts| == |im.prog|
    ensures var t, f := im.ts[i], UnitFor(im.ts[i], im.data, lim, FunAt(im, i), m, ra).f;
            f.places == PlacesAt(im, i) && f.t == Restrict(t, LaidOut(t, FunAt(im, i)).off)
  {
    hide SourceOk, TableOk, LayoutOf, Saved, Restrict, CodeOf;
  }

  /** The body runs to the determined result from whatever its slots hold. */
  lemma BodyRan(im: Image, i: nat, lim: int, m: X.Mach, ra: X.Word, xs: seq<int>, st: map<nat, int>, callees: Callees)
    returns (k: nat, r: CallResult)
    requires ImageOk(im) && i < |im.prog| && |xs| == |FunAt(im, i).params|
    requires Determined(MachineRuns(FunAt(im, i).code, im.prog[i].params, xs, st, m.trace, callees)).Some?
    ensures var h := FunAt(im, i);
            var end := IrSteps(h.code, At(0, StartStore(UnitFor(im.ts[i], im.data, lim, h, m, ra), h, m, xs, st)), k, callees);
            && end.Done? && r == CallResult(end.v, end.st.statics, end.st.trace)
            && Determined(MachineRuns(h.code, im.prog[i].params, xs, st, m.trace, callees)) == Some(r)
  {
    hide ImageOk, StartStore, CodeOf, IrSteps, Bind, MachineResult, UnitFor, Found;
    Lengths(im);
    var f, h := im.prog[i], FunAt(im, i);
    var u := UnitFor(im.ts[i], im.data, lim, h, m, ra);
    StartIs(im, i, lim, m, ra, xs, st);
    var run := MachineRuns(h.code, f.params, xs, st, m.trace, callees);
    var found := Found(u.f.t, u.f.places, u.f.bp, u.f.entry);
    assert run(found) == run(map[]) == Determined(run);
    k := MachineRan(h.code, StartStore(u, h, m, xs, st), callees);
    r := Determined(run).value;
  }

  lemma Lengths(im: Image)
    requires ImageOk(im)
    ensures |im.ts| == |im.prog|
  {
    hide SourceOk, TableOk;
  }

  lemma TableShares(im: Image, i: nat)
    requires ImageOk(im) && i < |im.prog|
    ensures var t := Restrict(im.ts[i], LaidOut(im.ts[i], FunAt(im, i)).off);
            && t.statics == im.g.statics && t.params == im.g.params && t.ret == im.g.ret
            && im.ts[i].statics == im.g.statics && im.ts[i].params == im.g.params && im.ts[i].ret == im.g.ret
  {
    hide FunOk, SourceOk, LayoutOf;
    assert TableOk(im.prog, i, im.np, im.nl, im.g, im.ts[i]);
  }

  lemma {:induction false} FnIndex(prog: seq<Fn>, fn: nat)
    requires IndexOf(prog, fn).Some?
    ensures prog[IndexOf(prog, fn).value].id == fn
  {
    if prog[0].id != fn { FnIndex(prog[1..], fn); }
  }

  lemma ReadyLower(t: Types, p: X.Places, lim: int, lim': int, fn: nat, m: X.Mach, xs: seq<int>, st: map<nat, int>)
    requires CallReady(t, p, lim', fn, m, xs, st) && lim <= lim'
    ensures CallReady(t, p, lim, fn, m, xs, st)
  {
    hide ArgsPassed, StaticsHold;
  }

  /** Every function of the compiled program keeps the calling convention, however deep the calls. */
  lemma {:induction false} AbiHolds(im: Image, ra: Returns, ext: X.Calls, out: Callees, base: nat, need: nat, d: nat)
    requires ImageOk(im) && Enough(im, need) && DataApart(im.g, im.data, base) && Abi(im.g, Statics(im), base, ext, out)
    ensures Abi(im.g, Statics(im), Lowest(base, need, d), AsmCalls(im, ra, ext, d), TargetCallees(im.prog, im.np, im.nl, out, d))
    decreases d
  {
    hide ImageOk, Enough, DataApart, CallReady, CallDone, TextOf, Determined, MachineCall, LayoutOf, CodeOf, PlacesAt;
    Lengths(im);
    var calls, callees := AsmCalls(im, ra, ext, d), TargetCallees(im.prog, im.np, im.nl, out, d);
    if d > 0 { AbiHolds(im, ra, ext, out, base, need, d - 1); }
    LowestMono(base, need, d);
    forall fn, m, xs, st ensures AbiAt(im.g, Statics(im), Lowest(base, need, d), calls, callees, fn, m, xs, st) {
      var i := IndexOf(im.prog, fn);
      if CallReady(im.g, Statics(im), Lowest(base, need, d), fn, m, xs, st) && callees(fn, xs, st, m.trace).Some? {
        ReadyLower(im.g, Statics(im), base, Lowest(base, need, d), fn, m, xs, st);
        if i.None? {
          assert AbiAt(im.g, Statics(im), base, ext, out, fn, m, xs, st);
        } else {
          FnIndex(im.prog, fn);
          LowestMono(base, need, d - 1);
          DataLower(im.g, im.data, base, Lowest(base, need, d - 1));
          CallHolds(im, i.value, Lowest(base, need, d - 1), need, m, ra(fn, m), xs, st,
                    AsmCalls(im, ra, ext, d - 1), TargetCallees(im.prog, im.np, im.nl, out, d - 1));
        }
      }
    }
  }

  lemma DataLower(g: Types, data: map<nat, int>, lim: int, lim': int)
    requires DataApart(g, data, lim) && lim <= lim'
    ensures DataApart(g, data, lim')
  {
  }

  /** The compiler is correct: whenever a call of a source function returns, under C's value semantics
      ('early') and whatever uninitialised objects hold, the compiled call returns too, with the same result,
      the same static objects and the same outside calls, and with the stack and frame pointers and
      the caller's memory as they were. */
  lemma CompilerCorrect(im: Image, ra: Returns, ext: X.Calls, out: Callees, early: bool, base: nat, need: nat, d: nat,
                        fn: nat, m: X.Mach, xs: seq<int>, st: map<nat, int>)
    requires ImageOk(im) && Enough(im, need) && DataApart(im.g, im.data, base) && Abi(im.g, Statics(im), base, ext, out)
    requires CallReady(im.g, Statics(im), Lowest(base, need, d), fn, m, xs, st)
    requires InOrder(im.prog, early) && SourceCallees(im.prog, out, early, d)(fn, xs, st, m.trace).Some?
    ensures fn in im.g.ret && AsmCalls(im, ra, ext, d)(fn, m).Some?
    ensures CallDone(im.g, Statics(im), fn, m, |xs|, SourceCallees(im.prog, out, early, d)(fn, xs, st, m.trace).value,
                     AsmCalls(im, ra, ext, d)(fn, m).value)
  {
    hide Enough, DataApart, CallDone, SourceCallees, TargetCallees, AsmCalls, TableOk, ProgramOk, StaticsHold, ArgsPassed;
    AbiHolds(im, ra, ext, out, base, need, d);
    ProgramCorrect(im.prog, im.np, im.nl, out, early, d);
    var callees := TargetCallees(im.prog, im.np, im.nl, out, d);
    assert callees(fn, xs, st, m.trace) == SourceCallees(im.prog, out, early, d)(fn, xs, st, m.trace);
    assert AbiAt(im.g, Statics(im), Lowest(base, need, d), AsmCalls(im, ra, ext, d), callees, fn, m, xs, st);
  }
}
