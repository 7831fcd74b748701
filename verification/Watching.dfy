/** Calls that a run is watched for: an expression that reaches one has code that reaches the same call. */
module Watching {
  import opened Ast
  import opened Semantics
  import opened Ir
  import opened IrGen
  import opened ExprProof

  /** Calls to watch for: those that do not end, say, or one outside call with given arguments and history. */
  type Watch = (nat, seq<int>, map<nat, int>, seq<Event>) -> bool

  predicate Met(s: Store, fn: nat, args: seq<int>, h: Watch) {
    h(fn, args, s.statics, s.trace)
  }

  /** Evaluation reaches a watched call. */
  predicate ExprMeets(e: Expr, m: Store, early: bool, callees: Callees, h: Watch)
    decreases e, 1
  {
    match e
    case Unary(_, a, _) => ExprMeets(a, m, early, callees, h)
    case Binary(op, a, b, _) =>
      || ExprMeets(a, m, early, callees, h)
      || (var l := Eval(a, m, early, callees);
          l.Ok? && !(IsLogical(op) && (Read(l.o, l.st) == 0) == op.LogAnd?) && ExprMeets(b, l.st, early, callees, h))
    case Assign(_, a) => ExprMeets(a, m, early, callees, h)
    case Compound(_, _, _, a) => ExprMeets(a, m, early, callees, h)
    case Conditional(c, a, b, _) =>
      || ExprMeets(c, m, early, callees, h)
      || (var r := Eval(c, m, early, callees);
          r.Ok? && if Read(r.o, r.st) != 0 then ExprMeets(a, r.st, early, callees, h) else ExprMeets(b, r.st, early, callees, h))
    case Call(fn, _, args, _) =>
      || ArgsMeet(args, m, early, callees, h)
      || (var r := EvalArgs(args, m, early, callees); r.OkArgs? && Met(r.st, fn, ReadAll(r.os, r.st), h))
    case Cast(_, a) => ExprMeets(a, m, early, callees, h)
    case _ => false
  }

  predicate ArgsMeet(args: seq<Expr>, m: Store, early: bool, callees: Callees, h: Watch)
    decreases args, 0
  {
    args != [] &&
    (|| ExprMeets(args[0], m, early, callees, h)
     || (var r := Eval(args[0], m, early, callees); r.Ok? && ArgsMeet(args[1..], r.st, early, callees, h)))
  }

  /** Watched calls have no outcome. */
  ghost predicate Silent(h: Watch, callees: Callees) {
    forall fn, args, st, tr :: h(fn, args, st, tr) ==> callees(fn, args, st, tr).None?
  }

  /** Evaluation that reaches one has no value. */
  lemma {:induction false} MeetStuck(e: Expr, m: Store, early: bool, callees: Callees, h: Watch)
    requires ExprMeets(e, m, early, callees, h) && Silent(h, callees)
    ensures Eval(e, m, early, callees).Stuck?
    decreases e, 1
  {
    hide UnaryValue, BinaryValue, ReadAll;
    match e
    case Unary(_, a, _) => MeetStuck(a, m, early, callees, h);
    case Binary(_, a, b, _) =>
      if ExprMeets(a, m, early, callees, h) { MeetStuck(a, m, early, callees, h); }
      else { MeetStuck(b, Eval(a, m, early, callees).st, early, callees, h); }
    case Assign(_, a) => MeetStuck(a, m, early, callees, h);
    case Compound(_, _, _, a) => MeetStuck(a, m, early, callees, h);
    case Conditional(c, a, b, _) =>
      if ExprMeets(c, m, early, callees, h) {
        MeetStuck(c, m, early, callees, h);
      } else {
        var r := Eval(c, m, early, callees);
        if Read(r.o, r.st) != 0 { MeetStuck(a, r.st, early, callees, h); } else { MeetStuck(b, r.st, early, callees, h); }
      }
    case Call(_, _, args, _) =>
      if ArgsMeet(args, m, early, callees, h) { ArgsMeetStuck(args, m, early, callees, h); }
    case Cast(_, a) => MeetStuck(a, m, early, callees, h);
  }

  lemma {:induction false} ArgsMeetStuck(args: seq<Expr>, m: Store, early: bool, callees: Callees, h: Watch)
    requires ArgsMeet(args, m, early, callees, h) && Silent(h, callees)
    ensures EvalArgs(args, m, early, callees).StuckArgs?
    decreases args, 0
  {
    hide Eval, ExprMeets;
    if ExprMeets(args[0], m, early, callees, h) { MeetStuck(args[0], m, early, callees, h); }
    else { ArgsMeetStuck(args[1..], Eval(args[0], m, early, callees).st, early, callees, h); }
  }

  /** The machine stands at a watched call. */
  ghost predicate AtMet(code: seq<Instr>, ir: IrState, h: Watch) {
    ir.At? && ir.pc < |code| && code[ir.pc].ICall? && Met(ir.s, code[ir.pc].fn, ReadVals(code[ir.pc].args, ir.s), h)
  }

  ghost predicate Reaches(c: Ctx, p: nat, s: Store, n: nat, h: Watch) {
    AtMet(c.code, Go(c, p, s, n), h)
  }

  lemma ReachesLater(c: Ctx, p: nat, s: Store, n: nat, q: nat, s': Store, k: nat, h: Watch)
    requires Go(c, p, s, n) == At(q, s') && Reaches(c, q, s', k, h)
    ensures Reaches(c, p, s, n + k, h)
  {
    hide IrSteps;
    var end := Go(c, q, s', k);
    GoOn(c, p, s, n, q, s', k, end.pc, end.s);
  }

  /** Code of an expression that reaches such a call reaches it too, with the same arguments, static objects
      and outside calls. */
  lemma {:induction false} ExprReaches(c: Ctx, e: Expr, np: nat, nl: nat, p: nat, m: Store, s: Store, h: Watch) returns (n: nat)
    requires ValidCtx(c) && Placed(c, e, np, nl, p) && Agree(m, s, c.bound) && ExprMeets(e, m, false, c.src, h)
    ensures Reaches(c, p, s, n, h)
    decreases e, 1
  {
    hide ValidCtx, CodeAt, Agree, Reaches, Eval, EvalArgs;
    match e
    case Unary(op, a, t) =>
      var g := GenExpr(a, np, nl);
      if !op.Plus? { CodeSplit(c.code, p, g.code, [IUnary(op, g.val, Pseudo(t, g.np))]); }
      n := ExprReaches(c, a, np, nl, p, m, s, h);
    case Binary(op, _, _, _) =>
      if IsLogical(op) { n := LogicalReaches(c, e, np, nl, p, m, s, h); } else { n := BinaryReaches(c, e, np, nl, p, m, s, h); }
    case Assign(sym, a) =>
      var g := GenExpr(a, np, nl);
      CodeSplit(c.code, p, g.code, [ICopy(g.val, Object(sym))]);
      n := ExprReaches(c, a, np, nl, p, m, s, h);
    case Compound(_, _, _, a) =>
      CompoundParts(c, e, np, nl, p);
      n := ExprReaches(c, a, np, nl, p, m, s, h);
    case Conditional(_, _, _, _) => n := ConditionalReaches(c, e, np, nl, p, m, s, h);
    case Call(_, _, _, _) => n := CallReaches(c, e, np, nl, p, m, s, h);
    case Cast(t, a) =>
      var g := GenExpr(a, np, nl);
      if !t.Void? { CodeSplit(c.code, p, g.code, GenConvert(g.val, t, g.np, g.nl).code); }
      n := ExprReaches(c, a, np, nl, p, m, s, h);
  }

  lemma {:induction false} BinaryReaches(c: Ctx, e: Expr, np: nat, nl: nat, p: nat, m: Store, s: Store, h: Watch) returns (n: nat)
    requires e.Binary? && !IsLogical(e.bop)
    requires ValidCtx(c) && Placed(c, e, np, nl, p) && Agree(m, s, c.bound) && ExprMeets(e, m, false, c.src, h)
    ensures Reaches(c, p, s, n, h)
    decreases e, 0
  {
    hide ValidCtx, CodeAt, Agree, Reaches, Eval, GenExpr, WellTyped, VarsBelow, IrSteps, Same;
    BinaryParts(c, e, np, nl, p);
    var l := GenExpr(e.left, np, nl);
    if ExprMeets(e.left, m, false, c.src, h) {
      n := ExprReaches(c, e.left, np, nl, p, m, s, h);
    } else {
      var n1, s1 := ExprSim(c, e.left, np, nl, p, m, s);
      var a := Eval(e.left, m, false, c.src);
      var k := ExprReaches(c, e.right, l.np, l.nl, p + |l.code|, a.st, s1, h);
      ReachesLater(c, p, s, n1, p + |l.code|, s1, k, h);
      n := n1 + k;
    }
  }

  lemma {:induction false} LogicalReaches(c: Ctx, e: Expr, np: nat, nl: nat, p: nat, m: Store, s: Store, h: Watch) returns (n: nat)
    requires e.Binary? && IsLogical(e.bop)
    requires ValidCtx(c) && Placed(c, e, np, nl, p) && Agree(m, s, c.bound) && ExprMeets(e, m, false, c.src, h)
    ensures Reaches(c, p, s, n, h)
    decreases e, 0
  {
    hide ValidCtx, CodeAt, Agree, Reaches, Eval, GenExpr, WellTyped, VarsBelow, IrSteps, Same, Lookup;
    LogicalParts(c, e, np, nl, p);
    var l := GenExpr(e.left, np + 1, nl + 2);
    if ExprMeets(e.left, m, false, c.src, h) {
      n := ExprReaches(c, e.left, np + 1, nl + 2, p, m, s, h);
    } else {
      var n1, s1 := ExprSim(c, e.left, np + 1, nl + 2, p, m, s);
      var a := Eval(e.left, m, false, c.src);
      var p1 := p + |l.code|;
      ReadHolds(l.val, a.o, TypeOf(e.left), a.st, s1, np + 1, l.np, c.bound);
      GoBranch(c, p, s, n1, p1, s1);
      var k := ExprReaches(c, e.right, l.np, l.nl, p1 + 1, a.st, s1, h);
      ReachesLater(c, p, s, n1 + 1, p1 + 1, s1, k, h);
      n := n1 + 1 + k;
    }
  }

  lemma {:induction false} ConditionalReaches(c: Ctx, e: Expr, np: nat, nl: nat, p: nat, m: Store, s: Store, h: Watch) returns (n: nat)
    requires e.Conditional?
    requires ValidCtx(c) && Placed(c, e, np, nl, p) && Agree(m, s, c.bound) && ExprMeets(e, m, false, c.src, h)
    ensures Reaches(c, p, s, n, h)
    decreases e, 0
  {
    hide ValidCtx, CodeAt, Agree, Reaches, Eval, GenExpr, WellTyped, VarsBelow, IrSteps, Same, Lookup, CopyTo;
    ConditionalParts(c, e, np, nl, p);
    var dst := CondDst(e, np);
    var gc := GenExpr(e.cond, CondNp(e, np), nl + 2);
    var ga := GenExpr(e.thn, gc.np, gc.nl);
    var p1 := p + |gc.code|;
    var p3 := p1 + 1 + |ga.code| + |CopyTo(ga.val, dst)|;
    if ExprMeets(e.cond, m, false, c.src, h) {
      n := ExprReaches(c, e.cond, CondNp(e, np), nl + 2, p, m, s, h);
    } else {
      LabelAt(c, p3 + 1, Temp(nl));
      var n1, s1 := ExprSim(c, e.cond, CondNp(e, np), nl + 2, p, m, s);
      var r := Eval(e.cond, m, false, c.src);
      ReadHolds(gc.val, r.o, TypeOf(e.cond), r.st, s1, CondNp(e, np), gc.np, c.bound);
      GoBranch(c, p, s, n1, p1, s1);
      if Read(r.o, r.st) != 0 {
        var k := ExprReaches(c, e.thn, gc.np, gc.nl, p1 + 1, r.st, s1, h);
        ReachesLater(c, p, s, n1 + 1, p1 + 1, s1, k, h);
        n := n1 + 1 + k;
      } else {
        GoLabel(c, p, s, n1 + 1, p3 + 1, s1);
        var k := ExprReaches(c, e.els, ga.np, ga.nl, p3 + 2, r.st, s1, h);
        ReachesLater(c, p, s, n1 + 2, p3 + 2, s1, k, h);
        n := n1 + 2 + k;
      }
    }
  }

  lemma {:induction false} CallReaches(c: Ctx, e: Expr, np: nat, nl: nat, p: nat, m: Store, s: Store, h: Watch) returns (n: nat)
    requires e.Call?
    requires ValidCtx(c) && Placed(c, e, np, nl, p) && Agree(m, s, c.bound) && ExprMeets(e, m, false, c.src, h)
    ensures Reaches(c, p, s, n, h)
    decreases e, 0
  {
    hide ValidCtx, CodeAt, Eval, EvalArgs, GenExpr, GenArgs, WellTyped, VarsBelow, IrSteps, Same, HoldsAll, ReadAll;
    CallParts(c, e, np, nl, p);
    var g := GenArgs(e.args, np, nl);
    if ArgsMeet(e.args, m, false, c.src, h) {
      n := ArgsReach(c, e.args, e.params, np, nl, p, m, s, h);
    } else {
      var s1;
      n, s1 := ArgsSim(c, e.args, e.params, np, nl, p, m, s);
      var r := EvalArgs(e.args, m, false, c.src);
      ReadHoldsAll(g.vals, r.os, e.params, r.st, s1, np, g.np, c.bound);
    }
  }

  lemma {:induction false} ArgsReach(c: Ctx, args: seq<Expr>, params: seq<Ty>, np: nat, nl: nat, p: nat, m: Store, s: Store, h: Watch)
    returns (n: nat)
    requires ValidCtx(c) && Agree(m, s, c.bound) && c.bound <= np
    requires WellTypedArgs(args, params) && ArgsBelow(args, c.bound) && CodeAt(c.code, p, GenArgs(args, np, nl).code)
    requires ArgsMeet(args, m, false, c.src, h)
    ensures Reaches(c, p, s, n, h)
    decreases args, 0
  {
    hide ValidCtx, CodeAt, Agree, Reaches, Eval, GenExpr, WellTyped, VarsBelow, IrSteps, Same;
    var g := GenExpr(args[0], np, nl);
    var q := GenArgs(args[1..], g.np, g.nl);
    CodeSplit(c.code, p, g.code, q.code);
    GenMono(args[0], np, nl);
    if ExprMeets(args[0], m, false, c.src, h) {
      n := ExprReaches(c, args[0], np, nl, p, m, s, h);
    } else {
      var n1, s1 := ExprSim(c, args[0], np, nl, p, m, s);
      var a := Eval(args[0], m, false, c.src);
      var k := ArgsReach(c, args[1..], params[1..], g.np, g.nl, p + |g.code|, a.st, s1, h);
      ReachesLater(c, p, s, n1, p + |g.code|, s1, k, h);
      n := n1 + k;
    }
  }
}
