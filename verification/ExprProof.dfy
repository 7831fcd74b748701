/** Expression code computes what the expression means: forward simulation from evaluation to
    the program-counter machine. */
module ExprProof {
  import opened Arith
  import opened Ast
  import opened Semantics
  import opened Ir
  import opened IrGen

  /** Automatic objects of 'e' are numbered below 'bound', where temporaries begin. */
  predicate Below(s: Symbol, bound: nat) {
    s.isStatic || s.id < bound
  }

  predicate VarsBelow(e: Expr, bound: nat)
    decreases e, 1
  {
    match e
    case IntConst(_) => true
    case LongConst(_) => true
    case Ident(s) => Below(s, bound)
    case Unary(_, a, _) => VarsBelow(a, bound)
    case Binary(_, a, b, _) => VarsBelow(a, bound) && VarsBelow(b, bound)
    case IncDec(_, _, s) => Below(s, bound)
    case Assign(s, a) => Below(s, bound) && VarsBelow(a, bound)
    case Compound(_, _, s, a) => Below(s, bound) && VarsBelow(a, bound)
    case Conditional(c, a, b, _) => VarsBelow(c, bound) && VarsBelow(a, bound) && VarsBelow(b, bound)
    case Call(_, _, args, _) => ArgsBelow(args, bound)
    case Cast(_, a) => VarsBelow(a, bound)
  }

  predicate ArgsBelow(args: seq<Expr>, bound: nat)
    decreases args, 0
  {
    args == [] || (VarsBelow(args[0], bound) && ArgsBelow(args[1..], bound))
  }

  /** Source and machine stores hold the same objects; the machine has temporaries besides. */
  ghost predicate Agree(m: Store, s: Store, bound: nat) {
    && m.statics == s.statics && m.trace == s.trace
    && forall id: nat :: id < bound ==> Local(m, id) == Local(s, id)
  }

  /** Temporaries in '[lo, hi)' are unchanged. */
  ghost predicate Same(s: Store, s': Store, lo: nat, hi: nat) {
    forall id: nat :: lo <= id < hi ==> Local(s, id) == Local(s', id)
  }

  /** The callees the machine sees answer at least the calls the source program's callees answer. */
  ghost predicate Refines(f: Callees, g: Callees) {
    forall fn, args, st, tr :: f(fn, args, st, tr).Some? ==> g(fn, args, st, tr) == f(fn, args, st, tr)
  }

  /** Machine operand 'v' stands for evaluated operand 'o': the same object, or the value itself
      in a constant or a temporary of '[lo, hi)'. */
  ghost predicate Holds(v: Value, o: Operand, t: Ty, s: Store, lo: nat, hi: nat, bound: nat) {
    && TyOf(v) == t
    && match o
       case Var(sym) => v == Object(sym) && Below(sym, bound)
       case Val(x) => ReadVal(v, s) == x && !v.StaticObj? && (v.Pseudo? ==> lo <= v.id < hi)
  }

  lemma ReadHolds(v: Value, o: Operand, t: Ty, m: Store, s: Store, lo: nat, hi: nat, bound: nat)
    requires Holds(v, o, t, s, lo, hi, bound) && Agree(m, s, bound)
    ensures ReadVal(v, s) == Read(o, m)
  {
  }

  lemma HoldsStable(v: Value, o: Operand, t: Ty, s: Store, s': Store, lo: nat, hi: nat, hi': nat, bound: nat)
    requires Holds(v, o, t, s, lo, hi, bound) && Same(s, s', bound, hi) && bound <= lo && hi <= hi'
    ensures Holds(v, o, t, s', lo, hi', bound)
  {
  }

  ghost predicate HoldsAll(vs: seq<Value>, os: seq<Operand>, ts: seq<Ty>, s: Store, lo: nat, hi: nat, bound: nat) {
    && |vs| == |os| == |ts|
    && (vs == [] || (Holds(vs[0], os[0], ts[0], s, lo, hi, bound)
                     && HoldsAll(vs[1..], os[1..], ts[1..], s, lo, hi, bound)))
  }

  lemma {:induction false} ReadHoldsAll(vs: seq<Value>, os: seq<Operand>, ts: seq<Ty>, m: Store, s: Store, lo: nat, hi: nat, bound: nat)
    requires HoldsAll(vs, os, ts, s, lo, hi, bound) && Agree(m, s, bound)
    ensures ReadVals(vs, s) == ReadAll(os, m)
  {
    if vs != [] {
      ReadHolds(vs[0], os[0], ts[0], m, s, lo, hi, bound);
      ReadHoldsAll(vs[1..], os[1..], ts[1..], m, s, lo, hi, bound);
    }
  }

  lemma {:induction false} HoldsAllWiden(vs: seq<Value>, os: seq<Operand>, ts: seq<Ty>, s: Store, lo: nat, lo': nat, hi: nat, bound: nat)
    requires HoldsAll(vs, os, ts, s, lo, hi, bound) && lo' <= lo
    ensures HoldsAll(vs, os, ts, s, lo', hi, bound)
  {
    if vs != [] { HoldsAllWiden(vs[1..], os[1..], ts[1..], s, lo, lo', hi, bound); }
  }

  lemma WriteTemp(m: Store, s: Store, t: Ty, id: nat, x: int, bound: nat)
    requires Agree(m, s, bound) && bound <= id
    ensures Agree(m, WriteVal(Pseudo(t, id), x, s), bound)
    ensures Same(s, WriteVal(Pseudo(t, id), x, s), bound, id)
  {
  }

  lemma WriteObject(m: Store, s: Store, sym: Symbol, x: int, bound: nat, hi: nat)
    requires Agree(m, s, bound) && Below(sym, bound)
    ensures Agree(WriteSym(m, sym, x), WriteVal(Object(sym), x, s), bound)
    ensures Same(s, WriteVal(Object(sym), x, s), bound, hi)
  {
    var m', s' := WriteSym(m, sym, x), WriteVal(Object(sym), x, s);
    forall id: nat | id < bound ensures Local(m', id) == Local(s', id) {
      assert Local(m, id) == Local(s, id);
    }
  }

  /** Counters only grow. */
  lemma {:induction false} GenMono(e: Expr, np: nat, nl: nat)
    ensures GenExpr(e, np, nl).np >= np && GenExpr(e, np, nl).nl >= nl
    decreases e, 1
  {
    match e
    case Unary(_, a, _) => GenMono(a, np, nl);
    case Binary(op, a, b, _) =>
      if IsLogical(op) {
        GenMono(a, np + 1, nl + 2);
        var l := GenExpr(a, np + 1, nl + 2);
        GenMono(b, l.np, l.nl);
      } else {
        GenMono(a, np, nl);
        var l := GenExpr(a, np, nl);
        GenMono(b, l.np, l.nl);
      }
    case Assign(_, a) => GenMono(a, np, nl);
    case Compound(_, _, _, a) => GenMono(a, np, nl);
    case Conditional(c, a, b, t) =>
      var np0 := if t.Void? then np else np + 1;
      GenMono(c, np0, nl + 2);
      var gc := GenExpr(c, np0, nl + 2);
      GenMono(a, gc.np, gc.nl);
      var ga := GenExpr(a, gc.np, gc.nl);
      GenMono(b, ga.np, ga.nl);
    case Call(_, _, args, _) => GenArgsMono(args, np, nl);
    case Cast(_, a) => GenMono(a, np, nl);
    case _ =>
  }

  lemma {:induction false} GenArgsMono(args: seq<Expr>, np: nat, nl: nat)
    ensures GenArgs(args, np, nl).np >= np && GenArgs(args, np, nl).nl >= nl
    decreases args, 0
  {
    if args != [] {
      GenMono(args[0], np, nl);
      var g := GenExpr(args[0], np, nl);
      GenArgsMono(args[1..], g.np, g.nl);
    }
  }

  /** What is fixed while one function's code runs. */
  datatype Ctx = Ctx(code: seq<Instr>, bound: nat, src: Callees, tgt: Callees)

  ghost predicate ValidCtx(c: Ctx) {
    UniqueLabels(c.code) && Refines(c.src, c.tgt)
  }

  ghost predicate Placed(c: Ctx, e: Expr, np: nat, nl: nat, p: nat) {
    WellTyped(e) && VarsBelow(e, c.bound) && c.bound <= np && CodeAt(c.code, p, GenExpr(e, np, nl).code)
  }

  function Go(c: Ctx, p: nat, s: Store, n: nat): IrState {
    IrSteps(c.code, At(p, s), n, c.tgt)
  }

  /** After 'n' steps the machine has run the code of 'e' and holds its operand. */
  ghost predicate Simulated(c: Ctx, e: Expr, np: nat, nl: nat, p: nat, s: Store, r: Result, n: nat, s': Store) {
    var g := GenExpr(e, np, nl);
    && r.Ok?
    && Go(c, p, s, n) == At(p + |g.code|, s')
    && Agree(r.st, s', c.bound)
    && Same(s, s', c.bound, np)
    && Holds(g.val, r.o, TypeOf(e), s', np, g.np, c.bound)
  }

  lemma GoOn(c: Ctx, p: nat, s: Store, n: nat, q: nat, s': Store, k: nat, r: nat, s'': Store)
    requires Go(c, p, s, n) == At(q, s') && Go(c, q, s', k) == At(r, s'')
    ensures Go(c, p, s, n + k) == At(r, s'')
  {
    Chain(c.code, At(p, s), n, At(q, s'), k, At(r, s''), c.tgt);
  }

  /** One more instruction. */
  lemma GoOne(c: Ctx, p: nat, s: Store, n: nat, q: nat, s': Store)
    requires Go(c, p, s, n) == At(q, s')
    ensures IrSteps(c.code, At(p, s), n + 1, c.tgt) == StepAt(c.code, q, s', c.tgt)
  {
    hide StepAt;
    assert IrSteps(c.code, At(q, s'), 1, c.tgt) == IrStep(c.code, At(q, s'), c.tgt);
    Chain(c.code, At(p, s), n, At(q, s'), 1, IrStep(c.code, At(q, s'), c.tgt), c.tgt);
  }

  /** The instruction at 'q' stores 'x' and falls through. */
  ghost predicate Stores(c: Ctx, q: nat, s: Store, d: Value, x: int) {
    && q < |c.code|
    && match c.code[q]
       case IUnary(op, a, d') => d' == d && x == UnaryValue(op, ReadVal(a, s), WidthOf(TyOf(d)))
       case IBinary(op, a, b, d') =>
         d' == d && BinaryValue(op, ReadVal(a, s), ReadVal(b, s), WidthOf(TyOf(if IsShift(op) then d else a))) == Some(x)
       case ICopy(a, d') => d' == d && x == ReadVal(a, s)
       case ICast(a, d') => d' == d && x == Convert(ReadVal(a, s), TyOf(d))
       case _ => false
  }

  lemma GoStore(c: Ctx, p: nat, s: Store, n: nat, q: nat, s': Store, d: Value, x: int)
    requires Go(c, p, s, n) == At(q, s') && Stores(c, q, s', d, x)
    ensures Go(c, p, s, n + 1) == At(q + 1, WriteVal(d, x, s'))
  {
    hide BinaryValue, UnaryValue, Convert;
    GoOne(c, p, s, n, q, s');
  }

  lemma GoLabel(c: Ctx, p: nat, s: Store, n: nat, q: nat, s': Store)
    requires Go(c, p, s, n) == At(q, s') && q < |c.code| && c.code[q].ILabel?
    ensures Go(c, p, s, n + 1) == At(q + 1, s')
  {
    hide BinaryValue;
    GoOne(c, p, s, n, q, s');
  }

  lemma GoJump(c: Ctx, p: nat, s: Store, n: nat, q: nat, s': Store)
    requires Go(c, p, s, n) == At(q, s') && q < |c.code| && c.code[q].IJump?
    ensures Go(c, p, s, n + 1) == At(Lookup(c.code, c.code[q].target), s')
  {
    hide BinaryValue, Lookup;
    GoOne(c, p, s, n, q, s');
  }

  /** A conditional jump on value 'x'. */
  lemma GoBranch(c: Ctx, p: nat, s: Store, n: nat, q: nat, s': Store)
    requires Go(c, p, s, n) == At(q, s') && q < |c.code| && (c.code[q].IJumpIfZero? || c.code[q].IJumpIfNotZero?)
    ensures var taken := (ReadVal(c.code[q].cond, s') == 0) == c.code[q].IJumpIfZero?;
            Go(c, p, s, n + 1) == At(if taken then Lookup(c.code, c.code[q].target) else q + 1, s')
  {
    hide BinaryValue, Lookup;
    GoOne(c, p, s, n, q, s');
  }

  /** Simulation ends with the result stored in temporary 'id'. */
  lemma FinishTemp(c: Ctx, e: Expr, np: nat, nl: nat, p: nat, s: Store, m: Store, n: nat, s': Store, id: nat, x: int)
    requires var g := GenExpr(e, np, nl);
             && g.val == Pseudo(TypeOf(e), id) && c.bound <= np <= id < g.np
             && Go(c, p, s, n) == At(p + |g.code|, WriteVal(g.val, x, s'))
    requires Agree(m, s', c.bound) && Same(s, s', c.bound, np)
    ensures Simulated(c, e, np, nl, p, s, Ok(Val(x), m), n, WriteVal(Pseudo(TypeOf(e), id), x, s'))
  {
    hide GenExpr, IrSteps;
    WriteTemp(m, s', TypeOf(e), id, x, c.bound);
  }

  /** Simulation ends with the result stored in object 'sym'. */
  lemma FinishObject(c: Ctx, e: Expr, np: nat, nl: nat, p: nat, s: Store, m: Store, n: nat, s': Store, sym: Symbol, x: int)
    requires var g := GenExpr(e, np, nl);
             && g.val == Object(sym) && TypeOf(e) == sym.ty && Below(sym, c.bound)
             && Go(c, p, s, n) == At(p + |g.code|, WriteVal(g.val, x, s'))
    requires Agree(m, s', c.bound) && Same(s, s', c.bound, np)
    ensures Simulated(c, e, np, nl, p, s, Ok(Var(sym), WriteSym(m, sym, x)), n, WriteVal(Object(sym), x, s'))
  {
    hide GenExpr, IrSteps;
    WriteObject(m, s', sym, x, c.bound, np);
  }

  /** Expression compilation preserves value and side effects, for every expression. */
  lemma {:induction false} ExprSim(c: Ctx, e: Expr, np: nat, nl: nat, p: nat, m: Store, s: Store)
    returns (n: nat, s': Store)
    requires ValidCtx(c) && Placed(c, e, np, nl, p) && Agree(m, s, c.bound)
    requires Eval(e, m, false, c.src).Ok?
    ensures Simulated(c, e, np, nl, p, s, Eval(e, m, false, c.src), n, s')
    decreases e, 1
  {
    hide BinaryValue, ValidCtx, UnaryValue, Convert, Wrap;
    match e
    case IntConst(_) => n, s' := 0, s;
    case LongConst(_) => n, s' := 0, s;
    case Ident(_) => n, s' := 0, s;
    case Unary(_, _, _) => n, s' := UnarySim(c, e, np, nl, p, m, s);
    case Binary(op, _, _, _) =>
      if IsLogical(op) { n, s' := LogicalSim(c, e, np, nl, p, m, s); }
      else { n, s' := BinarySim(c, e, np, nl, p, m, s); }
    case IncDec(_, _, _) => n, s' := IncDecSim(c, e, np, nl, p, m, s);
    case Assign(_, _) => n, s' := AssignSim(c, e, np, nl, p, m, s);
    case Cast(_, _) => n, s' := CastSim(c, e, np, nl, p, m, s);
    case Compound(_, _, _, _) => n, s' := CompoundSim(c, e, np, nl, p, m, s);
    case Conditional(_, _, _, _) => n, s' := ConditionalSim(c, e, np, nl, p, m, s);
    case Call(_, _, _, _) => n, s' := CallSim(c, e, np, nl, p, m, s);
  }

  lemma {:induction false} UnarySim(c: Ctx, e: Expr, np: nat, nl: nat, p: nat, m: Store, s: Store)
    returns (n: nat, s': Store)
    requires ValidCtx(c) && Placed(c, e, np, nl, p) && Agree(m, s, c.bound) && e.Unary?
    requires Eval(e, m, false, c.src).Ok?
    ensures Simulated(c, e, np, nl, p, s, Eval(e, m, false, c.src), n, s')
    decreases e, 0
  {
    hide ValidCtx, UnaryValue, BinaryValue, IrSteps, CodeAt, Same, Agree;
    var g := GenExpr(e.operand, np, nl);
    if e.uop.Plus? {
      n, s' := ExprSim(c, e.operand, np, nl, p, m, s);
    } else {
      CodeSplit(c.code, p, g.code, [IUnary(e.uop, g.val, Pseudo(e.ty, g.np))]);
      GenMono(e.operand, np, nl);
      var n1, s1 := ExprSim(c, e.operand, np, nl, p, m, s);
      var r := Eval(e.operand, m, false, c.src);
      ReadHolds(g.val, r.o, TypeOf(e.operand), r.st, s1, np, g.np, c.bound);
      var x := UnaryValue(e.uop, Read(r.o, r.st), WidthOf(e.ty));
      GoStore(c, p, s, n1, p + |g.code|, s1, Pseudo(e.ty, g.np), x);
      n, s' := n1 + 1, WriteVal(Pseudo(e.ty, g.np), x, s1);
      FinishTemp(c, e, np, nl, p, s, r.st, n, s1, g.np, x);
    }
  }

  lemma BinaryOperands(c: Ctx, e: Expr)
    requires e.Binary? && WellTyped(e) && VarsBelow(e, c.bound)
    ensures WellTyped(e.left) && VarsBelow(e.left, c.bound) && WellTyped(e.right) && VarsBelow(e.right, c.bound)
    ensures !IsLogical(e.bop) && !IsShift(e.bop) && !IsCompare(e.bop) ==> TypeOf(e.left) == e.ty
  {
  }

  /** Where the parts of an eager binary operator's code stand. */
  lemma BinaryParts(c: Ctx, e: Expr, np: nat, nl: nat, p: nat)
    requires Placed(c, e, np, nl, p) && e.Binary? && !IsLogical(e.bop)
    ensures var l := GenExpr(e.left, np, nl);
            var r := GenExpr(e.right, l.np, l.nl);
            var q := p + |l.code| + |r.code|;
            && np <= l.np <= r.np
            && Placed(c, e.left, np, nl, p) && Placed(c, e.right, l.np, l.nl, p + |l.code|)
            && q < |c.code| && c.code[q] == IBinary(e.bop, l.val, r.val, Pseudo(e.ty, r.np))
            && GenExpr(e, np, nl).val == Pseudo(e.ty, r.np) && GenExpr(e, np, nl).np == r.np + 1
            && |GenExpr(e, np, nl).code| == |l.code| + |r.code| + 1
            && (!IsShift(e.bop) && !IsCompare(e.bop) ==> TypeOf(e.left) == e.ty)
  {
    hide GenExpr, WellTyped, VarsBelow, CodeAt;
    BinaryOperands(c, e);
    BinaryCode(e, np, nl);
    var l := GenExpr(e.left, np, nl);
    var r := GenExpr(e.right, l.np, l.nl);
    var last := [IBinary(e.bop, l.val, r.val, Pseudo(e.ty, r.np))];
    CodeSplit(c.code, p, l.code, r.code + last);
    CodeSplit(c.code, p + |l.code|, r.code, last);
    GenMono(e.left, np, nl);
    GenMono(e.right, l.np, l.nl);
  }

  lemma BinaryEval(e: Expr, m: Store, early: bool, callees: Callees)
    requires e.Binary? && !IsLogical(e.bop) && Eval(e, m, early, callees).Ok?
    ensures var a := Eval(e.left, m, early, callees);
            && a.Ok?
            && var b := Eval(e.right, a.st, early, callees);
            && b.Ok?
            && var x := BinaryValue(e.bop, Read(a.o, b.st), Read(b.o, b.st), WidthOf(if IsCompare(e.bop) then TypeOf(e.left) else e.ty));
            && x.Some? && Eval(e, m, early, callees) == Ok(Val(x.value), b.st)
  {
    hide BinaryValue;
  }

  lemma {:induction false} BinarySim(c: Ctx, e: Expr, np: nat, nl: nat, p: nat, m: Store, s: Store)
    returns (n: nat, s': Store)
    requires ValidCtx(c) && Placed(c, e, np, nl, p) && Agree(m, s, c.bound) && e.Binary? && !IsLogical(e.bop)
    requires Eval(e, m, false, c.src).Ok?
    ensures Simulated(c, e, np, nl, p, s, Eval(e, m, false, c.src), n, s')
    decreases e, 0
  {
    hide BinaryValue, Eval, GenExpr, WellTyped, VarsBelow, ValidCtx, CodeAt, IrSteps, Same, Agree;
    BinaryParts(c, e, np, nl, p);
    BinaryEval(e, m, false, c.src);
    var l := GenExpr(e.left, np, nl);
    var r := GenExpr(e.right, l.np, l.nl);
    var p1 := p + |l.code|;
    var p2 := p1 + |r.code|;
    var n1, s1 := ExprSim(c, e.left, np, nl, p, m, s);
    var a := Eval(e.left, m, false, c.src);
    var n2, s2 := ExprSim(c, e.right, l.np, l.nl, p1, a.st, s1);
    var b := Eval(e.right, a.st, false, c.src);
    HoldsStable(l.val, a.o, TypeOf(e.left), s1, s2, np, l.np, l.np, c.bound);
    ReadHolds(l.val, a.o, TypeOf(e.left), b.st, s2, np, l.np, c.bound);
    ReadHolds(r.val, b.o, TypeOf(e.right), b.st, s2, l.np, r.np, c.bound);
    GoOn(c, p, s, n1, p1, s1, n2, p2, s2);
    SameTrans(s, s1, s2, c.bound, np, l.np);
    var x := Eval(e, m, false, c.src).o.v;
    GoStore(c, p, s, n1 + n2, p2, s2, Pseudo(e.ty, r.np), x);
    n, s' := n1 + n2 + 1, WriteVal(Pseudo(e.ty, r.np), x, s2);
    FinishTemp(c, e, np, nl, p, s, b.st, n, s2, r.np, x);
  }

  lemma SameTrans(s: Store, s': Store, s'': Store, lo: nat, hi: nat, hi': nat)
    requires Same(s, s', lo, hi) && Same(s', s'', lo, hi') && hi <= hi'
    ensures Same(s, s'', lo, hi)
  {
    forall id: nat | lo <= id < hi ensures Local(s, id) == Local(s'', id) {
      assert Local(s, id) == Local(s', id);
    }
  }

  lemma {:induction false} IncDecSim(c: Ctx, e: Expr, np: nat, nl: nat, p: nat, m: Store, s: Store)
    returns (n: nat, s': Store)
    requires ValidCtx(c) && Placed(c, e, np, nl, p) && Agree(m, s, c.bound) && e.IncDec?
    requires Eval(e, m, false, c.src).Ok?
    ensures Simulated(c, e, np, nl, p, s, Eval(e, m, false, c.src), n, s')
    decreases e, 0
  {
    hide ValidCtx, Wrap, IrSteps, Lookup, Agree, CodeAt;
    IncDecGen(c, e, np, nl);
    var x := Object(e.sym);
    var bump := IBinary(if e.inc then Add else Sub, x, Const(e.sym.ty, 1), x);
    var was := ReadSym(m, e.sym);
    var now := Wrap(if e.inc then was + 1 else was - 1, WidthOf(e.sym.ty));
    if e.prefix {
      CodeHead(c.code, p, [bump]);
      GoNone(c, p, s);
      ReadHolds(x, Var(e.sym), e.sym.ty, m, s, np, np, c.bound);
      GoStore(c, p, s, 0, p, s, x, now);
      n, s' := 1, WriteVal(x, now, s);
      FinishObject(c, e, np, nl, p, s, m, n, s, e.sym, now);
    } else {
      PostSim(c, e.sym, np, p, m, s, bump, now);
      var s1 := WriteVal(Pseudo(e.sym.ty, np), was, s);
      n, s' := 2, WriteVal(x, now, s1);
    }
  }

  lemma IncDecGen(c: Ctx, e: Expr, np: nat, nl: nat)
    requires e.IncDec? && VarsBelow(e, c.bound)
    ensures var x := Object(e.sym);
            var bump := IBinary(if e.inc then Add else Sub, x, Const(e.sym.ty, 1), x);
            && GenExpr(e, np, nl) == (if e.prefix then Out([bump], x, np, nl)
                                      else Out([ICopy(x, Pseudo(e.sym.ty, np)), bump], Pseudo(e.sym.ty, np), np + 1, nl))
            && Below(e.sym, c.bound)
  {
  }

  /** A postfix operator saves the old value in a temporary before it changes the object. */
  lemma PostSim(c: Ctx, sym: Symbol, np: nat, p: nat, m: Store, s: Store, bump: Instr, now: int)
    requires Agree(m, s, c.bound) && c.bound <= np && Below(sym, c.bound)
    requires CodeAt(c.code, p, [ICopy(Object(sym), Pseudo(sym.ty, np)), bump])
    requires bump == IBinary(Add, Object(sym), Const(sym.ty, 1), Object(sym))
             || bump == IBinary(Sub, Object(sym), Const(sym.ty, 1), Object(sym))
    requires now == Wrap(if bump.bop.Add? then ReadSym(m, sym) + 1 else ReadSym(m, sym) - 1, WidthOf(sym.ty))
    ensures var s1 := WriteVal(Pseudo(sym.ty, np), ReadSym(m, sym), s);
            var s2 := WriteVal(Object(sym), now, s1);
            && Go(c, p, s, 2) == At(p + 2, s2) && Agree(WriteSym(m, sym, now), s2, c.bound)
            && Same(s, s2, c.bound, np) && Local(s2, np) == ReadSym(m, sym)
  {
    hide Wrap, IrSteps, Lookup, CodeAt, Agree;
    var x, t := Object(sym), Pseudo(sym.ty, np);
    CodeHead(c.code, p, [ICopy(x, t), bump]);
    CodeHead(c.code, p + 1, [bump]);
    GoNone(c, p, s);
    ReadHolds(x, Var(sym), sym.ty, m, s, np, np, c.bound);
    GoStore(c, p, s, 0, p, s, t, ReadSym(m, sym));
    var s1 := WriteVal(t, ReadSym(m, sym), s);
    WriteTemp(m, s, sym.ty, np, ReadSym(m, sym), c.bound);
    ReadHolds(x, Var(sym), sym.ty, m, s1, np, np, c.bound);
    GoStore(c, p, s, 1, p + 1, s1, x, now);
    WriteObject(m, s1, sym, now, c.bound, np + 1);
    SameTrans(s, s1, WriteVal(x, now, s1), c.bound, np, np + 1);
  }

  lemma GoNone(c: Ctx, p: nat, s: Store)
    ensures Go(c, p, s, 0) == At(p, s)
  {
  }

  lemma {:induction false} AssignSim(c: Ctx, e: Expr, np: nat, nl: nat, p: nat, m: Store, s: Store)
    returns (n: nat, s': Store)
    requires ValidCtx(c) && Placed(c, e, np, nl, p) && Agree(m, s, c.bound) && e.Assign?
    requires Eval(e, m, false, c.src).Ok?
    ensures Simulated(c, e, np, nl, p, s, Eval(e, m, false, c.src), n, s')
    decreases e, 0
  {
    hide ValidCtx, IrSteps, BinaryValue;
    var g := GenExpr(e.rvalue, np, nl);
    CodeSplit(c.code, p, g.code, [ICopy(g.val, Object(e.sym))]);
    var n1, s1 := ExprSim(c, e.rvalue, np, nl, p, m, s);
    var r := Eval(e.rvalue, m, false, c.src);
    ReadHolds(g.val, r.o, TypeOf(e.rvalue), r.st, s1, np, g.np, c.bound);
    var x := Read(r.o, r.st);
    GoStore(c, p, s, n1, p + |g.code|, s1, Object(e.sym), x);
    n, s' := n1 + 1, WriteVal(Object(e.sym), x, s1);
    FinishObject(c, e, np, nl, p, s, r.st, n, s1, e.sym, x);
  }

  /** Conversion code leaves the converted value in an operand of the target type. */
  lemma ConvertSim(c: Ctx, v: Value, t: Ty, np: nat, nl: nat, p: nat, m: Store, s: Store)
    returns (n: nat, s': Store)
    requires c.bound <= np && CodeAt(c.code, p, GenConvert(v, t, np, nl).code) && Agree(m, s, c.bound)
    ensures var g := GenConvert(v, t, np, nl);
            && Go(c, p, s, n) == At(p + |g.code|, s') && Agree(m, s', c.bound) && Same(s, s', c.bound, np)
            && np <= g.np <= np + 1 && TyOf(g.val) == t
            && (TyOf(v) == t ==> g.val == v && s' == s)
            && ReadVal(g.val, s') == ConvertFrom(ReadVal(v, s), TyOf(v), t)
            && (TyOf(v) != t ==> !g.val.StaticObj? && (g.val.Pseudo? ==> np <= g.val.id < g.np))
  {
    hide Convert;
    GoNone(c, p, s);
    n, s' := 0, s;
    if TyOf(v) != t && !v.Const? {
      CodeHead(c.code, p, [ICast(v, Pseudo(t, np))]);
      var x := Convert(ReadVal(v, s), t);
      GoStore(c, p, s, 0, p, s, Pseudo(t, np), x);
      n, s' := 1, WriteVal(Pseudo(t, np), x, s);
      WriteTemp(m, s, t, np, x, c.bound);
    }
  }

  lemma {:induction false} CastSim(c: Ctx, e: Expr, np: nat, nl: nat, p: nat, m: Store, s: Store)
    returns (n: nat, s': Store)
    requires ValidCtx(c) && Placed(c, e, np, nl, p) && Agree(m, s, c.bound) && e.Cast?
    requires Eval(e, m, false, c.src).Ok?
    ensures Simulated(c, e, np, nl, p, s, Eval(e, m, false, c.src), n, s')
    decreases e, 0
  {
    hide ValidCtx, IrSteps, BinaryValue, Convert, CodeAt;
    var g := GenExpr(e.operand, np, nl);
    GenMono(e.operand, np, nl);
    var r := Eval(e.operand, m, false, c.src);
    if e.target.Void? {
      n, s' := ExprSim(c, e.operand, np, nl, p, m, s);
    } else {
      var h := GenConvert(g.val, e.target, g.np, g.nl);
      CodeSplit(c.code, p, g.code, h.code);
      var n1, s1 := ExprSim(c, e.operand, np, nl, p, m, s);
      ReadHolds(g.val, r.o, TypeOf(e.operand), r.st, s1, np, g.np, c.bound);
      var n2;
      n2, s' := ConvertSim(c, g.val, e.target, g.np, g.nl, p + |g.code|, r.st, s1);
      n := n1 + n2;
      GoOn(c, p, s, n1, p + |g.code|, s1, n2, p + |g.code| + |h.code|, s');
      SameTrans(s, s1, s', c.bound, np, g.np);
    }
  }

  lemma ConvertMono(v: Value, t: Ty, np: nat, nl: nat)
    ensures np <= GenConvert(v, t, np, nl).np
  {
  }

  lemma CompoundOperands(c: Ctx, e: Expr)
    requires e.Compound? && WellTyped(e) && VarsBelow(e, c.bound)
    ensures WellTyped(e.rvalue) && VarsBelow(e.rvalue, c.bound) && Below(e.sym, c.bound)
  {
  }

  /** Where the parts of a compound assignment's code stand. */
  lemma CompoundParts(c: Ctx, e: Expr, np: nat, nl: nat, p: nat)
    requires Placed(c, e, np, nl, p) && e.Compound?
    ensures var g := GenExpr(e.rvalue, np, nl);
            var left := GenConvert(Object(e.sym), e.opTy, g.np, g.nl);
            var result := Pseudo(e.opTy, left.np);
            var back := GenConvert(result, e.sym.ty, left.np + 1, left.nl);
            var p2 := p + |g.code| + |left.code|;
            && np <= g.np <= left.np
            && Placed(c, e.rvalue, np, nl, p) && CodeAt(c.code, p + |g.code|, left.code)
            && p2 < |c.code| && c.code[p2] == IBinary(e.bop, left.val, g.val, result)
            && CodeAt(c.code, p2 + 1, back.code)
            && p2 + 1 + |back.code| < |c.code| && c.code[p2 + 1 + |back.code|] == ICopy(back.val, Object(e.sym))
            && GenExpr(e, np, nl).val == Object(e.sym)
            && p + |GenExpr(e, np, nl).code| == p2 + 1 + |back.code| + 1
            && Below(e.sym, c.bound)
  {
    hide GenExpr, WellTyped, VarsBelow, GenConvert, CodeAt;
    CompoundOperands(c, e);
    CompoundCode(e, np, nl);
    var g := GenExpr(e.rvalue, np, nl);
    var x := Object(e.sym);
    var left := GenConvert(x, e.opTy, g.np, g.nl);
    ConvertMono(x, e.opTy, g.np, g.nl);
    var result := Pseudo(e.opTy, left.np);
    var op := [IBinary(e.bop, left.val, g.val, result)];
    var back := GenConvert(result, e.sym.ty, left.np + 1, left.nl);
    var last := [ICopy(back.val, x)];
    var p1, p2 := p + |g.code|, p + |g.code| + |left.code|;
    CodeSplit(c.code, p, g.code, left.code + (op + (back.code + last)));
    CodeSplit(c.code, p1, left.code, op + (back.code + last));
    CodeSplit(c.code, p2, op, back.code + last);
    CodeSplit(c.code, p2 + 1, back.code, last);
    GenMono(e.rvalue, np, nl);
  }

  lemma CompoundEval(e: Expr, m: Store, callees: Callees)
    requires e.Compound? && Eval(e, m, false, callees).Ok?
    ensures var r := Eval(e.rvalue, m, false, callees);
            && r.Ok?
            && var x := BinaryValue(e.bop, ConvertFrom(ReadSym(r.st, e.sym), e.sym.ty, e.opTy), Read(r.o, r.st), WidthOf(e.opTy));
            && x.Some?
            && Eval(e, m, false, callees) == Ok(Var(e.sym), WriteSym(r.st, e.sym, ConvertFrom(x.value, e.opTy, e.sym.ty)))
  {
    hide BinaryValue, Convert;
  }

  lemma {:induction false} CompoundSim(c: Ctx, e: Expr, np: nat, nl: nat, p: nat, m: Store, s: Store)
    returns (n: nat, s': Store)
    requires ValidCtx(c) && Placed(c, e, np, nl, p) && Agree(m, s, c.bound) && e.Compound?
    requires Eval(e, m, false, c.src).Ok?
    ensures Simulated(c, e, np, nl, p, s, Eval(e, m, false, c.src), n, s')
    decreases e, 0
  {
    hide BinaryValue, Eval, GenExpr, WellTyped, VarsBelow, ValidCtx, CodeAt, IrSteps, Same, Agree, Convert, ConvertFrom, GenConvert;
    CompoundParts(c, e, np, nl, p);
    CompoundEval(e, m, c.src);
    assert CompoundTyped(e) by { CompoundTypes(c, e, np, nl, p); }
    var g := GenExpr(e.rvalue, np, nl);
    var x := Object(e.sym);
    var left := GenConvert(x, e.opTy, g.np, g.nl);
    var result := Pseudo(e.opTy, left.np);
    var back := GenConvert(result, e.sym.ty, left.np + 1, left.nl);
    var p1, p2 := p + |g.code|, p + |g.code| + |left.code|;
    var n1, s1 := ExprSim(c, e.rvalue, np, nl, p, m, s);
    var r := Eval(e.rvalue, m, false, c.src);
    var n2, s2 := ConvertSim(c, x, e.opTy, g.np, g.nl, p1, r.st, s1);
    GoOn(c, p, s, n1, p1, s1, n2, p2, s2);
    SameTrans(s, s1, s2, c.bound, np, g.np);
    HoldsStable(g.val, r.o, TypeOf(e.rvalue), s1, s2, np, g.np, g.np, c.bound);
    ReadHolds(g.val, r.o, TypeOf(e.rvalue), r.st, s2, np, g.np, c.bound);
    ReadHolds(x, Var(e.sym), e.sym.ty, r.st, s1, np, g.np, c.bound);
    var v := BinaryValue(e.bop, ReadVal(left.val, s2), ReadVal(g.val, s2), WidthOf(e.opTy)).value;
    GoStore(c, p, s, n1 + n2, p2, s2, result, v);
    var s3 := WriteVal(result, v, s2);
    WriteTemp(r.st, s2, e.opTy, left.np, v, c.bound);
    SameTrans(s, s2, s3, c.bound, np, left.np);
    var n4, s4 := ConvertSim(c, result, e.sym.ty, left.np + 1, left.nl, p2 + 1, r.st, s3);
    GoOn(c, p, s, n1 + n2 + 1, p2 + 1, s3, n4, p2 + 1 + |back.code|, s4);
    SameTrans(s, s3, s4, c.bound, np, left.np + 1);
    var y := ConvertFrom(v, e.opTy, e.sym.ty);
    assert ReadVal(result, s3) == v;
    GoStore(c, p, s, n1 + n2 + 1 + n4, p2 + 1 + |back.code|, s4, x, y);
    n, s' := n1 + n2 + 1 + n4 + 1, WriteVal(x, y, s4);
    FinishObject(c, e, np, nl, p, s, r.st, n, s4, e.sym, y);
  }

  predicate CompoundTyped(e: Expr) {
    e.Compound? && !IsCompare(e.bop) && IsArithmetic(e.opTy)
  }

  lemma CompoundTypes(c: Ctx, e: Expr, np: nat, nl: nat, p: nat)
    requires Placed(c, e, np, nl, p) && e.Compound?
    ensures CompoundTyped(e)
  {
  }

  /** The early exit and the fall-through of a short-circuit operator both store its value. */
  lemma ShortTailSim(c: Ctx, op: BinOp, t: Ty, id: nat, nl: nat, p: nat, s: Store, early: bool)
    returns (n: nat)
    requires ValidCtx(c) && CodeAt(c.code, p, ShortTail(op, Pseudo(t, id), nl))
    ensures var x := Truth(if early then op.LogOr? else op.LogAnd?);
            Go(c, if early then p + 2 else p, s, n) == At(p + 5, WriteVal(Pseudo(t, id), x, s))
  {
    hide IrSteps, Lookup;
    var tail := ShortTail(op, Pseudo(t, id), nl);
    CodeHead(c.code, p, tail);
    CodeHead(c.code, p + 1, tail[1..]);
    CodeHead(c.code, p + 2, tail[2..]);
    CodeHead(c.code, p + 3, tail[3..]);
    CodeHead(c.code, p + 4, tail[4..]);
    LookupAt(c.code, p + 4, Temp(nl + 1));
    var d, x := Pseudo(t, id), Truth(if early then op.LogOr? else op.LogAnd?);
    var start := if early then p + 2 else p;
    GoNone(c, start, s);
    if early {
      GoLabel(c, start, s, 0, p + 2, s);
      GoStore(c, start, s, 1, p + 3, s, d, x);
    } else {
      GoStore(c, start, s, 0, p, s, d, x);
      GoJump(c, start, s, 1, p + 1, WriteVal(d, x, s));
    }
    GoLabel(c, start, s, 2, p + 4, WriteVal(d, x, s));
    n := 3;
  }

  /** Where the parts of a short-circuit operator's code stand. */
  lemma LogicalParts(c: Ctx, e: Expr, np: nat, nl: nat, p: nat)
    requires ValidCtx(c) && Placed(c, e, np, nl, p) && e.Binary? && IsLogical(e.bop)
    ensures var l := GenExpr(e.left, np + 1, nl + 2);
            var r := GenExpr(e.right, l.np, l.nl);
            var p1 := p + |l.code|;
            var p2 := p1 + 1 + |r.code|;
            && np + 1 <= l.np <= r.np
            && Placed(c, e.left, np + 1, nl + 2, p) && Placed(c, e.right, l.np, l.nl, p1 + 1)
            && p1 < |c.code| && c.code[p1] == ShortJump(e.bop, l.val, nl)[0]
            && p2 < |c.code| && c.code[p2] == ShortJump(e.bop, r.val, nl)[0]
            && CodeAt(c.code, p2 + 1, ShortTail(e.bop, Pseudo(e.ty, np), nl))
            && Lookup(c.code, Temp(nl)) == p2 + 3
            && GenExpr(e, np, nl).val == Pseudo(e.ty, np) && GenExpr(e, np, nl).np == r.np
            && p + |GenExpr(e, np, nl).code| == p2 + 6
  {
    hide GenExpr, WellTyped, VarsBelow, CodeAt, Lookup;
    BinaryOperands(c, e);
    LogicalCode(e, np, nl);
    var l := GenExpr(e.left, np + 1, nl + 2);
    var r := GenExpr(e.right, l.np, l.nl);
    var j1, j2 := ShortJump(e.bop, l.val, nl), ShortJump(e.bop, r.val, nl);
    var tail := ShortTail(e.bop, Pseudo(e.ty, np), nl);
    var p1 := p + |l.code|;
    CodeSplit(c.code, p, l.code + j1, r.code + (j2 + tail));
    CodeSplit(c.code, p, l.code, j1);
    CodeSplit(c.code, p1 + 1, r.code, j2 + tail);
    CodeSplit(c.code, p1 + 1 + |r.code|, j2, tail);
    var q := p1 + 1 + |r.code| + 1;
    CodeHead(c.code, q, tail);
    CodeHead(c.code, q + 1, tail[1..]);
    CodeHead(c.code, q + 2, tail[2..]);
    LookupAt(c.code, q + 2, Temp(nl));
    GenMono(e.left, np + 1, nl + 2);
    GenMono(e.right, l.np, l.nl);
  }

  lemma LogicalEval(e: Expr, m: Store, early: bool, callees: Callees)
    requires e.Binary? && IsLogical(e.bop) && Eval(e, m, early, callees).Ok?
    ensures var a := Eval(e.left, m, early, callees);
            && a.Ok?
            && if (Read(a.o, a.st) == 0) == e.bop.LogAnd? then
                 Eval(e, m, early, callees) == Ok(Val(Truth(e.bop.LogOr?)), a.st)
               else
                 var b := Eval(e.right, a.st, early, callees);
                 b.Ok? && Eval(e, m, early, callees) == Ok(Val(Truth(Read(b.o, b.st) != 0)), b.st)
  {
    hide BinaryValue;
  }

  lemma {:induction false} LogicalSim(c: Ctx, e: Expr, np: nat, nl: nat, p: nat, m: Store, s: Store)
    returns (n: nat, s': Store)
    requires ValidCtx(c) && Placed(c, e, np, nl, p) && Agree(m, s, c.bound) && e.Binary? && IsLogical(e.bop)
    requires Eval(e, m, false, c.src).Ok?
    ensures Simulated(c, e, np, nl, p, s, Eval(e, m, false, c.src), n, s')
    decreases e, 0
  {
    hide BinaryValue, Eval, GenExpr, WellTyped, VarsBelow, ValidCtx, CodeAt, IrSteps, Same, Agree, Lookup, ShortTail;
    LogicalParts(c, e, np, nl, p);
    LogicalEval(e, m, false, c.src);
    var l := GenExpr(e.left, np + 1, nl + 2);
    var r := GenExpr(e.right, l.np, l.nl);
    var p1 := p + |l.code|;
    var p2 := p1 + 1 + |r.code|;
    var n1, s1 := ExprSim(c, e.left, np + 1, nl + 2, p, m, s);
    var a := Eval(e.left, m, false, c.src);
    ReadHolds(l.val, a.o, TypeOf(e.left), a.st, s1, np + 1, l.np, c.bound);
    GoBranch(c, p, s, n1, p1, s1);
    var x := Eval(e, m, false, c.src).o.v;
    SameTrans(s, s, s1, c.bound, np, np + 1) by { SameRefl(s, c.bound, np); }
    if (Read(a.o, a.st) == 0) == e.bop.LogAnd? {
      var n3 := ShortTailSim(c, e.bop, e.ty, np, nl, p2 + 1, s1, true);
      GoOn(c, p, s, n1 + 1, p2 + 3, s1, n3, p2 + 6, WriteVal(Pseudo(e.ty, np), x, s1));
      n, s' := n1 + 1 + n3, WriteVal(Pseudo(e.ty, np), x, s1);
      FinishTemp(c, e, np, nl, p, s, a.st, n, s1, np, x);
    } else {
      var n2, s2 := ExprSim(c, e.right, l.np, l.nl, p1 + 1, a.st, s1);
      var b := Eval(e.right, a.st, false, c.src);
      ReadHolds(r.val, b.o, TypeOf(e.right), b.st, s2, l.np, r.np, c.bound);
      GoOn(c, p, s, n1 + 1, p1 + 1, s1, n2, p2, s2);
      GoBranch(c, p, s, n1 + 1 + n2, p2, s2);
      SameTrans(s, s1, s2, c.bound, np, l.np);
      var early := (Read(b.o, b.st) == 0) == e.bop.LogAnd?;
      var n3 := ShortTailSim(c, e.bop, e.ty, np, nl, p2 + 1, s2, early);
      var q := if early then p2 + 3 else p2 + 1;
      GoOn(c, p, s, n1 + 1 + n2 + 1, q, s2, n3, p2 + 6, WriteVal(Pseudo(e.ty, np), x, s2));
      n, s' := n1 + 1 + n2 + 1 + n3, WriteVal(Pseudo(e.ty, np), x, s2);
      FinishTemp(c, e, np, nl, p, s, b.st, n, s2, np, x);
    }
  }

  lemma SameRefl(s: Store, lo: nat, hi: nat)
    ensures Same(s, s, lo, hi)
  {
  }

  lemma ConditionalOperands(c: Ctx, e: Expr)
    requires e.Conditional? && WellTyped(e) && VarsBelow(e, c.bound)
    ensures WellTyped(e.cond) && VarsBelow(e.cond, c.bound)
    ensures WellTyped(e.thn) && VarsBelow(e.thn, c.bound) && TypeOf(e.thn) == e.ty
    ensures WellTyped(e.els) && VarsBelow(e.els, c.bound) && TypeOf(e.els) == e.ty
  {
  }

  /** Where the pieces of two-armed code stand. */
  lemma ArmsAt(code: seq<Instr>, p: nat, a: seq<Instr>, j: seq<Instr>, b: seq<Instr>, cb: seq<Instr>, mid: seq<Instr>,
               d: seq<Instr>, cd: seq<Instr>, end: seq<Instr>)
    requires CodeAt(code, p, a + (j + (b + (cb + (mid + (d + (cd + end))))))) && |j| == 1 && |mid| == 2 && |end| == 1
    ensures var p1 := p + |a|;
            var p2 := p1 + 1 + |b|;
            var p3 := p2 + |cb|;
            var p4 := p3 + 2 + |d|;
            var p5 := p4 + |cd|;
            && CodeAt(code, p, a) && CodeAt(code, p1 + 1, b) && CodeAt(code, p2, cb) && CodeAt(code, p3 + 2, d) && CodeAt(code, p4, cd)
            && p5 < |code| && code[p1] == j[0] && code[p3] == mid[0] && code[p3 + 1] == mid[1] && code[p5] == end[0]
            && |a + (j + (b + (cb + (mid + (d + (cd + end))))))| == p5 + 1 - p
  {
    hide CodeAt;
    var p1 := p + |a|;
    var p2 := p1 + 1 + |b|;
    var p3 := p2 + |cb|;
    var rest := mid + (d + (cd + end));
    CodeSplit4(code, p, a, j, b, cb + rest);
    CodeSplit(code, p2, cb, rest);
    CodeSplit4(code, p3, mid, d, cd, end);
    CodeHead(code, p1, j);
    CodeHead(code, p3, mid);
    CodeHead(code, p3 + 1, mid[1..]);
    CodeHead(code, p3 + 2 + |d| + |cd|, end);
  }

  lemma LabelAt(c: Ctx, p: nat, l: Lbl)
    requires ValidCtx(c) && p < |c.code| && c.code[p] == ILabel(l)
    ensures Lookup(c.code, l) == p
  {
    LookupAt(c.code, p, l);
  }

  lemma ConditionalParts(c: Ctx, e: Expr, np: nat, nl: nat, p: nat)
    requires ValidCtx(c) && Placed(c, e, np, nl, p) && e.Conditional?
    ensures var dst := CondDst(e, np);
            var gc := GenExpr(e.cond, CondNp(e, np), nl + 2);
            var ga := GenExpr(e.thn, gc.np, gc.nl);
            var gb := GenExpr(e.els, ga.np, ga.nl);
            var p1 := p + |gc.code|;
            var p2 := p1 + 1 + |ga.code|;
            var p3 := p2 + |CopyTo(ga.val, dst)|;
            var p4 := p3 + 2 + |gb.code|;
            var p5 := p4 + |CopyTo(gb.val, dst)|;
            && CondNp(e, np) <= gc.np <= ga.np <= gb.np
            && Placed(c, e.cond, CondNp(e, np), nl + 2, p)
            && Placed(c, e.thn, gc.np, gc.nl, p1 + 1) && Placed(c, e.els, ga.np, ga.nl, p3 + 2)
            && p5 < |c.code| && c.code[p1] == IJumpIfZero(gc.val, Temp(nl))
            && CodeAt(c.code, p2, CopyTo(ga.val, dst)) && CodeAt(c.code, p4, CopyTo(gb.val, dst))
            && c.code[p3] == IJump(Temp(nl + 1)) && c.code[p3 + 1] == ILabel(Temp(nl)) && c.code[p5] == ILabel(Temp(nl + 1))
            && GenExpr(e, np, nl).val == dst && GenExpr(e, np, nl).np == gb.np
            && p + |GenExpr(e, np, nl).code| == p5 + 1
            && TypeOf(e.thn) == TypeOf(e.els) == e.ty
  {
    hide GenExpr, WellTyped, VarsBelow, CodeAt, Lookup, CopyTo;
    ConditionalOperands(c, e);
    ConditionalCode(e, np, nl);
    var dst := CondDst(e, np);
    var gc := GenExpr(e.cond, CondNp(e, np), nl + 2);
    var ga := GenExpr(e.thn, gc.np, gc.nl);
    var gb := GenExpr(e.els, ga.np, ga.nl);
    var j, mid, end := [IJumpIfZero(gc.val, Temp(nl))], [IJump(Temp(nl + 1)), ILabel(Temp(nl))], [ILabel(Temp(nl + 1))];
    var ca, cb := CopyTo(ga.val, dst), CopyTo(gb.val, dst);
    var p1 := p + |gc.code|;
    var p2 := p1 + 1 + |ga.code|;
    var p3 := p2 + |ca|;
    var p4 := p3 + 2 + |gb.code|;
    ArmsAt(c.code, p, gc.code, j, ga.code, ca, mid, gb.code, cb, end);
    GenMono(e.cond, CondNp(e, np), nl + 2);
    GenMono(e.thn, gc.np, gc.nl);
    GenMono(e.els, ga.np, ga.nl);
  }

  lemma ConditionalEval(e: Expr, m: Store, early: bool, callees: Callees)
    requires e.Conditional? && Eval(e, m, early, callees).Ok?
    ensures var r := Eval(e.cond, m, early, callees);
            && r.Ok?
            && var q := Eval(if Read(r.o, r.st) != 0 then e.thn else e.els, r.st, early, callees);
            && q.Ok? && Eval(e, m, early, callees) == Ok(Val(if e.ty.Void? then 0 else Read(q.o, q.st)), q.st)
  {
    hide BinaryValue;
  }

  /** The value of the chosen branch reaches the destination. */
  lemma FinishBranch(c: Ctx, e: Expr, np: nat, nl: nat, p: nat, s: Store, n: nat, q: nat, v: Value, o: Operand,
                     m: Store, s1: Store, lo: nat, hi: nat)
    returns (k: nat, s': Store)
    requires e.Conditional? && GenExpr(e, np, nl).val == CondDst(e, np) && c.bound <= np
    requires CondNp(e, np) <= GenExpr(e, np, nl).np
    requires Go(c, p, s, n) == At(q, s1) && CodeAt(c.code, q, CopyTo(v, CondDst(e, np)))
    requires Agree(m, s1, c.bound) && Same(s, s1, c.bound, np) && Holds(v, o, e.ty, s1, lo, hi, c.bound)
    ensures Go(c, p, s, k) == At(q + |CopyTo(v, CondDst(e, np))|, s')
    ensures Agree(m, s', c.bound) && Same(s, s', c.bound, np)
    ensures Holds(CondDst(e, np), Val(if e.ty.Void? then 0 else Read(o, m)), e.ty, s', np, GenExpr(e, np, nl).np, c.bound)
  {
    hide GenExpr, IrSteps;
    k, s' := n, s1;
    if !e.ty.Void? {
      var dst := CondDst(e, np);
      CodeHead(c.code, q, CopyTo(v, dst));
      ReadHolds(v, o, e.ty, m, s1, lo, hi, c.bound);
      GoStore(c, p, s, n, q, s1, dst, Read(o, m));
      k, s' := n + 1, WriteVal(dst, Read(o, m), s1);
      WriteTemp(m, s1, e.ty, np, Read(o, m), c.bound);
      SameTrans(s, s1, s', c.bound, np, np);
    }
  }

  lemma {:induction false} ConditionalSim(c: Ctx, e: Expr, np: nat, nl: nat, p: nat, m: Store, s: Store)
    returns (n: nat, s': Store)
    requires ValidCtx(c) && Placed(c, e, np, nl, p) && Agree(m, s, c.bound) && e.Conditional?
    requires Eval(e, m, false, c.src).Ok?
    ensures Simulated(c, e, np, nl, p, s, Eval(e, m, false, c.src), n, s')
    decreases e, 0
  {
    hide BinaryValue, Eval, GenExpr, WellTyped, VarsBelow, ValidCtx, CodeAt, IrSteps, Same, Agree, Lookup, CopyTo;
    ConditionalParts(c, e, np, nl, p);
    ConditionalEval(e, m, false, c.src);
    var dst := CondDst(e, np);
    var gc := GenExpr(e.cond, CondNp(e, np), nl + 2);
    var ga := GenExpr(e.thn, gc.np, gc.nl);
    var gb := GenExpr(e.els, ga.np, ga.nl);
    var p1 := p + |gc.code|;
    var p2 := p1 + 1 + |ga.code|;
    var p3 := p2 + |CopyTo(ga.val, dst)|;
    var p4 := p3 + 2 + |gb.code|;
    var p5 := p4 + |CopyTo(gb.val, dst)|;
    LabelAt(c, p3 + 1, Temp(nl));
    LabelAt(c, p5, Temp(nl + 1));
    var n1, s1 := ExprSim(c, e.cond, CondNp(e, np), nl + 2, p, m, s);
    var r := Eval(e.cond, m, false, c.src);
    ReadHolds(gc.val, r.o, TypeOf(e.cond), r.st, s1, CondNp(e, np), gc.np, c.bound);
    GoBranch(c, p, s, n1, p1, s1);
    SameTrans(s, s, s1, c.bound, np, CondNp(e, np)) by { SameRefl(s, c.bound, np); }
    if Read(r.o, r.st) != 0 {
      var n2, s2 := ExprSim(c, e.thn, gc.np, gc.nl, p1 + 1, r.st, s1);
      var q := Eval(e.thn, r.st, false, c.src);
      GoOn(c, p, s, n1 + 1, p1 + 1, s1, n2, p2, s2);
      SameTrans(s, s1, s2, c.bound, np, gc.np);
      var k, s3 := FinishBranch(c, e, np, nl, p, s, n1 + 1 + n2, p2, ga.val, q.o, q.st, s2, gc.np, ga.np);
      GoJump(c, p, s, k, p3, s3);
      GoLabel(c, p, s, k + 1, p5, s3);
      n, s' := k + 2, s3;
    } else {
      GoLabel(c, p, s, n1 + 1, p3 + 1, s1);
      var n2, s2 := ExprSim(c, e.els, ga.np, ga.nl, p3 + 2, r.st, s1);
      var q := Eval(e.els, r.st, false, c.src);
      GoOn(c, p, s, n1 + 2, p3 + 2, s1, n2, p4, s2);
      SameTrans(s, s1, s2, c.bound, np, ga.np);
      var k, s3 := FinishBranch(c, e, np, nl, p, s, n1 + 2 + n2, p4, gb.val, q.o, q.st, s2, ga.np, gb.np);
      GoLabel(c, p, s, k, p5, s3);
      n, s' := k + 1, s3;
    }
  }

  /** Arguments are evaluated in order; the machine reads them all when it makes the call. */
  lemma {:induction false} ArgsSim(c: Ctx, args: seq<Expr>, params: seq<Ty>, np: nat, nl: nat, p: nat, m: Store, s: Store)
    returns (n: nat, s': Store)
    requires ValidCtx(c) && Agree(m, s, c.bound) && c.bound <= np
    requires WellTypedArgs(args, params) && ArgsBelow(args, c.bound) && CodeAt(c.code, p, GenArgs(args, np, nl).code)
    requires EvalArgs(args, m, false, c.src).OkArgs?
    ensures var g := GenArgs(args, np, nl);
            var r := EvalArgs(args, m, false, c.src);
            && Go(c, p, s, n) == At(p + |g.code|, s') && Agree(r.st, s', c.bound) && Same(s, s', c.bound, np)
            && HoldsAll(g.vals, r.os, params, s', np, g.np, c.bound)
    decreases args, 0
  {
    hide Eval, GenExpr, WellTyped, VarsBelow, ValidCtx, CodeAt, IrSteps, Agree;
    if args == [] {
      GoNone(c, p, s);
      n, s' := 0, s;
    } else {
      var g := GenExpr(args[0], np, nl);
      var h := GenArgs(args[1..], g.np, g.nl);
      CodeSplit(c.code, p, g.code, h.code);
      GenMono(args[0], np, nl);
      GenArgsMono(args[1..], g.np, g.nl);
      var n1, s1 := ExprSim(c, args[0], np, nl, p, m, s);
      var a := Eval(args[0], m, false, c.src);
      var n2, s2 := ArgsSim(c, args[1..], params[1..], g.np, g.nl, p + |g.code|, a.st, s1);
      var b := EvalArgs(args[1..], a.st, false, c.src);
      GoOn(c, p, s, n1, p + |g.code|, s1, n2, p + |g.code| + |h.code|, s2);
      HoldsStable(g.val, a.o, params[0], s1, s2, np, g.np, h.np, c.bound);
      HoldsAllWiden(h.vals, b.os, params[1..], s2, g.np, np, h.np, c.bound);
      SameTrans(s, s1, s2, c.bound, np, g.np);
      n, s' := n1 + n2, s2;
    }
  }

  lemma CallAgrees(c: Ctx, m: Store, s: Store, fn: nat, args: seq<int>)
    requires ValidCtx(c) && Agree(m, s, c.bound) && DoCall(m, fn, args, c.src).Some?
    ensures var x, y := DoCall(m, fn, args, c.src), DoCall(s, fn, args, c.tgt);
            && y.Some? && x.value.0 == y.value.0 && Agree(x.value.1, y.value.1, c.bound)
            && y.value.1.locals == s.locals
  {
    assert c.src(fn, args, m.statics, m.trace).Some?;
    var x, y := DoCall(m, fn, args, c.src), DoCall(s, fn, args, c.tgt);
    forall id: nat | id < c.bound ensures Local(x.value.1, id) == Local(y.value.1, id) {
      assert Local(m, id) == Local(s, id);
    }
  }

  /** The call instruction, whose operands hold the evaluated arguments. */
  lemma GoCall(c: Ctx, p: nat, s: Store, n: nat, q: nat, s': Store, m: Store, os: seq<Operand>, ts: seq<Ty>, lo: nat, hi: nat)
    returns (s2: Store)
    requires ValidCtx(c) && Agree(m, s', c.bound) && Go(c, p, s, n) == At(q, s') && q < |c.code| && c.code[q].ICall?
    requires HoldsAll(c.code[q].args, os, ts, s', lo, hi, c.bound)
    requires DoCall(m, c.code[q].fn, ReadAll(os, m), c.src).Some?
    ensures var x := DoCall(m, c.code[q].fn, ReadAll(os, m), c.src).value;
            && Go(c, p, s, n + 1) == At(q + 1, WriteVal(c.code[q].dst, x.0, s2))
            && Agree(x.1, s2, c.bound) && s2.locals == s'.locals
  {
    hide BinaryValue, Lookup, HoldsAll, ValidCtx, Agree, IrSteps, DoCall;
    ReadHoldsAll(c.code[q].args, os, ts, m, s', lo, hi, c.bound);
    CallAgrees(c, m, s', c.code[q].fn, ReadAll(os, m));
    s2 := DoCall(s', c.code[q].fn, ReadAll(os, m), c.tgt).value.1;
    GoOne(c, p, s, n, q, s');
  }

  lemma CallParts(c: Ctx, e: Expr, np: nat, nl: nat, p: nat)
    requires Placed(c, e, np, nl, p) && e.Call?
    ensures var g := GenArgs(e.args, np, nl);
            var dst := if e.ty.Void? then NoValue else Pseudo(e.ty, g.np);
            && WellTypedArgs(e.args, e.params) && ArgsBelow(e.args, c.bound) && np <= g.np
            && GenExpr(e, np, nl) == Out(g.code + [ICall(e.fn, g.vals, dst)], dst, if e.ty.Void? then g.np else g.np + 1, g.nl)
            && CodeAt(c.code, p, g.code)
            && p + |g.code| < |c.code| && c.code[p + |g.code|] == ICall(e.fn, g.vals, dst)
  {
    hide CodeAt;
    var g := GenArgs(e.args, np, nl);
    var dst := if e.ty.Void? then NoValue else Pseudo(e.ty, g.np);
    CodeSplit(c.code, p, g.code, [ICall(e.fn, g.vals, dst)]);
    GenArgsMono(e.args, np, nl);
  }

  lemma CallEval(e: Expr, m: Store, early: bool, callees: Callees)
    requires e.Call? && Eval(e, m, early, callees).Ok?
    ensures var r := EvalArgs(e.args, m, early, callees);
            && r.OkArgs?
            && var x := DoCall(r.st, e.fn, ReadAll(r.os, r.st), callees);
            && x.Some? && Eval(e, m, early, callees) == Ok(Val(if e.ty.Void? then 0 else x.value.0), x.value.1)
  {
    hide DoCall;
  }

  lemma {:induction false} CallSim(c: Ctx, e: Expr, np: nat, nl: nat, p: nat, m: Store, s: Store)
    returns (n: nat, s': Store)
    requires ValidCtx(c) && Placed(c, e, np, nl, p) && Agree(m, s, c.bound) && e.Call?
    requires Eval(e, m, false, c.src).Ok?
    ensures Simulated(c, e, np, nl, p, s, Eval(e, m, false, c.src), n, s')
    decreases e, 0
  {
    hide Eval, GenExpr, WellTyped, VarsBelow, ValidCtx, CodeAt, IrSteps, Agree, GenArgs, EvalArgs, DoCall, HoldsAll, ReadAll;
    CallParts(c, e, np, nl, p);
    CallEval(e, m, false, c.src);
    var g := GenArgs(e.args, np, nl);
    var n1, s1 := ArgsSim(c, e.args, e.params, np, nl, p, m, s);
    var r := EvalArgs(e.args, m, false, c.src);
    var x := DoCall(r.st, e.fn, ReadAll(r.os, r.st), c.src).value;
    var s2 := GoCall(c, p, s, n1, p + |g.code|, s1, r.st, r.os, e.params, np, g.np);
    assert Same(s, s2, c.bound, np) by { SameLocals(s, s1, s2, c.bound, np); }
    n := n1 + 1;
    if e.ty.Void? {
      s' := s2;
    } else {
      s' := WriteVal(Pseudo(e.ty, g.np), x.0, s2);
      FinishTemp(c, e, np, nl, p, s, x.1, n, s2, g.np, x.0);
    }
  }

  lemma SameLocals(s: Store, s': Store, s'': Store, lo: nat, hi: nat)
    requires Same(s, s', lo, hi) && s'.locals == s''.locals
    ensures Same(s, s'', lo, hi)
  {
    forall id: nat | lo <= id < hi ensures Local(s, id) == Local(s'', id) {
      assert Local(s, id) == Local(s', id);
    }
  }
}
