/** The inserted casts are the implicit conversions of C: evaluating the source by the conversion
    rules gives what evaluating the analysed expression gives. */
module Conversions {
  import opened Arith
  import opened Ast
  import opened Semantics
  import opened Syntax
  import opened Analysis

  /** Conversion rank of an integer type (section 6.3.1.1). */
  function Rank(t: Ty): nat {
    match t
    case Long => 2
    case Int => 1
    case _ => 0
  }

  /** Of two signed integer types the one of lesser rank converts to the other (section 6.3.1.8). */
  function UsualType(a: Ty, b: Ty): Ty {
    if Rank(a) < Rank(b) then b else a
  }

  /** The common type of analysis is the standard's: one of the two, and it holds every value of either. */
  lemma CommonIsUsual(a: Ty, b: Ty)
    requires IsArithmetic(a) && IsArithmetic(b)
    ensures Common(a, b) == UsualType(a, b) && (Common(a, b) == a || Common(a, b) == b)
    ensures forall v :: Fits(v, a) || Fits(v, b) ==> Fits(v, Common(a, b))
  {
  }

  /** Static type of a source expression. */
  function TypeIn(r: Raw, sc: Scope): Ty
    decreases r
  {
    match r
    case RInt(_) => Int
    case RLong(_) => Long
    case RName(n) => if sc(n).Some? then sc(n).value.ty else Int
    case RUnary(op, a) => if op.LogNot? then Int else TypeIn(a, sc)
    case RPre(_, a) => TypeIn(a, sc)
    case RPost(_, a) => TypeIn(a, sc)
    case RBinary(op, a, b) =>
      if IsLogical(op) || IsCompare(op) then Int else if IsShift(op) then TypeIn(a, sc) else UsualType(TypeIn(a, sc), TypeIn(b, sc))
    case RAssign(a, _) => TypeIn(a, sc)
    case RCompound(_, a, _) => TypeIn(a, sc)
    case RConditional(_, a, b) =>
      if TypeIn(a, sc).Void? then Void else UsualType(TypeIn(a, sc), TypeIn(b, sc))
    case RCall(f, _) => if TypeIn(f, sc).Function? then TypeIn(f, sc).ret else Int
    case RCast(t, _) => t
  }

  datatype Value = Undefined | Value(v: int, st: Store)
  datatype Values = UndefinedArgs | Values(vs: seq<int>, st: Store)

  /** Value of an expression of arithmetic type after conversion to 'to'. */
  function As(v: int, r: Raw, to: Ty, sc: Scope): int {
    ConvertFrom(v, TypeIn(r, sc), to)
  }

  /** Value semantics of the source, with the conversions of each operator written out (sections 6.3.1.8,
      6.5.2.2, 6.5.7, 6.5.15 and 6.5.16 of ISO/IEC 9899:2011). */
  function Meaning(r: Raw, sc: Scope, m: Store, callees: Callees): Value
    decreases r, 1
  {
    match r
    case RInt(v) => Value(v, m)
    case RLong(v) => Value(v, m)
    case RName(n) => if sc(n).None? then Undefined else Value(ReadSym(m, sc(n).value), m)
    case RUnary(op, a) =>
      var x := Meaning(a, sc, m, callees);
      if x.Undefined? then Undefined else Value(UnaryValue(op, x.v, WidthOf(TypeIn(a, sc))), x.st)
    case RPre(inc, a) => StepMeaning(true, inc, a, sc, m)
    case RPost(inc, a) => StepMeaning(false, inc, a, sc, m)
    case RBinary(op, a, b) =>
      var x := Meaning(a, sc, m, callees);
      if x.Undefined? then Undefined
      else if IsLogical(op) && (x.v == 0) == op.LogAnd? then Value(Truth(op.LogOr?), x.st)
      else
        var y := Meaning(b, sc, x.st, callees);
        if y.Undefined? then Undefined
        else if IsLogical(op) then Value(Truth(y.v != 0), y.st)
        else
          var common := UsualType(TypeIn(a, sc), TypeIn(b, sc));
          var v := if IsShift(op) then BinaryValue(op, x.v, y.v, WidthOf(TypeIn(a, sc)))
                   else BinaryValue(op, As(x.v, a, common, sc), As(y.v, b, common, sc), WidthOf(common));
          if v.None? then Undefined else Value(v.value, y.st)
    case RAssign(a, b) =>
      var y := Meaning(b, sc, m, callees);
      if y.Undefined? || !a.RName? || sc(a.name).None? then Undefined else
      var v := As(y.v, b, TypeIn(a, sc), sc);
      var st := WriteSym(y.st, sc(a.name).value, v);
      Value(ReadSym(st, sc(a.name).value), st)
    case RCompound(op, a, b) =>
      if !a.RName? || sc(a.name).None? then Undefined else
      var s := sc(a.name).value;
      var y := Meaning(b, sc, m, callees);
      if y.Undefined? then Undefined else
      var common := if IsShift(op) then s.ty else UsualType(s.ty, TypeIn(b, sc));
      var right := if IsShift(op) then y.v else As(y.v, b, common, sc);
      var v := BinaryValue(op, ConvertFrom(ReadSym(m, s), s.ty, common), right, WidthOf(common));
      if v.None? then Undefined else
      var st := WriteSym(y.st, s, ConvertFrom(v.value, common, s.ty));
      Value(ReadSym(st, s), st)
    case RConditional(c, a, b) =>
      var x := Meaning(c, sc, m, callees);
      if x.Undefined? then Undefined else
      var chosen := if x.v != 0 then a else b;
      var y := Meaning(chosen, sc, x.st, callees);
      if y.Undefined? then Undefined
      else Value(if TypeIn(r, sc).Void? then 0 else As(y.v, chosen, TypeIn(r, sc), sc), y.st)
    case RCall(f, args) =>
      if !f.RName? || sc(f.name).None? || !sc(f.name).value.ty.Function? then Undefined else
      var s := sc(f.name).value;
      var xs := MeaningArgs(args, s.ty.params, sc, m, callees);
      if xs.UndefinedArgs? then Undefined else
      var c := DoCall(xs.st, s.id, xs.vs, callees);
      if c.None? then Undefined else Value(if s.ty.ret.Void? then 0 else c.value.0, c.value.1)
    case RCast(t, a) =>
      var x := Meaning(a, sc, m, callees);
      if x.Undefined? then Undefined else Value(if t.Void? then 0 else As(x.v, a, t, sc), x.st)
  }

  function StepMeaning(prefix: bool, inc: bool, a: Raw, sc: Scope, m: Store): Value {
    if !a.RName? || sc(a.name).None? then Undefined else
    var s := sc(a.name).value;
    var was := ReadSym(m, s);
    var st := WriteSym(m, s, Wrap(if inc then was + 1 else was - 1, WidthOf(s.ty)));
    Value(if prefix then ReadSym(st, s) else was, st)
  }

  function MeaningArgs(args: seq<Raw>, params: seq<Ty>, sc: Scope, m: Store, callees: Callees): Values
    decreases args, 0
  {
    if |args| != |params| then UndefinedArgs
    else if args == [] then Values([], m)
    else
      var x := Meaning(args[0], sc, m, callees);
      if x.Undefined? then UndefinedArgs else
      var rest := MeaningArgs(args[1..], params[1..], sc, x.st, callees);
      if rest.UndefinedArgs? then UndefinedArgs
      else Values([As(x.v, args[0], params[0], sc)] + rest.vs, rest.st)
  }

  /** Analysis computes the static type, and names keep their place. */
  lemma {:induction false} AnalyzedType(r: Raw, sc: Scope)
    requires Analyze(r, sc).Some?
    ensures Analyze(r, sc).value.ty == TypeIn(r, sc)
    ensures Analyze(r, sc).value.e.Ident? ==> r.RName? && sc(r.name) == Some(Analyze(r, sc).value.e.sym)
    decreases r
  {
    hide AnalyzeArgs, ConvertTo;
    match r
    case RInt(_) =>
    case RLong(_) =>
    case RName(_) =>
    case RUnary(_, a) => AnalyzedType(a, sc);
    case RPre(_, a) => AnalyzedType(a, sc);
    case RPost(_, a) => AnalyzedType(a, sc);
    case RBinary(_, a, b) => AnalyzedType(a, sc); AnalyzedType(b, sc); CommonIsUsual(TypeIn(a, sc), TypeIn(b, sc));
    case RAssign(a, b) => AnalyzedType(a, sc);
    case RCompound(_, a, b) => AnalyzedType(a, sc);
    case RConditional(_, a, b) =>
      AnalyzedType(a, sc);
      AnalyzedType(b, sc);
      if IsArithmetic(TypeIn(a, sc)) { CommonIsUsual(TypeIn(a, sc), TypeIn(b, sc)); }
    case RCall(f, _) => AnalyzedType(f, sc);
    case RCast(_, _) =>
  }

  /** The name of an object, which is what an lvalue of the language is. */
  predicate IsObject(r: Raw, sc: Scope) {
    r.RName? && sc(r.name).Some? && !sc(r.name).value.ty.Function?
  }

  /** The constraints of sections 6.5.1 to 6.5.16 on an expression, but for the condition of '?:' and the operand of
      a cast, which the compiler does not check. */
  predicate Legal(r: Raw, sc: Scope)
    decreases r, 1
  {
    match r
    case RInt(_) => true
    case RLong(_) => true
    case RName(n) => sc(n).Some?
    case RUnary(_, a) => Legal(a, sc) && IsArithmetic(TypeIn(a, sc))
    case RPre(_, a) => IsObject(a, sc)
    case RPost(_, a) => IsObject(a, sc)
    case RBinary(_, a, b) => Legal(a, sc) && Legal(b, sc) && IsArithmetic(TypeIn(a, sc)) && IsArithmetic(TypeIn(b, sc))
    case RAssign(a, b) => IsObject(a, sc) && !TypeIn(a, sc).Void? && Legal(b, sc) && IsArithmetic(TypeIn(b, sc))
    case RCompound(_, a, b) => IsObject(a, sc) && !TypeIn(a, sc).Void? && Legal(b, sc) && IsArithmetic(TypeIn(b, sc))
    case RConditional(c, a, b) =>
      && Legal(c, sc) && Legal(a, sc) && Legal(b, sc)
      && ((IsArithmetic(TypeIn(a, sc)) && IsArithmetic(TypeIn(b, sc))) || (TypeIn(a, sc).Void? && TypeIn(b, sc).Void?))
    case RCall(f, args) =>
      f.RName? && sc(f.name).Some? && sc(f.name).value.ty.Function? && |args| == |sc(f.name).value.ty.params| && LegalArgs(args, sc)
    case RCast(_, a) => Legal(a, sc)
  }

  predicate LegalArgs(args: seq<Raw>, sc: Scope)
    decreases args, 0
  {
    args == [] || (Legal(args[0], sc) && IsArithmetic(TypeIn(args[0], sc)) && LegalArgs(args[1..], sc))
  }

  lemma ObjectIs(r: Raw, sc: Scope)
    ensures Analyze(r, sc).Some? && Analyze(r, sc).value.lvalue <==> IsObject(r, sc)
    ensures Analyze(r, sc).Some? && Analyze(r, sc).value.e.Ident? ==> r.RName?
  {
    hide AnalyzeArgs;
  }

  /** Analysis accepts an expression exactly if it meets the constraints. */
  lemma {:induction false} LegalAccepted(r: Raw, sc: Scope)
    ensures Analyze(r, sc).Some? <==> Legal(r, sc)
    decreases r, 1
  {
    hide AnalyzeArgs, ConvertTo, Common, LegalArgs, TypeIn;
    match r
    case RUnary(_, a) => LegalAccepted(a, sc); PartTyped(a, sc);
    case RPre(_, a) => ObjectIs(a, sc);
    case RPost(_, a) => ObjectIs(a, sc);
    case RBinary(_, a, b) => LegalAccepted(a, sc); LegalAccepted(b, sc); PartTyped(a, sc); PartTyped(b, sc);
    case RAssign(a, b) => ObjectIs(a, sc); LegalAccepted(b, sc); PartTyped(a, sc); PartTyped(b, sc);
    case RCompound(_, a, b) => ObjectIs(a, sc); LegalAccepted(b, sc); PartTyped(a, sc); PartTyped(b, sc);
    case RConditional(c, a, b) =>
      LegalAccepted(c, sc);
      LegalAccepted(a, sc);
      LegalAccepted(b, sc);
      PartTyped(a, sc);
      PartTyped(b, sc);
    case RCall(f, args) =>
      ObjectIs(f, sc);
      if f.RName? && sc(f.name).Some? && sc(f.name).value.ty.Function? { ArgsAccepted(args, sc(f.name).value.ty.params, sc); }
    case RCast(_, a) => LegalAccepted(a, sc);
    case _ =>
  }

  lemma PartTyped(r: Raw, sc: Scope)
    ensures Analyze(r, sc).Some? ==> Analyze(r, sc).value.ty == TypeIn(r, sc)
  {
    hide Analyze, TypeIn;
    if Analyze(r, sc).Some? { AnalyzedType(r, sc); }
  }

  lemma {:induction false} ArgsAccepted(args: seq<Raw>, params: seq<Ty>, sc: Scope)
    ensures AnalyzeArgs(args, params, sc).Some? <==> |args| == |params| && LegalArgs(args, sc)
    decreases args, 0
  {
    hide ConvertTo, Analyze, Legal, TypeIn;
    if args != [] && |args| == |params| {
      LegalAccepted(args[0], sc);
      PartTyped(args[0], sc);
      ArgsAccepted(args[1..], params[1..], sc);
    }
  }

  /** Evaluation as the analysed expression gives it. */
  ghost predicate Same(x: Value, r: Result) {
    if r.Stuck? then x.Undefined? else x == Value(Read(r.o, r.st), r.st)
  }

  lemma ConvertMeans(t: Typed, target: Ty, m: Store, callees: Callees)
    requires IsArithmetic(target) && TypeOf(t.e) == t.ty
    ensures var r, q := Eval(t.e, m, true, callees), Eval(ConvertTo(t, target), m, true, callees);
            if r.Stuck? then q.Stuck? else q.Ok? && q.st == r.st && Read(q.o, q.st) == ConvertFrom(Read(r.o, r.st), t.ty, target)
  {
    hide Eval;
    CompatibleIsSame(t.ty, target);
    if t.ty != target { CastEval(t.e, target, m, callees); }
  }

  lemma CastEval(e: Expr, t: Ty, m: Store, callees: Callees)
    ensures var r := Eval(e, m, true, callees);
            Eval(Cast(t, e), m, true, callees) ==
            if r.Stuck? then r else if t.Void? then Ok(Val(0), r.st) else if TypeOf(e) == t then r
            else Ok(Val(Convert(Read(r.o, r.st), t)), r.st)
  {
  }

  /** Conversion insertion preserves meaning. */
  lemma {:induction false} AnalyzeMeans(r: Raw, sc: Scope, m: Store, callees: Callees)
    requires Analyze(r, sc).Some? && WellTyped(Analyze(r, sc).value.e)
    ensures Same(Meaning(r, sc, m, callees), Eval(Analyze(r, sc).value.e, m, true, callees))
    decreases r, 1
  {
    hide Eval, Meaning, Analyze, Same;
    match r
    case RUnary(_, _) => UnaryMeans(r, sc, m, callees);
    case RPre(_, _) => StepMeans(r, sc, m, callees);
    case RPost(_, _) => StepMeans(r, sc, m, callees);
    case RBinary(_, _, _) => BinaryMeans(r, sc, m, callees);
    case RAssign(_, _) => AssignMeans(r, sc, m, callees);
    case RCompound(_, _, _) => CompoundMeans(r, sc, m, callees);
    case RConditional(_, _, _) => ConditionalMeans(r, sc, m, callees);
    case RCall(_, _) => CallMeans(r, sc, m, callees);
    case RCast(_, _) => CastMeans(r, sc, m, callees);
    case _ => LeafMeans(r, sc, m, callees);
  }

  lemma LeafMeans(r: Raw, sc: Scope, m: Store, callees: Callees)
    requires (r.RInt? || r.RLong? || r.RName?) && Analyze(r, sc).Some? && WellTyped(Analyze(r, sc).value.e)
    ensures Same(Meaning(r, sc, m, callees), Eval(Analyze(r, sc).value.e, m, true, callees))
  {
  }

  lemma StepMeans(r: Raw, sc: Scope, m: Store, callees: Callees)
    requires (r.RPre? || r.RPost?) && Analyze(r, sc).Some? && WellTyped(Analyze(r, sc).value.e)
    ensures Same(Meaning(r, sc, m, callees), Eval(Analyze(r, sc).value.e, m, true, callees))
  {
    hide Wrap;
    AnalyzedType(r.operand, sc);
    LvalueIsName(r.operand, sc);
  }

  lemma {:induction false} CastMeans(r: Raw, sc: Scope, m: Store, callees: Callees)
    requires r.RCast? && Analyze(r, sc).Some? && WellTyped(Analyze(r, sc).value.e)
    ensures Same(Meaning(r, sc, m, callees), Eval(Analyze(r, sc).value.e, m, true, callees))
    decreases r, 0
  {
    hide Wrap;
    AnalyzeMeans(r.operand, sc, m, callees);
    AnalyzedType(r.operand, sc);
    TypesAgree(r.operand, sc);
  }

  lemma {:induction false} UnaryMeans(r: Raw, sc: Scope, m: Store, callees: Callees)
    requires r.RUnary? && Analyze(r, sc).Some? && WellTyped(Analyze(r, sc).value.e)
    ensures Same(Meaning(r, sc, m, callees), Eval(Analyze(r, sc).value.e, m, true, callees))
    decreases r, 0
  {
    hide Wrap;
    AnalyzeMeans(r.operand, sc, m, callees);
    AnalyzedType(r.operand, sc);
  }

  lemma {:induction false} TypesAgree(r: Raw, sc: Scope)
    requires Analyze(r, sc).Some?
    ensures TypeOf(Analyze(r, sc).value.e) == Analyze(r, sc).value.ty
    decreases r
  {
    hide AnalyzeArgs, Compatible;
    match r
    case RPre(_, a) => TypesAgree(a, sc);
    case RPost(_, a) => TypesAgree(a, sc);
    case RAssign(a, _) => TypesAgree(a, sc);
    case RCompound(_, a, _) => TypesAgree(a, sc);
    case _ =>
  }

  lemma UnfoldBinary(e: Expr, m: Store, callees: Callees)
    requires e.Binary?
    ensures var l := Eval(e.left, m, true, callees);
            Eval(e, m, true, callees) ==
            if l.Stuck? then Stuck
            else if IsLogical(e.bop) && (Read(l.o, l.st) == 0) == e.bop.LogAnd? then Ok(Val(Truth(e.bop.LogOr?)), l.st)
            else
              var q := Eval(e.right, l.st, true, callees);
              if q.Stuck? then Stuck
              else if IsLogical(e.bop) then Ok(Val(Truth(Read(q.o, q.st) != 0)), q.st)
              else
                var v := BinaryValue(e.bop, Read(l.o, q.st), Read(q.o, q.st), WidthOf(if IsCompare(e.bop) then TypeOf(e.left) else e.ty));
                if v.None? then Stuck else Ok(Val(v.value), q.st)
  {
    hide BinaryValue;
  }

  /** Under value semantics an evaluated operand is a value. */
  lemma {:induction false} EvalIsValue(e: Expr, m: Store, callees: Callees)
    requires Eval(e, m, true, callees).Ok?
    ensures Eval(e, m, true, callees).o.Val?
    decreases e
  {
    hide BinaryValue, UnaryValue, EvalArgs;
    match e
    case Unary(_, a, _) => EvalIsValue(a, m, callees);
    case Cast(_, a) => EvalIsValue(a, m, callees);
    case _ =>
  }

  lemma {:induction false} BinaryMeans(r: Raw, sc: Scope, m: Store, callees: Callees)
    requires r.RBinary? && Analyze(r, sc).Some? && WellTyped(Analyze(r, sc).value.e)
    ensures Same(Meaning(r, sc, m, callees), Eval(Analyze(r, sc).value.e, m, true, callees))
    decreases r, 0
  {
    hide BinaryValue, Compatible, Eval, ConvertTo, Common, UsualType;
    var a, b, e := Analyze(r.left, sc).value, Analyze(r.right, sc).value, Analyze(r, sc).value.e;
    var common := Common(a.ty, b.ty);
    AnalyzedType(r.left, sc);
    AnalyzedType(r.right, sc);
    TypesAgree(r.left, sc);
    TypesAgree(r.right, sc);
    CommonIsUsual(a.ty, b.ty);
    ConvertGoodParts(a, common);
    ConvertGoodParts(b, common);
    AnalyzeMeans(r.left, sc, m, callees);
    UnfoldBinary(e, m, callees);
    ConvertMeans(a, common, m, callees);
    var l := Eval(e.left, m, true, callees);
    if l.Ok? {
      EvalIsValue(e.left, m, callees);
      AnalyzeMeans(r.right, sc, l.st, callees);
      ConvertMeans(b, common, l.st, callees);
    }
  }

  lemma ConvertGoodParts(t: Typed, target: Ty)
    requires TypeOf(t.e) == t.ty
    ensures WellTyped(ConvertTo(t, target)) ==> WellTyped(t.e)
    ensures TypeOf(ConvertTo(t, target)) == target
  {
    CompatibleIsSame(t.ty, target);
  }

  lemma {:induction false} AssignMeans(r: Raw, sc: Scope, m: Store, callees: Callees)
    requires r.RAssign? && Analyze(r, sc).Some? && WellTyped(Analyze(r, sc).value.e)
    ensures Same(Meaning(r, sc, m, callees), Eval(Analyze(r, sc).value.e, m, true, callees))
    decreases r, 0
  {
    hide Compatible, ConvertTo;
    var a, b := Analyze(r.left, sc).value, Analyze(r.right, sc).value;
    AnalyzedType(r.left, sc);
    AnalyzedType(r.right, sc);
    TypesAgree(r.right, sc);
    ConvertGoodParts(b, a.ty);
    AnalyzeMeans(r.right, sc, m, callees);
    ConvertMeans(b, a.ty, m, callees);
  }

  lemma {:induction false} CompoundMeans(r: Raw, sc: Scope, m: Store, callees: Callees)
    requires r.RCompound? && Analyze(r, sc).Some? && WellTyped(Analyze(r, sc).value.e)
    ensures Same(Meaning(r, sc, m, callees), Eval(Analyze(r, sc).value.e, m, true, callees))
    decreases r, 0
  {
    hide Compatible, ConvertTo, BinaryValue;
    var a, b := Analyze(r.left, sc).value, Analyze(r.right, sc).value;
    AnalyzedType(r.left, sc);
    AnalyzedType(r.right, sc);
    TypesAgree(r.right, sc);
    ConvertGoodParts(b, Common(a.ty, b.ty));
    AnalyzeMeans(r.right, sc, m, callees);
    ConvertMeans(b, Common(a.ty, b.ty), m, callees);
  }

  /** An arm of '?:' whose value is used. */
  lemma ArmMeans(x: Raw, sc: Scope, common: Ty, m: Store, callees: Callees)
    requires Analyze(x, sc).Some? && IsArithmetic(common) && TypeOf(Analyze(x, sc).value.e) == Analyze(x, sc).value.ty == TypeIn(x, sc)
    requires Same(Meaning(x, sc, m, callees), Eval(Analyze(x, sc).value.e, m, true, callees))
    ensures var y, q := Meaning(x, sc, m, callees), Eval(ConvertTo(Analyze(x, sc).value, common), m, true, callees);
            if y.Undefined? then q.Stuck? else q.Ok? && q.st == y.st && Read(q.o, q.st) == As(y.v, x, common, sc)
  {
    hide Analyze, Meaning, Eval, ConvertTo;
    ConvertMeans(Analyze(x, sc).value, common, m, callees);
  }

  lemma {:induction false} ConditionalMeans(r: Raw, sc: Scope, m: Store, callees: Callees)
    requires r.RConditional? && Analyze(r, sc).Some? && WellTyped(Analyze(r, sc).value.e)
    ensures Same(Meaning(r, sc, m, callees), Eval(Analyze(r, sc).value.e, m, true, callees))
    decreases r, 0
  {
    hide Compatible, ConvertTo, ConvertFrom;
    var a, b := Analyze(r.thn, sc).value, Analyze(r.els, sc).value;
    var common := Common(a.ty, b.ty);
    AnalyzedType(r.thn, sc);
    AnalyzedType(r.els, sc);
    TypesAgree(r.thn, sc);
    TypesAgree(r.els, sc);
    ConvertGoodParts(a, common);
    ConvertGoodParts(b, common);
    AnalyzeMeans(r.cond, sc, m, callees);
    var c := Eval(Analyze(r.cond, sc).value.e, m, true, callees);
    if c.Ok? {
      var x := if Read(c.o, c.st) != 0 then r.thn else r.els;
      AnalyzeMeans(x, sc, c.st, callees);
      if IsArithmetic(a.ty) { ArmMeans(x, sc, common, c.st, callees); }
    }
  }

  lemma {:induction false} CallMeans(r: Raw, sc: Scope, m: Store, callees: Callees)
    requires r.RCall? && Analyze(r, sc).Some? && WellTyped(Analyze(r, sc).value.e)
    ensures Same(Meaning(r, sc, m, callees), Eval(Analyze(r, sc).value.e, m, true, callees))
    decreases r, 0
  {
    hide Compatible, ConvertTo, AnalyzeArgs;
    AnalyzedType(r.callee, sc);
    ArgsMean(r.args, Analyze(r.callee, sc).value.ty.params, sc, m, callees);
  }

  ghost predicate SameArgs(xs: Values, rs: Results) {
    if rs.StuckArgs? then xs.UndefinedArgs? else xs == Values(ReadAll(rs.os, rs.st), rs.st)
  }

  lemma {:induction false} ArgsMean(args: seq<Raw>, params: seq<Ty>, sc: Scope, m: Store, callees: Callees)
    requires AnalyzeArgs(args, params, sc).Some? && WellTypedArgs(AnalyzeArgs(args, params, sc).value, params)
    ensures SameArgs(MeaningArgs(args, params, sc, m, callees), EvalArgs(AnalyzeArgs(args, params, sc).value, m, true, callees))
    ensures var rs := EvalArgs(AnalyzeArgs(args, params, sc).value, m, true, callees);
            rs.OkArgs? ==> forall k :: 0 <= k < |rs.os| ==> rs.os[k].Val?
    decreases args, 0
  {
    hide Compatible, ConvertTo, Eval, Analyze, Meaning, WellTyped;
    if args != [] {
      var t, xs := Analyze(args[0], sc).value, AnalyzeArgs(args, params, sc).value;
      assert xs[0] == ConvertTo(t, params[0]) && xs[1..] == AnalyzeArgs(args[1..], params[1..], sc).value;
      AnalyzedType(args[0], sc);
      TypesAgree(args[0], sc);
      ConvertGoodParts(t, params[0]);
      AnalyzeMeans(args[0], sc, m, callees);
      ConvertMeans(t, params[0], m, callees);
      var r := Eval(xs[0], m, true, callees);
      if r.Ok? {
        EvalIsValue(xs[0], m, callees);
        ArgsMean(args[1..], params[1..], sc, r.st, callees);
      }
    }
  }
}
