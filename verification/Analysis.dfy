/** Analysis of expressions: names are resolved, operand types checked, and implicit conversions
    become casts. */
module Analysis {
  import opened Arith
  import opened Ast
  import opened Syntax
  import opened ExprProof
  import opened Frames
  import opened Typing
  import opened Folding

  /** Compares types structurally; parameters in order. */
  function Compatible(a: Ty, b: Ty): bool
    decreases a, 1
  {
    match (a, b)
    case (Void, Void) => true
    case (Int, Int) => true
    case (Long, Long) => true
    case (Function(r, ps), Function(q, qs)) => Compatible(r, q) && |ps| == |qs| && CompatibleAll(ps, qs)
    case _ => false
  }

  function CompatibleAll(ps: seq<Ty>, qs: seq<Ty>): bool
    requires |ps| == |qs|
    decreases ps, 0
  {
    ps == [] || (Compatible(ps[0], qs[0]) && CompatibleAll(ps[1..], qs[1..]))
  }

  /** Types are compatible exactly when they are the same. */
  lemma {:induction false} CompatibleIsSame(a: Ty, b: Ty)
    ensures Compatible(a, b) <==> a == b
    decreases a, 1
  {
    if a.Function? && b.Function? {
      CompatibleIsSame(a.ret, b.ret);
      if |a.params| == |b.params| { CompatibleAllIsSame(a.params, b.params); }
    }
  }

  lemma {:induction false} CompatibleAllIsSame(ps: seq<Ty>, qs: seq<Ty>)
    requires |ps| == |qs|
    ensures CompatibleAll(ps, qs) <==> ps == qs
    decreases ps, 0
  {
    if ps != [] {
      CompatibleIsSame(ps[0], qs[0]);
      CompatibleAllIsSame(ps[1..], qs[1..]);
      assert ps == [ps[0]] + ps[1..] && qs == [qs[0]] + qs[1..];
    }
  }

  /** The usual arithmetic conversions. */
  function Common(a: Ty, b: Ty): Ty {
    if a == b then a else Long
  }

  type Scope = string -> Option<Symbol>

  datatype Typed = Typed(e: Expr, ty: Ty, lvalue: bool)

  function ConvertTo(t: Typed, target: Ty): Expr {
    if Compatible(t.ty, target) then t.e else Cast(target, t.e)
  }

  /** None: an error was reported. Conditions of '?:' and operands of casts are not checked. */
  function Analyze(r: Raw, sc: Scope): Option<Typed>
    decreases r, 1
  {
    match r
    case RInt(v) => Some(Typed(IntConst(v), Int, false))
    case RLong(v) => Some(Typed(LongConst(v), Long, false))
    case RName(n) =>
      var s := sc(n);
      if s.None? then None else Some(Typed(Ident(s.value), s.value.ty, !s.value.ty.Function?))
    case RUnary(op, a) =>
      var t := Analyze(a, sc);
      if t.None? || !IsArithmetic(t.value.ty) then None else
      var ty := if op.LogNot? then Int else t.value.ty;
      Some(Typed(Unary(op, t.value.e, ty), ty, false))
    case RPre(inc, a) => AnalyzeStep(true, inc, Analyze(a, sc))
    case RPost(inc, a) => AnalyzeStep(false, inc, Analyze(a, sc))
    case RBinary(op, a, b) =>
      var l, r := Analyze(a, sc), Analyze(b, sc);
      if l.None? || r.None? || !IsArithmetic(l.value.ty) || !IsArithmetic(r.value.ty) then None else
      var common := Common(l.value.ty, r.value.ty);
      if IsLogical(op) then Some(Typed(Binary(op, l.value.e, r.value.e, Int), Int, false))
      else if IsShift(op) then Some(Typed(Binary(op, l.value.e, r.value.e, l.value.ty), l.value.ty, false))
      else
        var ty := if IsCompare(op) then Int else common;
        Some(Typed(Binary(op, ConvertTo(l.value, common), ConvertTo(r.value, common), ty), ty, false))
    case RAssign(a, b) =>
      var l, r := Analyze(a, sc), Analyze(b, sc);
      if !Assignable(l) || r.None? || !IsArithmetic(r.value.ty) then None
      else Some(Typed(Assign(l.value.e.sym, ConvertTo(r.value, l.value.ty)), l.value.ty, false))
    case RCompound(op, a, b) =>
      var l, r := Analyze(a, sc), Analyze(b, sc);
      if !Assignable(l) || r.None? || !IsArithmetic(r.value.ty) then None
      else if IsShift(op) then Some(Typed(Compound(op, l.value.ty, l.value.e.sym, r.value.e), l.value.ty, false))
      else
        var common := Common(l.value.ty, r.value.ty);
        Some(Typed(Compound(op, common, l.value.e.sym, ConvertTo(r.value, common)), l.value.ty, false))
    case RConditional(c, a, b) =>
      var t, l, r := Analyze(c, sc), Analyze(a, sc), Analyze(b, sc);
      if t.None? || l.None? || r.None? then None
      else if IsArithmetic(l.value.ty) && IsArithmetic(r.value.ty) then
        var common := Common(l.value.ty, r.value.ty);
        Some(Typed(Conditional(t.value.e, ConvertTo(l.value, common), ConvertTo(r.value, common), common), common, false))
      else if l.value.ty.Void? && r.value.ty.Void? then
        Some(Typed(Conditional(t.value.e, l.value.e, r.value.e, Void), Void, false))
      else None
    case RCall(f, args) =>
      var t := Analyze(f, sc);
      if t.None? || !t.value.ty.Function? || !t.value.e.Ident? then None else
      var xs := AnalyzeArgs(args, t.value.ty.params, sc);
      if xs.None? then None
      else Some(Typed(Call(t.value.e.sym.id, t.value.ty.params, xs.value, t.value.ty.ret), t.value.ty.ret, false))
    case RCast(ty, a) =>
      var t := Analyze(a, sc);
      if t.None? then None else Some(Typed(Cast(ty, t.value.e), ty, false))
  }

  function AnalyzeStep(prefix: bool, inc: bool, t: Option<Typed>): Option<Typed> {
    if t.None? || !t.value.lvalue || !t.value.e.Ident? then None
    else Some(Typed(IncDec(prefix, inc, t.value.e.sym), t.value.ty, false))
  }

  predicate Assignable(t: Option<Typed>) {
    t.Some? && t.value.lvalue && t.value.e.Ident? && !t.value.ty.Function? && !t.value.ty.Void?
  }

  /** Arguments are converted to the parameter types in order; their number must match. */
  function AnalyzeArgs(args: seq<Raw>, params: seq<Ty>, sc: Scope): (xs: Option<seq<Expr>>)
    ensures xs.Some? ==> |xs.value| == |args| == |params|
    decreases args, 0
  {
    if |args| != |params| then None
    else if args == [] then Some([])
    else
      var t, rest := Analyze(args[0], sc), AnalyzeArgs(args[1..], params[1..], sc);
      if t.None? || rest.None? || !IsArithmetic(t.value.ty) then None
      else Some([ConvertTo(t.value, params[0])] + rest.value)
  }

  /** Every lvalue is the name of an object. */
  lemma LvalueIsName(r: Raw, sc: Scope)
    requires Analyze(r, sc).Some? && Analyze(r, sc).value.lvalue
    ensures Analyze(r, sc).value.e.Ident? && !Analyze(r, sc).value.e.sym.ty.Function?
  {
    hide AnalyzeArgs;
  }

  /** What analysis leaves unchecked: conditions of '?:' and operands of casts to a scalar type are arithmetic. */
  predicate UsesOk(e: Expr)
    decreases e, 1
  {
    match e
    case IntConst(_) => true
    case LongConst(_) => true
    case Ident(_) => true
    case Unary(_, a, _) => UsesOk(a)
    case Binary(_, a, b, _) => UsesOk(a) && UsesOk(b)
    case IncDec(_, _, _) => true
    case Assign(_, a) => UsesOk(a)
    case Compound(_, _, _, a) => UsesOk(a)
    case Conditional(c, a, b, _) => IsArithmetic(TypeOf(c)) && UsesOk(c) && UsesOk(a) && UsesOk(b)
    case Call(_, _, args, _) => ArgUsesOk(args)
    case Cast(t, a) => UsesOk(a) && (t.Void? || (IsArithmetic(t) && IsArithmetic(TypeOf(a))))
  }

  predicate ArgUsesOk(args: seq<Expr>)
    decreases args, 0
  {
    args == [] || (UsesOk(args[0]) && ArgUsesOk(args[1..]))
  }

  /** Names stand for objects of 'g' numbered below 'np', or for functions declared there. */
  ghost predicate ScopeOk(sc: Scope, g: Types, np: nat) {
    forall n :: sc(n).Some? ==> SymbolOk(sc(n).value, g, np)
  }

  predicate SymbolOk(s: Symbol, g: Types, np: nat) {
    match s.ty
    case Function(ret, params) =>
      && s.isStatic && s.id in g.params && g.params[s.id] == params && s.id in g.ret && g.ret[s.id] == ret
      && (IsArithmetic(ret) || ret.Void?) && forall k :: 0 <= k < |params| ==> IsArithmetic(params[k])
    case _ => IsArithmetic(s.ty) && SymTyped(g, s) && Below(s, np)
  }

  /** What the parser guarantees: literals have the type of their form, compound assignments an
      arithmetic operator. */
  predicate Parsed(r: Raw)
    decreases r, 1
  {
    match r
    case RInt(v) => Fits(v, Int)
    case RLong(v) => Fits(v, Long)
    case RName(_) => true
    case RBinary(_, a, b) => Parsed(a) && Parsed(b)
    case RAssign(a, b) => Parsed(a) && Parsed(b)
    case RCompound(op, a, b) => Parsed(a) && Parsed(b) && !IsLogical(op) && !IsCompare(op)
    case RConditional(c, a, b) => Parsed(c) && Parsed(a) && Parsed(b)
    case RCall(f, args) => Parsed(f) && ParsedArgs(args)
    case _ => Parsed(r.operand)
  }

  predicate ParsedArgs(args: seq<Raw>)
    decreases args, 0
  {
    args == [] || (Parsed(args[0]) && ParsedArgs(args[1..]))
  }

  /** What the back half of the compiler asks of an expression. */
  predicate Good(e: Expr, g: Types, np: nat) {
    WellTyped(e) && ExprTyped(g, e) && VarsBelow(e, np)
  }

  lemma ConvertGood(t: Typed, target: Ty, g: Types, np: nat)
    requires IsArithmetic(target) && IsArithmetic(t.ty) && TypeOf(t.e) == t.ty
    ensures TypeOf(ConvertTo(t, target)) == target
    ensures UsesOk(ConvertTo(t, target)) <==> UsesOk(t.e)
    ensures Good(ConvertTo(t, target), g, np) <==> Good(t.e, g, np)
  {
    CompatibleIsSame(t.ty, target);
  }

  lemma {:induction false} GoodUses(e: Expr)
    requires WellTyped(e)
    ensures UsesOk(e)
    decreases e, 1
  {
    match e
    case Unary(_, a, _) => GoodUses(a);
    case Binary(_, a, b, _) => GoodUses(a); GoodUses(b);
    case Assign(_, a) => GoodUses(a);
    case Compound(_, _, _, a) => GoodUses(a);
    case Conditional(c, a, b, _) => GoodUses(c); GoodUses(a); GoodUses(b);
    case Call(_, params, args, _) => GoodArgUses(args, params);
    case Cast(_, a) => GoodUses(a);
    case _ =>
  }

  lemma {:induction false} GoodArgUses(args: seq<Expr>, params: seq<Ty>)
    requires WellTypedArgs(args, params)
    ensures ArgUsesOk(args)
    decreases args, 0
  {
    if args != [] {
      GoodUses(args[0]);
      GoodArgUses(args[1..], params[1..]);
    }
  }

  /** Conversion insertion is type sound: an expression analysed without error is well typed if and
      only if the uses that analysis leaves unchecked are arithmetic. */
  lemma {:induction false} AnalyzeSound(r: Raw, sc: Scope, g: Types, np: nat)
    requires ScopeOk(sc, g, np) && Parsed(r) && Analyze(r, sc).Some?
    ensures var t := Analyze(r, sc).value;
            && TypeOf(t.e) == t.ty && (WellTyped(t.e) <==> UsesOk(t.e))
            && (UsesOk(t.e) ==> ExprTyped(g, t.e) && VarsBelow(t.e, np))
            && (t.e.Ident? ==> SymbolOk(t.e.sym, g, np))
    decreases r, 1
  {
    hide ScopeOk, SymbolOk, AnalyzeArgs, Compatible;
    match r
    case RInt(_) =>
    case RLong(_) =>
    case RName(n) => NameSound(n, sc, g, np);
    case RUnary(_, a) => AnalyzeSound(a, sc, g, np);
    case RPre(_, a) => StepSound(r, sc, g, np);
    case RPost(_, a) => StepSound(r, sc, g, np);
    case RBinary(_, _, _) => BinarySound(r, sc, g, np);
    case RAssign(_, _) => AssignSound(r, sc, g, np);
    case RCompound(_, _, _) => AssignSound(r, sc, g, np);
    case RConditional(_, _, _) => ConditionalSound(r, sc, g, np);
    case RCall(_, _) => CallSound(r, sc, g, np);
    case RCast(_, a) => AnalyzeSound(a, sc, g, np);
  }

  lemma NameSound(n: string, sc: Scope, g: Types, np: nat)
    requires ScopeOk(sc, g, np) && sc(n).Some?
    ensures SymbolOk(sc(n).value, g, np)
    ensures var s := sc(n).value; if s.ty.Function? then s.isStatic else IsArithmetic(s.ty) && SymTyped(g, s) && Below(s, np)
  {
  }

  lemma SymbolIs(s: Symbol, g: Types, np: nat)
    requires SymbolOk(s, g, np) && !s.ty.Function?
    ensures IsArithmetic(s.ty) && SymTyped(g, s) && Below(s, np)
  {
  }

  lemma {:induction false} StepSound(r: Raw, sc: Scope, g: Types, np: nat)
    requires (r.RPre? || r.RPost?) && ScopeOk(sc, g, np) && Parsed(r) && Analyze(r, sc).Some?
    ensures var t := Analyze(r, sc).value;
            TypeOf(t.e) == t.ty && WellTyped(t.e) && UsesOk(t.e) && ExprTyped(g, t.e) && VarsBelow(t.e, np) && !t.e.Ident?
    decreases r, 0
  {
    hide ScopeOk, SymbolOk, AnalyzeArgs, Compatible;
    AnalyzeSound(r.operand, sc, g, np);
    LvalueIsName(r.operand, sc);
    SymbolIs(Analyze(r.operand, sc).value.e.sym, g, np);
  }

  lemma {:induction false} BinarySound(r: Raw, sc: Scope, g: Types, np: nat)
    requires r.RBinary? && ScopeOk(sc, g, np) && Parsed(r) && Analyze(r, sc).Some?
    ensures var t := Analyze(r, sc).value;
            && TypeOf(t.e) == t.ty && (WellTyped(t.e) <==> UsesOk(t.e)) && !t.e.Ident?
            && (UsesOk(t.e) ==> ExprTyped(g, t.e) && VarsBelow(t.e, np))
    decreases r, 0
  {
    hide ScopeOk, SymbolOk, AnalyzeArgs, Compatible;
    AnalyzeSound(r.left, sc, g, np);
    AnalyzeSound(r.right, sc, g, np);
    var a, b := Analyze(r.left, sc).value, Analyze(r.right, sc).value;
    if !IsLogical(r.bop) && !IsShift(r.bop) {
      ConvertGood(a, Common(a.ty, b.ty), g, np);
      ConvertGood(b, Common(a.ty, b.ty), g, np);
      GoodParts(ConvertTo(a, Common(a.ty, b.ty)));
      GoodParts(ConvertTo(b, Common(a.ty, b.ty)));
    }
  }

  lemma GoodParts(e: Expr)
    ensures WellTyped(e) ==> UsesOk(e)
  {
    if WellTyped(e) { GoodUses(e); }
  }

  lemma {:induction false} AssignSound(r: Raw, sc: Scope, g: Types, np: nat)
    requires (r.RAssign? || r.RCompound?) && ScopeOk(sc, g, np) && Parsed(r) && Analyze(r, sc).Some?
    ensures var t := Analyze(r, sc).value;
            && TypeOf(t.e) == t.ty && (WellTyped(t.e) <==> UsesOk(t.e)) && !t.e.Ident?
            && (UsesOk(t.e) ==> ExprTyped(g, t.e) && VarsBelow(t.e, np))
    decreases r, 0
  {
    hide ScopeOk, SymbolOk, AnalyzeArgs, Compatible;
    AnalyzeSound(r.left, sc, g, np);
    AnalyzeSound(r.right, sc, g, np);
    var a, b := Analyze(r.left, sc).value, Analyze(r.right, sc).value;
    SymbolIs(a.e.sym, g, np);
    var target := if r.RAssign? then a.ty else Common(a.ty, b.ty);
    ConvertGood(b, target, g, np);
    GoodParts(ConvertTo(b, target));
  }

  lemma {:induction false} ConditionalSound(r: Raw, sc: Scope, g: Types, np: nat)
    requires r.RConditional? && ScopeOk(sc, g, np) && Parsed(r) && Analyze(r, sc).Some?
    ensures var t := Analyze(r, sc).value;
            && TypeOf(t.e) == t.ty && (WellTyped(t.e) <==> UsesOk(t.e)) && !t.e.Ident?
            && (UsesOk(t.e) ==> ExprTyped(g, t.e) && VarsBelow(t.e, np))
    decreases r, 0
  {
    hide ScopeOk, SymbolOk, AnalyzeArgs, Compatible;
    AnalyzeSound(r.cond, sc, g, np);
    AnalyzeSound(r.thn, sc, g, np);
    AnalyzeSound(r.els, sc, g, np);
    var a, b := Analyze(r.thn, sc).value, Analyze(r.els, sc).value;
    if IsArithmetic(a.ty) && IsArithmetic(b.ty) {
      ConvertGood(a, Common(a.ty, b.ty), g, np);
      ConvertGood(b, Common(a.ty, b.ty), g, np);
      GoodParts(ConvertTo(a, Common(a.ty, b.ty)));
      GoodParts(ConvertTo(b, Common(a.ty, b.ty)));
    }
  }

  lemma {:induction false} CallSound(r: Raw, sc: Scope, g: Types, np: nat)
    requires r.RCall? && ScopeOk(sc, g, np) && Parsed(r) && Analyze(r, sc).Some?
    ensures var t := Analyze(r, sc).value;
            && TypeOf(t.e) == t.ty && (WellTyped(t.e) <==> UsesOk(t.e)) && !t.e.Ident?
            && (UsesOk(t.e) ==> ExprTyped(g, t.e) && VarsBelow(t.e, np))
    decreases r, 0
  {
    hide ScopeOk, AnalyzeArgs, Compatible;
    AnalyzeSound(r.callee, sc, g, np);
    var f := Analyze(r.callee, sc).value;
    ArgsSound(r.args, f.ty.params, sc, g, np);
  }

  lemma {:induction false} ArgsSound(args: seq<Raw>, params: seq<Ty>, sc: Scope, g: Types, np: nat)
    requires ScopeOk(sc, g, np) && ParsedArgs(args) && AnalyzeArgs(args, params, sc).Some?
    requires forall k :: 0 <= k < |params| ==> IsArithmetic(params[k])
    ensures var xs := AnalyzeArgs(args, params, sc).value;
            && (WellTypedArgs(xs, params) <==> ArgUsesOk(xs))
            && (ArgUsesOk(xs) ==> ArgsTyped(g, xs) && ArgsBelow(xs, np))
    decreases args, 0
  {
    hide ScopeOk, SymbolOk, Compatible, WellTyped, UsesOk, ExprTyped, VarsBelow;
    if args != [] {
      AnalyzeSound(args[0], sc, g, np);
      ArgsSound(args[1..], params[1..], sc, g, np);
      ConvertGood(Analyze(args[0], sc).value, params[0], g, np);
      var xs := AnalyzeArgs(args, params, sc).value;
      assert xs[0] == ConvertTo(Analyze(args[0], sc).value, params[0]);
      assert xs[1..] == AnalyzeArgs(args[1..], params[1..], sc).value;
      GoodParts(xs[0]);
    }
  }

  lemma ConvertFoldable(t: Typed, target: Ty)
    requires Foldable(t.e) && TypeOf(t.e) == t.ty
    ensures Foldable(ConvertTo(t, target)) && TypeOf(ConvertTo(t, target)) == target
  {
    CompatibleIsSame(t.ty, target);
  }

  /** Analysed expressions are typed as the folder needs. */
  lemma {:induction false} AnalyzeFoldable(r: Raw, sc: Scope)
    requires Parsed(r) && Analyze(r, sc).Some?
    ensures Foldable(Analyze(r, sc).value.e) && TypeOf(Analyze(r, sc).value.e) == Analyze(r, sc).value.ty
    decreases r
  {
    hide AnalyzeArgs, Compatible, ConvertTo;
    match r
    case RUnary(_, a) => AnalyzeFoldable(a, sc);
    case RPre(_, a) => AnalyzeFoldable(a, sc);
    case RPost(_, a) => AnalyzeFoldable(a, sc);
    case RBinary(_, a, b) =>
      AnalyzeFoldable(a, sc);
      AnalyzeFoldable(b, sc);
      ConvertFoldable(Analyze(a, sc).value, Common(Analyze(a, sc).value.ty, Analyze(b, sc).value.ty));
      ConvertFoldable(Analyze(b, sc).value, Common(Analyze(a, sc).value.ty, Analyze(b, sc).value.ty));
    case RAssign(a, _) => AnalyzeFoldable(a, sc);
    case RCompound(_, a, _) => AnalyzeFoldable(a, sc);
    case RConditional(c, a, b) =>
      AnalyzeFoldable(c, sc);
      AnalyzeFoldable(a, sc);
      AnalyzeFoldable(b, sc);
      ConvertFoldable(Analyze(a, sc).value, Common(Analyze(a, sc).value.ty, Analyze(b, sc).value.ty));
      ConvertFoldable(Analyze(b, sc).value, Common(Analyze(a, sc).value.ty, Analyze(b, sc).value.ty));
    case RCast(_, a) => AnalyzeFoldable(a, sc);
    case _ =>
  }

  /** Analysis accepts a condition of type void, which no code can be right for. */
  lemma VoidCondition(sc: Scope)
    requires sc("f") == Some(Symbol(0, Function(Void, []), true))
    ensures var t := Analyze(RConditional(RCall(RName("f"), []), RInt(1), RInt(2)), sc);
            t.Some? && !WellTyped(t.value.e) && !UsesOk(t.value.e)
  {
    var call := RCall(RName("f"), []);
    assert AnalyzeArgs([], [], sc) == Some([]);
    assert Analyze(call, sc).Some? && Analyze(call, sc).value.ty == Void;
    assert Analyze(RInt(1), sc).value.ty == Int;
  }
}
