/** When fetching an object late gives the value C asks for. The generator hands an object on as
    an operand and reads it when the operation runs, after the code of the other operands. */
module Sequencing {
  import opened Arith
  import opened Ast
  import opened Semantics

  predicate SameObject(a: Symbol, b: Symbol) {
    a.isStatic == b.isStatic && a.id == b.id
  }

  /** The object that the code of 'e' hands on as its operand, if it is not a value. */
  function OperandOf(e: Expr): Option<Symbol> {
    match e
    case Ident(s) => Some(s)
    case Unary(op, a, _) => if op.Plus? then OperandOf(a) else None
    case IncDec(prefix, _, s) => if prefix then Some(s) else None
    case Assign(s, _) => Some(s)
    case Compound(_, _, s, _) => Some(s)
    case Cast(t, a) => if !t.Void? && TypeOf(a) == t then OperandOf(a) else None
    case _ => None
  }

  /** 'e' may change object 'x'; a call may change any static object. */
  predicate Changes(e: Expr, x: Symbol)
    decreases e, 1
  {
    match e
    case IntConst(_) => false
    case LongConst(_) => false
    case Ident(_) => false
    case Unary(_, a, _) => Changes(a, x)
    case Binary(_, a, b, _) => Changes(a, x) || Changes(b, x)
    case IncDec(_, _, s) => SameObject(s, x)
    case Assign(s, a) => SameObject(s, x) || Changes(a, x)
    case Compound(_, _, s, a) => SameObject(s, x) || Changes(a, x)
    case Conditional(c, a, b, _) => Changes(c, x) || Changes(a, x) || Changes(b, x)
    case Call(_, _, args, _) => x.isStatic || ArgsChange(args, x)
    case Cast(_, a) => Changes(a, x)
  }

  predicate ArgsChange(args: seq<Expr>, x: Symbol)
    decreases args, 0
  {
    args != [] && (Changes(args[0], x) || ArgsChange(args[1..], x))
  }

  /** No operand is an object that a later operand of the same operation changes. */
  predicate NoConflict(e: Expr)
    decreases e, 1
  {
    match e
    case Unary(_, a, _) => NoConflict(a)
    case Binary(op, a, b, _) =>
      && NoConflict(a) && NoConflict(b)
      && (!IsLogical(op) && OperandOf(a).Some? ==> !Changes(b, OperandOf(a).value))
    case Assign(_, a) => NoConflict(a)
    case Compound(_, _, s, a) => NoConflict(a) && !Changes(a, s)
    case Conditional(c, a, b, _) => NoConflict(c) && NoConflict(a) && NoConflict(b)
    case Call(_, _, args, _) => ArgsNoConflict(args)
    case Cast(_, a) => NoConflict(a)
    case _ => true
  }

  predicate ArgsNoConflict(args: seq<Expr>)
    decreases args, 0
  {
    args == [] ||
    (&& NoConflict(args[0]) && ArgsNoConflict(args[1..])
     && (OperandOf(args[0]).Some? ==> !ArgsChange(args[1..], OperandOf(args[0]).value)))
  }

  /** Evaluation leaves an object it does not change alone. */
  lemma {:induction false} Frame(e: Expr, m: Store, early: bool, callees: Callees, x: Symbol)
    requires !Changes(e, x) && Eval(e, m, early, callees).Ok?
    ensures ReadSym(Eval(e, m, early, callees).st, x) == ReadSym(m, x)
    decreases e, 1
  {
    hide BinaryValue, ConvertFrom, Convert, Wrap, UnaryValue;
    match e
    case Unary(_, a, _) => Frame(a, m, early, callees, x);
    case Binary(op, a, b, _) =>
      Frame(a, m, early, callees, x);
      var l := Eval(a, m, early, callees);
      if !(IsLogical(op) && (Read(l.o, l.st) == 0) == op.LogAnd?) { Frame(b, l.st, early, callees, x); }
    case Assign(_, a) => Frame(a, m, early, callees, x);
    case Compound(_, _, _, a) => Frame(a, m, early, callees, x);
    case Conditional(c, a, b, _) =>
      Frame(c, m, early, callees, x);
      var r := Eval(c, m, early, callees);
      if Read(r.o, r.st) != 0 { Frame(a, r.st, early, callees, x); } else { Frame(b, r.st, early, callees, x); }
    case Call(_, _, args, _) => FrameArgs(args, m, early, callees, x);
    case Cast(_, a) => Frame(a, m, early, callees, x);
    case _ =>
  }

  lemma {:induction false} FrameArgs(args: seq<Expr>, m: Store, early: bool, callees: Callees, x: Symbol)
    requires !ArgsChange(args, x) && EvalArgs(args, m, early, callees).OkArgs?
    ensures ReadSym(EvalArgs(args, m, early, callees).st, x) == ReadSym(m, x)
    decreases args, 0
  {
    if args != [] {
      Frame(args[0], m, early, callees, x);
      FrameArgs(args[1..], Eval(args[0], m, early, callees).st, early, callees, x);
    }
  }

  /** Late evaluation 'l' agrees with early evaluation 'v' of 'e'. */
  ghost predicate Matches(e: Expr, v: Result, l: Result) {
    && v.Stuck? == l.Stuck?
    && (v.Ok? ==> && v.o.Val? && v.st == l.st && Read(l.o, l.st) == v.o.v
                  && (l.o.Var? ==> OperandOf(e) == Some(l.o.sym)))
  }

  lemma ReadLater(e: Expr, l: Result, m: Store)
    requires l.Ok? && (l.o.Var? ==> OperandOf(e) == Some(l.o.sym) && ReadSym(m, l.o.sym) == ReadSym(l.st, l.o.sym))
    ensures Read(l.o, m) == Read(l.o, l.st)
  {
  }

  /** Without conflicts, the operand semantics that the generated code follows is the value
      semantics of C. */
  lemma {:induction false} LateIsEarly(e: Expr, m: Store, callees: Callees)
    requires NoConflict(e)
    ensures Matches(e, Eval(e, m, true, callees), Eval(e, m, false, callees))
    decreases e, 1
  {
    hide BinaryValue, ConvertFrom, Convert, Wrap, UnaryValue;
    match e
    case Unary(_, a, _) => LateIsEarly(a, m, callees);
    case Binary(_, _, _, _) => LateBinary(e, m, callees);
    case Assign(_, a) => LateIsEarly(a, m, callees);
    case Compound(_, _, s, a) =>
      LateIsEarly(a, m, callees);
      var r := Eval(a, m, true, callees);
      if r.Ok? { Frame(a, m, true, callees, s); }
    case Conditional(c, a, b, _) =>
      LateIsEarly(c, m, callees);
      var r := Eval(c, m, true, callees);
      if r.Ok? { LateIsEarly(if r.o.v != 0 then a else b, r.st, callees); }
    case Call(_, _, args, _) => LateArgs(args, m, callees);
    case Cast(_, a) => LateIsEarly(a, m, callees);
    case _ =>
  }

  lemma {:induction false} LateBinary(e: Expr, m: Store, callees: Callees)
    requires NoConflict(e) && e.Binary?
    ensures Matches(e, Eval(e, m, true, callees), Eval(e, m, false, callees))
    decreases e, 0
  {
    hide BinaryValue;
    LateIsEarly(e.left, m, callees);
    var v, l := Eval(e.left, m, true, callees), Eval(e.left, m, false, callees);
    if v.Ok? && !(IsLogical(e.bop) && (v.o.v == 0) == e.bop.LogAnd?) {
      LateIsEarly(e.right, v.st, callees);
      var w := Eval(e.right, v.st, true, callees);
      if w.Ok? && !IsLogical(e.bop) {
        if l.o.Var? { Frame(e.right, v.st, true, callees, l.o.sym); }
        ReadLater(e.left, l, w.st);
      }
    }
  }

  lemma {:induction false} LateArgs(args: seq<Expr>, m: Store, callees: Callees)
    requires ArgsNoConflict(args)
    ensures var v, l := EvalArgs(args, m, true, callees), EvalArgs(args, m, false, callees);
            v.StuckArgs? == l.StuckArgs?
            && (v.OkArgs? ==> v.st == l.st && ReadAll(v.os, v.st) == ReadAll(l.os, l.st))
    decreases args, 0
  {
    if args != [] {
      LateIsEarly(args[0], m, callees);
      var v, l := Eval(args[0], m, true, callees), Eval(args[0], m, false, callees);
      if v.Ok? {
        LateArgs(args[1..], v.st, callees);
        var w := EvalArgs(args[1..], v.st, true, callees);
        if w.OkArgs? {
          if l.o.Var? { FrameArgs(args[1..], v.st, true, callees, l.o.sym); }
          ReadLater(args[0], l, w.st);
        }
      }
    }
  }

  /** The condition matters: 'x + (x = 1)' run on the generated code reads the new 'x' twice. */
  lemma LateDiffers(callees: Callees)
    ensures var x := Symbol(0, Int, false);
            var e := Binary(Add, Ident(x), Assign(x, IntConst(1)), Int);
            var m := Store(map[0 := 5], map[], []);
            && WellTyped(e) && !NoConflict(e)
            && Eval(e, m, true, callees).o == Val(6)
            && Eval(e, m, false, callees).o == Val(2)
  {
    var x := Symbol(0, Int, false);
    var m := Store(map[0 := 5], map[], []);
    assert Eval(Assign(x, IntConst(1)), m, true, callees) == Ok(Val(1), WriteSym(m, x, 1));
    assert Eval(Assign(x, IntConst(1)), m, false, callees) == Ok(Var(x), WriteSym(m, x, 1));
  }
}
