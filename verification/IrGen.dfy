/** Translation of analysed statements and expressions to three-address code, as functions of the two
    counters. */
module IrGen {
  import opened Arith
  import opened Ast
  import opened Semantics
  import opened Ir

  /** Emitted code, the operand holding the result, and the counters afterwards. */
  datatype Out = Out(code: seq<Instr>, val: Value, np: nat, nl: nat)
  datatype Outs = Outs(code: seq<Instr>, vals: seq<Value>, np: nat, nl: nat)

  function Object(s: Symbol): Value {
    if s.isStatic then StaticObj(s.ty, s.id) else Pseudo(s.ty, s.id)
  }

  function Temp(nl: nat): Lbl {
    Lbl(LTemp, nl)
  }

  /** A value converted to type 't': itself when the types agree, folded when it is a constant. */
  function GenConvert(v: Value, t: Ty, np: nat, nl: nat): Out {
    if TyOf(v) == t then Out([], v, np, nl)
    else if v.Const? then Out([], Const(t, Convert(v.c, t)), np, nl)
    else Out([ICast(v, Pseudo(t, np))], Pseudo(t, np), np + 1, nl)
  }

  function GenExpr(e: Expr, np: nat, nl: nat): Out
    decreases e, 1
  {
    match e
    case IntConst(v) => Out([], Const(Int, v), np, nl)
    case LongConst(v) => Out([], Const(Long, v), np, nl)
    case Ident(s) => Out([], Object(s), np, nl)
    case Unary(op, a, t) =>
      var g := GenExpr(a, np, nl);
      if op.Plus? then g
      else Out(g.code + [IUnary(op, g.val, Pseudo(t, g.np))], Pseudo(t, g.np), g.np + 1, g.nl)
    case Binary(op, a, b, t) =>
      if IsLogical(op) then
        var l := GenExpr(a, np + 1, nl + 2);
        var r := GenExpr(b, l.np, l.nl);
        Out(l.code + ShortJump(op, l.val, nl) + (r.code + (ShortJump(op, r.val, nl) + ShortTail(op, Pseudo(t, np), nl))),
            Pseudo(t, np), r.np, r.nl)
      else
        var l := GenExpr(a, np, nl);
        var r := GenExpr(b, l.np, l.nl);
        Out(l.code + (r.code + [IBinary(op, l.val, r.val, Pseudo(t, r.np))]), Pseudo(t, r.np), r.np + 1, r.nl)
    case IncDec(prefix, inc, s) =>
      var x := Object(s);
      var bump := IBinary(if inc then Add else Sub, x, Const(s.ty, 1), x);
      if prefix then Out([bump], x, np, nl)
      else Out([ICopy(x, Pseudo(s.ty, np)), bump], Pseudo(s.ty, np), np + 1, nl)
    case Assign(s, a) =>
      var g := GenExpr(a, np, nl);
      Out(g.code + [ICopy(g.val, Object(s))], Object(s), g.np, g.nl)
    case Compound(op, t, s, a) =>
      var g := GenExpr(a, np, nl);
      var left := GenConvert(Object(s), t, g.np, g.nl);
      var result := Pseudo(t, left.np);
      var back := GenConvert(result, s.ty, left.np + 1, left.nl);
      Out(g.code + (left.code + ([IBinary(op, left.val, g.val, result)] + (back.code + [ICopy(back.val, Object(s))]))),
          Object(s), back.np, back.nl)
    case Conditional(c, a, b, t) =>
      var dst := if t.Void? then NoValue else Pseudo(t, np);
      var np0 := if t.Void? then np else np + 1;
      var gc := GenExpr(c, np0, nl + 2);
      var ga := GenExpr(a, gc.np, gc.nl);
      var gb := GenExpr(b, ga.np, ga.nl);
      Out(gc.code + ([IJumpIfZero(gc.val, Temp(nl))]
          + (ga.code + (CopyTo(ga.val, dst) + ([IJump(Temp(nl + 1)), ILabel(Temp(nl))]
          + (gb.code + (CopyTo(gb.val, dst) + [ILabel(Temp(nl + 1))])))))),
          dst, gb.np, gb.nl)
    case Call(fn, _, args, t) =>
      var g := GenArgs(args, np, nl);
      var dst := if t.Void? then NoValue else Pseudo(t, g.np);
      Out(g.code + [ICall(fn, g.vals, dst)], dst, if t.Void? then g.np else g.np + 1, g.nl)
    case Cast(t, a) =>
      var g := GenExpr(a, np, nl);
      if t.Void? then Out(g.code, NoValue, g.np, g.nl)
      else
        var c := GenConvert(g.val, t, g.np, g.nl);
        Out(g.code + c.code, c.val, c.np, c.nl)
  }

  function GenArgs(args: seq<Expr>, np: nat, nl: nat): (o: Outs)
    ensures |o.vals| == |args|
    decreases args, 0
  {
    if args == [] then Outs([], [], np, nl) else
    var g := GenExpr(args[0], np, nl);
    var h := GenArgs(args[1..], g.np, g.nl);
    Outs(g.code + h.code, [g.val] + h.vals, h.np, h.nl)
  }

  /** Leave a short-circuit operator once operand 'v' decides it. */
  function ShortJump(op: BinOp, v: Value, nl: nat): seq<Instr> {
    [if op.LogAnd? then IJumpIfZero(v, Temp(nl)) else IJumpIfNotZero(v, Temp(nl))]
  }

  /** Both outcomes of a short-circuit operator: falling through first, the early exit second. */
  function ShortTail(op: BinOp, dst: Value, nl: nat): seq<Instr> {
    [ICopy(Const(Int, Truth(op.LogAnd?)), dst), IJump(Temp(nl + 1)),
     ILabel(Temp(nl)), ICopy(Const(Int, Truth(op.LogOr?)), dst), ILabel(Temp(nl + 1))]
  }

  function CopyTo(v: Value, dst: Value): seq<Instr> {
    if dst.NoValue? then [] else [ICopy(v, dst)]
  }

  function GenDecls(ds: seq<Decl>, np: nat, nl: nat): Out {
    if ds == [] then Out([], NoValue, np, nl)
    else if !ds[0].isObject || !ds[0].isAuto || ds[0].init.None? then GenDecls(ds[1..], np, nl)
    else
      var g := GenExpr(ds[0].init.value, np, nl);
      var h := GenDecls(ds[1..], g.np, g.nl);
      Out(g.code + ([ICopy(g.val, Object(ds[0].sym))] + h.code), NoValue, h.np, h.nl)
  }

  /** One comparison and conditional jump per case, in list order. */
  function GenTests(cases: seq<CaseRef>, v: Value, np: nat): seq<Instr> {
    if cases == [] then []
    else
      [IBinary(Eq, v, Const(TyOf(v), cases[0].value), Pseudo(Int, np)),
       IJumpIfNotZero(Pseudo(Int, np), Lbl(LCase, cases[0].id))]
      + GenTests(cases[1..], v, np + 1)
  }

  function GenOptional(e: Option<Expr>, np: nat, nl: nat): Out {
    if e.None? then Out([], NoValue, np, nl) else GenExpr(e.value, np, nl)
  }

  function GenStmt(s: Stmt, np: nat, nl: nat): Out
    decreases s, 1
  {
    match s
    case Null => Out([], NoValue, np, nl)
    case ExprStmt(e) => GenExpr(e, np, nl)
    case DeclStmt(ds) => GenDecls(ds, np, nl)
    case Block(items) => GenItems(items, np, nl)
    case Return(e) =>
      var g := GenOptional(e, np, nl);
      Out(g.code + [IReturn(g.val)], NoValue, g.np, g.nl)
    case If(c, a, None) =>
      var gc := GenExpr(c, np, nl);
      var ga := GenStmt(a, gc.np, gc.nl + 1);
      Out(gc.code + ([IJumpIfZero(gc.val, Temp(gc.nl))] + (ga.code + [ILabel(Temp(gc.nl))])), NoValue, ga.np, ga.nl)
    case If(c, a, Some(b)) =>
      var gc := GenExpr(c, np, nl);
      var ga := GenStmt(a, gc.np, gc.nl + 2);
      var gb := GenStmt(b, ga.np, ga.nl);
      Out(gc.code + ([IJumpIfZero(gc.val, Temp(gc.nl + 1))]
          + (ga.code + ([IJump(Temp(gc.nl)), ILabel(Temp(gc.nl + 1))] + (gb.code + [ILabel(Temp(gc.nl))])))),
          NoValue, gb.np, gb.nl)
    case For(id, i, t, p, b) =>
      var gi := GenStmt(i, np, nl + 1);
      var gt := GenOptional(t, gi.np, gi.nl);
      var gb := GenStmt(b, gt.np, gt.nl);
      var gp := GenOptional(p, gb.np, gb.nl);
      Out(gi.code + ([ILabel(Temp(nl))] + (gt.code + (ExitTest(t, gt.val, id)
          + (gb.code + ([ILabel(Lbl(LContinue, id))] + (gp.code + [IJump(Temp(nl)), ILabel(Lbl(LBreak, id))])))))),
          NoValue, gp.np, gp.nl)
    case While(id, c, b) =>
      var gc := GenExpr(c, np, nl);
      var gb := GenStmt(b, gc.np, gc.nl);
      Out([ILabel(Lbl(LContinue, id))] + (gc.code + ([IJumpIfZero(gc.val, Lbl(LBreak, id))]
          + (gb.code + [IJump(Lbl(LContinue, id)), ILabel(Lbl(LBreak, id))]))),
          NoValue, gb.np, gb.nl)
    case DoWhile(id, c, b) =>
      var gb := GenStmt(b, np, nl + 1);
      var gc := GenExpr(c, gb.np, gb.nl);
      Out([ILabel(Temp(nl))] + (gb.code + ([ILabel(Lbl(LContinue, id))]
          + (gc.code + [IJumpIfNotZero(gc.val, Temp(nl)), ILabel(Lbl(LBreak, id))]))),
          NoValue, gc.np, gc.nl)
    case Switch(id, c, b, cases, dflt) =>
      var gc := GenExpr(c, np, nl);
      var gb := GenStmt(b, gc.np + |cases|, gc.nl);
      Out(gc.code + (GenTests(cases, gc.val, gc.np) + ([IJump(SwitchElse(id, dflt))]
          + (gb.code + [ILabel(Lbl(LBreak, id))]))),
          NoValue, gb.np, gb.nl)
    case Case(id, _, _, b) =>
      var g := GenStmt(b, np, nl);
      Out([ILabel(Lbl(LCase, id))] + g.code, NoValue, g.np, g.nl)
    case Default(id, b) =>
      var g := GenStmt(b, np, nl);
      Out([ILabel(Lbl(LCase, id))] + g.code, NoValue, g.np, g.nl)
    case Label(id, _, b) =>
      var g := GenStmt(b, np, nl);
      Out([ILabel(Lbl(LUser, id))] + g.code, NoValue, g.np, g.nl)
    case Break(t) => Out([IJump(Lbl(LBreak, t))], NoValue, np, nl)
    case Continue(t) => Out([IJump(Lbl(LContinue, t))], NoValue, np, nl)
    case Goto(_, t) => Out([IJump(Lbl(LUser, t))], NoValue, np, nl)
  }

  function ExitTest(t: Option<Expr>, v: Value, id: nat): seq<Instr> {
    if t.None? then [] else [IJumpIfZero(v, Lbl(LBreak, id))]
  }

  function SwitchElse(id: nat, dflt: Option<nat>): Lbl {
    if dflt.Some? then Lbl(LCase, dflt.value) else Lbl(LBreak, id)
  }

  function GenItems(items: seq<Stmt>, np: nat, nl: nat): Out
    decreases items, 0
  {
    if items == [] then Out([], NoValue, np, nl) else
    var g := GenStmt(items[0], np, nl);
    var h := GenItems(items[1..], g.np, g.nl);
    Out(g.code + h.code, NoValue, h.np, h.nl)
  }

  /** A whole function: its body, then the return for running off the end. */
  function GenFunction(body: Stmt, ret: Ty, np: nat, nl: nat): Out {
    var g := GenStmt(body, np, nl);
    Out(g.code + [IReturn(if ret.Void? then NoValue else Const(ret, 0))], NoValue, g.np, g.nl)
  }

  /** The shape of the longer expression forms, one equation each. */
  lemma LogicalCode(e: Expr, np: nat, nl: nat)
    requires e.Binary? && IsLogical(e.bop)
    ensures var l := GenExpr(e.left, np + 1, nl + 2);
            var r := GenExpr(e.right, l.np, l.nl);
            GenExpr(e, np, nl) ==
               Out(l.code + ShortJump(e.bop, l.val, nl)
                   + (r.code + (ShortJump(e.bop, r.val, nl) + ShortTail(e.bop, Pseudo(e.ty, np), nl))),
                   Pseudo(e.ty, np), r.np, r.nl)
  {
  }

  lemma BinaryCode(e: Expr, np: nat, nl: nat)
    requires e.Binary? && !IsLogical(e.bop)
    ensures var l := GenExpr(e.left, np, nl);
            var r := GenExpr(e.right, l.np, l.nl);
            GenExpr(e, np, nl) ==
               Out(l.code + (r.code + [IBinary(e.bop, l.val, r.val, Pseudo(e.ty, r.np))]), Pseudo(e.ty, r.np), r.np + 1, r.nl)
  {
  }

  lemma CompoundCode(e: Expr, np: nat, nl: nat)
    requires e.Compound?
    ensures var g := GenExpr(e.rvalue, np, nl);
            var left := GenConvert(Object(e.sym), e.opTy, g.np, g.nl);
            var result := Pseudo(e.opTy, left.np);
            var back := GenConvert(result, e.sym.ty, left.np + 1, left.nl);
            GenExpr(e, np, nl) ==
               Out(g.code + (left.code + ([IBinary(e.bop, left.val, g.val, result)] + (back.code + [ICopy(back.val, Object(e.sym))]))),
                   Object(e.sym), back.np, back.nl)
  {
  }

  /** Destination of a conditional expression; there is none when it is void. */
  function CondDst(e: Expr, np: nat): Value
    requires e.Conditional?
  {
    if e.ty.Void? then NoValue else Pseudo(e.ty, np)
  }

  function CondNp(e: Expr, np: nat): nat
    requires e.Conditional?
  {
    if e.ty.Void? then np else np + 1
  }

  lemma ConditionalCode(e: Expr, np: nat, nl: nat)
    requires e.Conditional?
    ensures var dst := CondDst(e, np);
            var gc := GenExpr(e.cond, CondNp(e, np), nl + 2);
            var ga := GenExpr(e.thn, gc.np, gc.nl);
            var gb := GenExpr(e.els, ga.np, ga.nl);
            GenExpr(e, np, nl) ==
            Out(gc.code + ([IJumpIfZero(gc.val, Temp(nl))]
                + (ga.code + (CopyTo(ga.val, dst) + ([IJump(Temp(nl + 1)), ILabel(Temp(nl))]
                + (gb.code + (CopyTo(gb.val, dst) + [ILabel(Temp(nl + 1))])))))),
                dst, gb.np, gb.nl)
  {
  }

  lemma CallCode(e: Expr, np: nat, nl: nat)
    requires e.Call?
    ensures var g := GenArgs(e.args, np, nl);
            var dst := if e.ty.Void? then NoValue else Pseudo(e.ty, g.np);
            GenExpr(e, np, nl) == Out(g.code + [ICall(e.fn, g.vals, dst)], dst, if e.ty.Void? then g.np else g.np + 1, g.nl)
  {
  }
}
