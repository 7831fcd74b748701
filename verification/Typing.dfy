/** The emitted code is typed as the back end needs it: every temporary has one type, operand types
    agree, constants fit, and no two-address expansion overwrites an operand it still needs. */
module Typing {
  import opened Arith
  import opened Ast
  import opened Ir
  import opened IrGen
  import opened Frames
  import opened Execution

  predicate SymTyped(t: Types, s: Symbol) {
    if s.isStatic then s.id in t.statics && t.statics[s.id] == s.ty else s.id in t.pseudo && t.pseudo[s.id] == s.ty
  }

  /** Every name has the type of its object and every call the signature of its callee. */
  predicate ExprTyped(t: Types, e: Expr)
    decreases e, 1
  {
    match e
    case IntConst(_) => true
    case LongConst(_) => true
    case Ident(s) => s.ty.Function? || SymTyped(t, s)
    case Unary(_, a, _) => ExprTyped(t, a)
    case Binary(_, a, b, _) => ExprTyped(t, a) && ExprTyped(t, b)
    case IncDec(_, _, s) => SymTyped(t, s)
    case Assign(s, a) => SymTyped(t, s) && ExprTyped(t, a)
    case Compound(_, _, s, a) => SymTyped(t, s) && ExprTyped(t, a)
    case Conditional(c, a, b, _) => ExprTyped(t, c) && ExprTyped(t, a) && ExprTyped(t, b)
    case Call(fn, params, args, ty) =>
      && fn in t.params && t.params[fn] == params && fn in t.ret && t.ret[fn] == ty
      && ArgsTyped(t, args)
    case Cast(_, a) => ExprTyped(t, a)
  }

  predicate ArgsTyped(t: Types, args: seq<Expr>)
    decreases args, 0
  {
    args == [] || (ExprTyped(t, args[0]) && ArgsTyped(t, args[1..]))
  }

  /** 't2' knows at least what 't' knows. */
  ghost predicate Grow(t: Types, t2: Types) {
    && (forall id :: id in t.pseudo ==> id in t2.pseudo && t2.pseudo[id] == t.pseudo[id])
    && (forall id :: id in t.statics ==> id in t2.statics && t2.statics[id] == t.statics[id])
    && (forall id :: id in t.params ==> id in t2.params && t2.params[id] == t.params[id])
    && (forall id :: id in t.ret ==> id in t2.ret && t2.ret[id] == t.ret[id])
  }

  /** 't2' types more pseudos than 't', and is otherwise the same. */
  ghost predicate Ext(t: Types, t2: Types) {
    Grow(t, t2) && t2.statics == t.statics && t2.params == t.params && t2.ret == t.ret
  }

  ghost predicate Bounded(t: Types, np: nat) {
    forall id :: id in t.pseudo ==> id < np
  }

  function With(t: Types, id: nat, ty: Ty): Types {
    t.(pseudo := t.pseudo[id := ty])
  }

  lemma WithExt(t: Types, id: nat, ty: Ty)
    requires Bounded(t, id) && IsArithmetic(ty)
    ensures Ext(t, With(t, id, ty)) && Bounded(With(t, id, ty), id + 1) && DstOk(With(t, id, ty), Pseudo(ty, id))
  {
  }

  lemma ExtTrans(a: Types, b: Types, c: Types)
    requires Ext(a, b) && Ext(b, c)
    ensures Ext(a, c)
  {
  }

  lemma ExtVal(t: Types, t2: Types, v: Value)
    requires Grow(t, t2) && ValOk(t, v)
    ensures ValOk(t2, v)
  {
  }

  lemma ExtInstr(t: Types, t2: Types, i: Instr)
    requires Grow(t, t2) && InstrOk(t, i)
    ensures InstrOk(t2, i)
  {
    hide ValOk, Grow;
    match i
    case IReturn(v) => if !v.NoValue? { ExtVal(t, t2, v); }
    case IUnary(_, a, d) => ExtVal(t, t2, a); ExtVal(t, t2, d);
    case IBinary(_, a, b, d) => ExtVal(t, t2, a); ExtVal(t, t2, b); ExtVal(t, t2, d);
    case ICopy(a, d) => ExtVal(t, t2, a); ExtVal(t, t2, d);
    case ICast(a, d) => ExtVal(t, t2, a); ExtVal(t, t2, d);
    case IJump(_) =>
    case IJumpIfZero(c, _) => ExtVal(t, t2, c);
    case IJumpIfNotZero(c, _) => ExtVal(t, t2, c);
    case ILabel(_) =>
    case ICall(fn, args, d) =>
      GrowCall(t, t2, fn);
      forall k | 0 <= k < |args| ensures ValOk(t2, args[k]) { ExtVal(t, t2, args[k]); }
      if !d.NoValue? { ExtVal(t, t2, d); }
  }

  lemma GrowCall(t: Types, t2: Types, fn: nat)
    requires Grow(t, t2) && fn in t.params && fn in t.ret
    ensures fn in t2.params && t2.params[fn] == t.params[fn] && fn in t2.ret && t2.ret[fn] == t.ret[fn]
  {
  }

  lemma ExtSame(t: Types, t2: Types)
    requires Ext(t, t2)
    ensures t2.params == t.params && t2.ret == t.ret
  {
  }

  /** Code without 'return', every instruction typed. */
  predicate ExprCodeOk(t: Types, code: seq<Instr>) {
    forall k :: 0 <= k < |code| ==> InstrOk(t, code[k]) && !code[k].IReturn?
  }

  /** Code of a function that returns 'ret'. */
  predicate CodeOk(t: Types, ret: Ty, code: seq<Instr>) {
    forall k :: 0 <= k < |code| ==> InstrOk(t, code[k]) && ReturnOk(code[k], ret)
  }

  lemma ExtCode(t: Types, t2: Types, code: seq<Instr>)
    requires Grow(t, t2) && ExprCodeOk(t, code)
    ensures ExprCodeOk(t2, code)
  {
    hide InstrOk, Grow;
    forall k | 0 <= k < |code| ensures InstrOk(t2, code[k]) { ExtInstr(t, t2, code[k]); }
  }

  lemma Join(t: Types, a: seq<Instr>, b: seq<Instr>)
    requires ExprCodeOk(t, a) && ExprCodeOk(t, b)
    ensures ExprCodeOk(t, a + b)
  {
    hide InstrOk;
  }

  lemma {:induction false} ExtExpr(t: Types, t2: Types, e: Expr)
    requires Grow(t, t2) && ExprTyped(t, e)
    ensures ExprTyped(t2, e)
    decreases e, 1
  {
    match e
    case Unary(_, a, _) => ExtExpr(t, t2, a);
    case Binary(_, a, b, _) => ExtExpr(t, t2, a); ExtExpr(t, t2, b);
    case Assign(_, a) => ExtExpr(t, t2, a);
    case Compound(_, _, _, a) => ExtExpr(t, t2, a);
    case Conditional(c, a, b, _) => ExtExpr(t, t2, c); ExtExpr(t, t2, a); ExtExpr(t, t2, b);
    case Call(_, _, args, _) => ExtArgs(t, t2, args);
    case Cast(_, a) => ExtExpr(t, t2, a);
    case _ =>
  }

  lemma {:induction false} ExtArgs(t: Types, t2: Types, args: seq<Expr>)
    requires Grow(t, t2) && ArgsTyped(t, args)
    ensures ArgsTyped(t2, args)
    decreases args, 0
  {
    if args != [] {
      ExtExpr(t, t2, args[0]);
      ExtArgs(t, t2, args[1..]);
    }
  }

  /** A result of type 'ty'; expressions of type void have none. */
  predicate ResultOk(t: Types, v: Value, ty: Ty) {
    if IsArithmetic(ty) then ValOk(t, v) && TyOf(v) == ty else ty.Void? ==> v.NoValue?
  }

  /** The emitted code 'o' is typed over an extension 't2' of 't'. */
  ghost predicate Fine(t: Types, t2: Types, o: Out, ty: Ty) {
    Ext(t, t2) && Bounded(t2, o.np) && ExprCodeOk(t2, o.code) && ResultOk(t2, o.val, ty)
  }

  lemma ObjectOk(t: Types, s: Symbol)
    requires SymTyped(t, s) && IsArithmetic(s.ty)
    ensures DstOk(t, Object(s)) && TyOf(Object(s)) == s.ty
  {
  }

  lemma ConvertTyped(t: Types, v: Value, ty: Ty, np: nat, nl: nat) returns (t2: Types)
    requires ValOk(t, v) && IsArithmetic(ty) && Bounded(t, np)
    ensures Fine(t, t2, GenConvert(v, ty, np, nl), ty)
  {
    hide Bounded, Grow;
    t2 := t;
    ExtRefl(t);
    if TyOf(v) != ty && !v.Const? {
      t2 := With(t, np, ty);
      WithExt(t, np, ty);
      ExtVal(t, t2, v);
    }
  }

  lemma ExtRefl(t: Types)
    ensures Ext(t, t)
  {
  }

  /** A temporary numbered after every pseudo so far is none of them. */
  lemma Apart2(t: Types, v: Value, id: nat, ty: Ty)
    requires ValOk(t, v) && Bounded(t, id)
    ensures !SamePlace(Pseudo(ty, id), v)
  {
  }

  /** Every expression's code is typed as the back end needs it. */
  lemma {:induction false} GenTyped(t: Types, e: Expr, np: nat, nl: nat) returns (t2: Types)
    requires WellTyped(e) && ExprTyped(t, e) && Bounded(t, np)
    ensures Fine(t, t2, GenExpr(e, np, nl), TypeOf(e))
    decreases e, 1
  {
    hide Bounded, Grow, InstrOk;
    t2 := t;
    ExtRefl(t);
    match e
    case IntConst(_) =>
    case LongConst(_) =>
    case Ident(s) => if IsArithmetic(s.ty) { ObjectOk(t, s); }
    case Unary(_, _, _) => t2 := UnaryTyped(t, e, np, nl);
    case Binary(_, _, _, _) => if IsLogical(e.bop) { t2 := LogicalTyped(t, e, np, nl); } else { t2 := BinaryTyped(t, e, np, nl); }
    case IncDec(_, _, _) => t2 := IncDecTyped(t, e, np, nl);
    case Assign(_, _) => t2 := AssignTyped(t, e, np, nl);
    case Compound(_, _, _, _) => t2 := CompoundTyped(t, e, np, nl);
    case Conditional(_, _, _, _) => t2 := ConditionalTyped(t, e, np, nl);
    case Call(_, _, _, _) => t2 := CallTyped(t, e, np, nl);
    case Cast(_, _) => t2 := CastTyped(t, e, np, nl);
  }

  lemma {:induction false} UnaryTyped(t: Types, e: Expr, np: nat, nl: nat) returns (t2: Types)
    requires e.Unary? && WellTyped(e) && ExprTyped(t, e) && Bounded(t, np)
    ensures Fine(t, t2, GenExpr(e, np, nl), TypeOf(e))
    decreases e, 0
  {
    hide Bounded, Grow, InstrOk, ValOk;
    t2 := GenTyped(t, e.operand, np, nl);
    if !e.uop.Plus? {
      var g := GenExpr(e.operand, np, nl);
      var t1 := t2;
      t2 := With(t1, g.np, e.ty);
      WithExt(t1, g.np, e.ty);
      ExtTrans(t, t1, t2);
      ExtCode(t1, t2, g.code);
      ExtVal(t1, t2, g.val);
      var i := IUnary(e.uop, g.val, Pseudo(e.ty, g.np));
      assert InstrOk(t2, i) by { UnaryOk(t2, i); }
      Join(t2, g.code, [i]);
    }
  }

  lemma UnaryOk(t: Types, i: Instr)
    requires i.IUnary? && ValOk(t, i.src) && DstOk(t, i.dst) && !i.uop.Plus?
    requires if i.uop.LogNot? then TyOf(i.dst) == Int else TyOf(i.src) == TyOf(i.dst)
    ensures InstrOk(t, i)
  {
  }

  predicate BinaryTypes(op: BinOp, a: Ty, b: Ty, d: Ty) {
    !IsLogical(op)
    && if IsCompare(op) then a == b && d == Int else if IsShift(op) then a == d else a == b == d
  }

  lemma BinaryOk(t: Types, i: Instr)
    requires i.IBinary? && ValOk(t, i.lhs) && ValOk(t, i.rhs) && DstOk(t, i.dst) && !SamePlace(i.dst, i.rhs)
    requires BinaryTypes(i.bop, TyOf(i.lhs), TyOf(i.rhs), TyOf(i.dst))
    ensures InstrOk(t, i)
  {
  }

  lemma {:induction false} BinaryTyped(t: Types, e: Expr, np: nat, nl: nat) returns (t2: Types)
    requires e.Binary? && !IsLogical(e.bop) && WellTyped(e) && ExprTyped(t, e) && Bounded(t, np)
    ensures Fine(t, t2, GenExpr(e, np, nl), TypeOf(e))
    decreases e, 0
  {
    hide Bounded, Grow, InstrOk, ValOk, GenExpr, SamePlace;
    BinaryCode(e, np, nl);
    var l := GenExpr(e.left, np, nl);
    var r := GenExpr(e.right, l.np, l.nl);
    var ta := GenTyped(t, e.left, np, nl);
    ExtExpr(t, ta, e.right);
    var tb := GenTyped(ta, e.right, l.np, l.nl);
    t2 := With(tb, r.np, e.ty);
    WithExt(tb, r.np, e.ty);
    ExtTrans(t, ta, tb);
    ExtTrans(t, tb, t2);
    ExtTrans(ta, tb, t2);
    ExtCode(ta, t2, l.code);
    ExtCode(tb, t2, r.code);
    ExtVal(ta, t2, l.val);
    Apart2(tb, r.val, r.np, e.ty);
    ExtVal(tb, t2, r.val);
    var i := IBinary(e.bop, l.val, r.val, Pseudo(e.ty, r.np));
    assert InstrOk(t2, i) by { BinaryOk(t2, i); }
    Join(t2, r.code, [i]);
    Join(t2, l.code, r.code + [i]);
  }

  lemma JumpOk(t: Types, op: BinOp, v: Value, nl: nat)
    requires ValOk(t, v)
    ensures ExprCodeOk(t, ShortJump(op, v, nl))
  {
  }

  lemma TailOk(t: Types, op: BinOp, id: nat, nl: nat)
    requires DstOk(t, Pseudo(Int, id))
    ensures ExprCodeOk(t, ShortTail(op, Pseudo(Int, id), nl))
  {
  }

  lemma {:induction false} LogicalTyped(t: Types, e: Expr, np: nat, nl: nat) returns (t2: Types)
    requires e.Binary? && IsLogical(e.bop) && WellTyped(e) && ExprTyped(t, e) && Bounded(t, np)
    ensures Fine(t, t2, GenExpr(e, np, nl), TypeOf(e))
    decreases e, 0
  {
    hide Bounded, Grow, InstrOk, ValOk, GenExpr, ShortJump, ShortTail;
    LogicalCode(e, np, nl);
    var l := GenExpr(e.left, np + 1, nl + 2);
    var r := GenExpr(e.right, l.np, l.nl);
    var t1 := With(t, np, Int);
    WithExt(t, np, Int);
    ExtExpr(t, t1, e.left);
    var ta := GenTyped(t1, e.left, np + 1, nl + 2);
    ExtExpr(t, t1, e.right);
    ExtExpr(t1, ta, e.right);
    t2 := GenTyped(ta, e.right, l.np, l.nl);
    ExtTrans(t, t1, ta);
    ExtTrans(t, ta, t2);
    ExtTrans(t1, ta, t2);
    ExtVal(t1, t2, Pseudo(Int, np));
    ExtCode(ta, t2, l.code);
    ExtVal(ta, t2, l.val);
    JumpOk(t2, e.bop, l.val, nl);
    JumpOk(t2, e.bop, r.val, nl);
    TailOk(t2, e.bop, np, nl);
    var tail := ShortTail(e.bop, Pseudo(e.ty, np), nl);
    Join(t2, l.code, ShortJump(e.bop, l.val, nl));
    Join(t2, ShortJump(e.bop, r.val, nl), tail);
    Join(t2, r.code, ShortJump(e.bop, r.val, nl) + tail);
    Join(t2, l.code + ShortJump(e.bop, l.val, nl), r.code + (ShortJump(e.bop, r.val, nl) + tail));
  }

  lemma IncDecTyped(t: Types, e: Expr, np: nat, nl: nat) returns (t2: Types)
    requires e.IncDec? && WellTyped(e) && ExprTyped(t, e) && Bounded(t, np)
    ensures Fine(t, t2, GenExpr(e, np, nl), TypeOf(e))
  {
    hide Bounded, Grow, InstrOk;
    var s, x := e.sym, Object(e.sym);
    ObjectOk(t, s);
    t2 := t;
    ExtRefl(t);
    var bump := IBinary(if e.inc then Add else Sub, x, Const(s.ty, 1), x);
    assert InstrOk(t, bump) by { BinaryOk(t, bump); }
    if !e.prefix {
      t2 := With(t, np, s.ty);
      WithExt(t, np, s.ty);
      ExtInstr(t, t2, bump);
      ExtVal(t, t2, x);
      var copy := ICopy(x, Pseudo(s.ty, np));
      assert InstrOk(t2, copy) by { CopyOk(t2, x, Pseudo(s.ty, np)); }
    }
  }

  lemma CopyOk(t: Types, a: Value, d: Value)
    requires ValOk(t, a) && DstOk(t, d) && TyOf(a) == TyOf(d)
    ensures InstrOk(t, ICopy(a, d))
  {
  }

  lemma {:induction false} AssignTyped(t: Types, e: Expr, np: nat, nl: nat) returns (t2: Types)
    requires e.Assign? && WellTyped(e) && ExprTyped(t, e) && Bounded(t, np)
    ensures Fine(t, t2, GenExpr(e, np, nl), TypeOf(e))
    decreases e, 0
  {
    hide Bounded, Grow, InstrOk, ValOk, SymTyped;
    t2 := GenTyped(t, e.rvalue, np, nl);
    var g := GenExpr(e.rvalue, np, nl);
    ObjectOk(t, e.sym);
    ExtVal(t, t2, Object(e.sym));
    CopyOk(t2, g.val, Object(e.sym));
    Join(t2, g.code, [ICopy(g.val, Object(e.sym))]);
  }

  lemma {:induction false} CompoundTyped(t: Types, e: Expr, np: nat, nl: nat) returns (t2: Types)
    requires e.Compound? && WellTyped(e) && ExprTyped(t, e) && Bounded(t, np)
    ensures Fine(t, t2, GenExpr(e, np, nl), TypeOf(e))
    decreases e, 0
  {
    hide Bounded, Grow, InstrOk, ValOk, SymTyped, GenExpr, GenConvert;
    CompoundCode(e, np, nl);
    var x := Object(e.sym);
    var g := GenExpr(e.rvalue, np, nl);
    var left := GenConvert(x, e.opTy, g.np, g.nl);
    var result := Pseudo(e.opTy, left.np);
    var back := GenConvert(result, e.sym.ty, left.np + 1, left.nl);
    var ta := GenTyped(t, e.rvalue, np, nl);
    ObjectOk(t, e.sym);
    ExtVal(t, ta, x);
    var tb := ConvertTyped(ta, x, e.opTy, g.np, g.nl);
    var tc := With(tb, left.np, e.opTy);
    WithExt(tb, left.np, e.opTy);
    t2 := ConvertTyped(tc, result, e.sym.ty, left.np + 1, left.nl);
    ExtTrans(t, ta, tb);
    ExtTrans(t, tb, tc);
    ExtTrans(t, tc, t2);
    ExtTrans(ta, tb, tc);
    ExtVal(ta, tb, g.val);
    Apart2(tb, g.val, left.np, e.opTy);
    ExtVal(tb, tc, g.val);
    ExtVal(tb, tc, left.val);
    var i := IBinary(e.bop, left.val, g.val, result);
    assert InstrOk(tc, i) by { BinaryOk(tc, i); }
    ExtVal(t, t2, x);
    CopyOk(t2, back.val, x);
    ExtTrans(ta, tc, t2);
    ExtTrans(tb, tc, t2);
    ExtCode(ta, t2, g.code);
    ExtCode(tb, t2, left.code);
    ExtCode(tc, t2, [i]);
    Join(t2, back.code, [ICopy(back.val, x)]);
    Join(t2, [i], back.code + [ICopy(back.val, x)]);
    Join(t2, left.code, [i] + (back.code + [ICopy(back.val, x)]));
    Join(t2, g.code, left.code + ([i] + (back.code + [ICopy(back.val, x)])));
  }

  lemma CopyToOk(t: Types, v: Value, d: Value, ty: Ty)
    requires ResultOk(t, v, ty) && (ty.Void? || IsArithmetic(ty)) && ResultOk(t, d, ty) && (d.NoValue? || DstOk(t, d))
    ensures ExprCodeOk(t, CopyTo(v, d))
  {
  }

  lemma {:induction false} ConditionalTyped(t: Types, e: Expr, np: nat, nl: nat) returns (t2: Types)
    requires e.Conditional? && WellTyped(e) && ExprTyped(t, e) && Bounded(t, np)
    ensures Fine(t, t2, GenExpr(e, np, nl), TypeOf(e))
    decreases e, 0
  {
    hide Bounded, Grow, InstrOk, ValOk, GenExpr, CopyTo;
    ConditionalCode(e, np, nl);
    var dst := CondDst(e, np);
    var gc := GenExpr(e.cond, CondNp(e, np), nl + 2);
    var ga := GenExpr(e.thn, gc.np, gc.nl);
    var gb := GenExpr(e.els, ga.np, ga.nl);
    var t1 := t;
    ExtRefl(t);
    if !e.ty.Void? {
      t1 := With(t, np, e.ty);
      WithExt(t, np, e.ty);
    }
    ExtExpr(t, t1, e.cond);
    var tc := GenTyped(t1, e.cond, CondNp(e, np), nl + 2);
    ExtTrans(t, t1, tc);
    ExtExpr(t, tc, e.thn);
    var ta := GenTyped(tc, e.thn, gc.np, gc.nl);
    ExtTrans(t, tc, ta);
    ExtExpr(t, ta, e.els);
    t2 := GenTyped(ta, e.els, ga.np, ga.nl);
    ExtTrans(t, ta, t2);
    ExtTrans(tc, ta, t2);
    ExtTrans(t1, tc, t2);
    ExtCode(tc, t2, gc.code);
    ExtVal(tc, t2, gc.val);
    ExtCode(ta, t2, ga.code);
    if !e.ty.Void? {
      ExtVal(t1, t2, dst);
      ExtVal(ta, t2, ga.val);
    }
    CopyToOk(t2, ga.val, dst, e.ty);
    CopyToOk(t2, gb.val, dst, e.ty);
    var j, mid, end := [IJumpIfZero(gc.val, Temp(nl))], [IJump(Temp(nl + 1)), ILabel(Temp(nl))], [ILabel(Temp(nl + 1))];
    CondJumpsOk(t2, gc.val, nl);
    Join(t2, CopyTo(gb.val, dst), end);
    Join(t2, gb.code, CopyTo(gb.val, dst) + end);
    Join(t2, mid, gb.code + (CopyTo(gb.val, dst) + end));
    Join(t2, CopyTo(ga.val, dst), mid + (gb.code + (CopyTo(gb.val, dst) + end)));
    Join(t2, ga.code, CopyTo(ga.val, dst) + (mid + (gb.code + (CopyTo(gb.val, dst) + end))));
    Join(t2, j, ga.code + (CopyTo(ga.val, dst) + (mid + (gb.code + (CopyTo(gb.val, dst) + end)))));
    Join(t2, gc.code, j + (ga.code + (CopyTo(ga.val, dst) + (mid + (gb.code + (CopyTo(gb.val, dst) + end))))));
  }

  lemma CondJumpsOk(t: Types, v: Value, nl: nat)
    requires ValOk(t, v)
    ensures ExprCodeOk(t, [IJumpIfZero(v, Temp(nl))])
    ensures ExprCodeOk(t, [IJump(Temp(nl + 1)), ILabel(Temp(nl))]) && ExprCodeOk(t, [ILabel(Temp(nl + 1))])
  {
  }

  lemma {:induction false} CastTyped(t: Types, e: Expr, np: nat, nl: nat) returns (t2: Types)
    requires e.Cast? && WellTyped(e) && ExprTyped(t, e) && Bounded(t, np)
    ensures Fine(t, t2, GenExpr(e, np, nl), TypeOf(e))
    decreases e, 0
  {
    hide Bounded, Grow, InstrOk, ValOk, GenConvert;
    var g := GenExpr(e.operand, np, nl);
    t2 := GenTyped(t, e.operand, np, nl);
    if !e.target.Void? {
      var t1 := t2;
      t2 := ConvertTyped(t1, g.val, e.target, g.np, g.nl);
      ExtTrans(t, t1, t2);
      ExtCode(t1, t2, g.code);
      Join(t2, g.code, GenConvert(g.val, e.target, g.np, g.nl).code);
    }
  }

  predicate ArgsOk(t: Types, vals: seq<Value>, params: seq<Ty>) {
    |vals| == |params| && forall k :: 0 <= k < |vals| ==> ValOk(t, vals[k]) && TyOf(vals[k]) == params[k]
  }

  lemma ExtArgsOk(t: Types, t2: Types, vals: seq<Value>, params: seq<Ty>)
    requires Grow(t, t2) && ArgsOk(t, vals, params)
    ensures ArgsOk(t2, vals, params)
  {
    hide ValOk, Grow;
    forall k | 0 <= k < |vals| ensures ValOk(t2, vals[k]) { ExtVal(t, t2, vals[k]); }
  }

  lemma {:induction false} GenArgsTyped(t: Types, args: seq<Expr>, params: seq<Ty>, np: nat, nl: nat) returns (t2: Types)
    requires WellTypedArgs(args, params) && ArgsTyped(t, args) && Bounded(t, np)
    ensures var g := GenArgs(args, np, nl);
            Ext(t, t2) && Bounded(t2, g.np) && ExprCodeOk(t2, g.code) && ArgsOk(t2, g.vals, params)
    decreases args, 0
  {
    hide Bounded, Grow, InstrOk, ValOk, GenExpr;
    t2 := t;
    ExtRefl(t);
    if args != [] {
      var g := GenExpr(args[0], np, nl);
      var h := GenArgs(args[1..], g.np, g.nl);
      var t1 := GenTyped(t, args[0], np, nl);
      ExtArgs(t, t1, args[1..]);
      t2 := GenArgsTyped(t1, args[1..], params[1..], g.np, g.nl);
      ExtTrans(t, t1, t2);
      ExtCode(t1, t2, g.code);
      ExtVal(t1, t2, g.val);
      Join(t2, g.code, h.code);
    }
  }

  lemma {:induction false} CallTyped(t: Types, e: Expr, np: nat, nl: nat) returns (t2: Types)
    requires e.Call? && WellTyped(e) && ExprTyped(t, e) && Bounded(t, np)
    ensures Fine(t, t2, GenExpr(e, np, nl), TypeOf(e))
    decreases e, 0
  {
    hide Bounded, Grow, InstrOk, ValOk, GenExpr, GenArgs;
    CallCode(e, np, nl);
    var g := GenArgs(e.args, np, nl);
    var t1 := GenArgsTyped(t, e.args, e.params, np, nl);
    t2 := t1;
    var dst := NoValue;
    ExtSame(t, t1);
    if !e.ty.Void? {
      t2 := With(t1, g.np, e.ty);
      WithExt(t1, g.np, e.ty);
      ExtTrans(t, t1, t2);
      ExtCode(t1, t2, g.code);
      ExtArgsOk(t1, t2, g.vals, e.params);
      dst := Pseudo(e.ty, g.np);
      ExtSame(t1, t2);
    }
    CallOk(t2, e.fn, g.vals, dst, e.params);
    Join(t2, g.code, [ICall(e.fn, g.vals, dst)]);
  }

  lemma CallOk(t: Types, fn: nat, vals: seq<Value>, d: Value, params: seq<Ty>)
    requires fn in t.params && t.params[fn] == params && fn in t.ret && ArgsOk(t, vals, params)
    requires d.NoValue? || (DstOk(t, d) && TyOf(d) == t.ret[fn])
    ensures ExprCodeOk(t, [ICall(fn, vals, d)])
  {
  }

  /** Every expression, declaration, case value and 'return' of the statement is typed. */
  predicate StmtTyped(t: Types, ret: Ty, s: Stmt)
    decreases s, 1
  {
    match s
    case ExprStmt(e) => ValueTyped(t, e)
    case DeclStmt(ds) => DeclsTyped(t, ds)
    case Block(items) => ItemsTyped(t, ret, items)
    case Return(e) => if e.None? then ret.Void? else ValueTyped(t, e.value) && TypeOf(e.value) == ret && IsArithmetic(ret)
    case If(c, a, b) => ScalarTyped(t, c) && StmtTyped(t, ret, a) && (b.Some? ==> StmtTyped(t, ret, b.value))
    case For(_, i, c, p, b) =>
      && StmtTyped(t, ret, i) && (c.Some? ==> ScalarTyped(t, c.value)) && (p.Some? ==> ValueTyped(t, p.value)) && StmtTyped(t, ret, b)
    case While(_, c, b) => ScalarTyped(t, c) && StmtTyped(t, ret, b)
    case DoWhile(_, c, b) => ScalarTyped(t, c) && StmtTyped(t, ret, b)
    case Switch(_, c, b, cases, _) => ScalarTyped(t, c) && StmtTyped(t, ret, b) && CasesFit(cases, TypeOf(c))
    case Case(_, _, _, b) => StmtTyped(t, ret, b)
    case Default(_, b) => StmtTyped(t, ret, b)
    case Label(_, _, b) => StmtTyped(t, ret, b)
    case _ => true
  }

  predicate ValueTyped(t: Types, e: Expr) {
    WellTyped(e) && ExprTyped(t, e)
  }

  predicate ScalarTyped(t: Types, e: Expr) {
    ValueTyped(t, e) && IsArithmetic(TypeOf(e))
  }

  predicate CasesFit(cases: seq<CaseRef>, ty: Ty) {
    forall k :: 0 <= k < |cases| ==> Fits(cases[k].value, ty)
  }

  predicate DeclsTyped(t: Types, ds: seq<Decl>) {
    ds == [] ||
    (&& (ds[0].isObject && ds[0].isAuto && ds[0].init.Some? ==>
           ScalarTyped(t, ds[0].init.value) && TypeOf(ds[0].init.value) == ds[0].sym.ty && SymTyped(t, ds[0].sym))
     && DeclsTyped(t, ds[1..]))
  }

  predicate ItemsTyped(t: Types, ret: Ty, items: seq<Stmt>)
    decreases items, 0
  {
    items == [] || (StmtTyped(t, ret, items[0]) && ItemsTyped(t, ret, items[1..]))
  }

  lemma ExtScalar(t: Types, t2: Types, e: Expr)
    requires Grow(t, t2) && ValueTyped(t, e)
    ensures ValueTyped(t2, e)
  {
    hide WellTyped, ExprTyped, Grow;
    ExtExpr(t, t2, e);
  }

  lemma ExtSym(t: Types, t2: Types, s: Symbol)
    requires Grow(t, t2) && SymTyped(t, s)
    ensures SymTyped(t2, s)
  {
  }

  lemma {:induction false} ExtDecls(t: Types, t2: Types, ds: seq<Decl>)
    requires Grow(t, t2) && DeclsTyped(t, ds)
    ensures DeclsTyped(t2, ds)
  {
    hide ValueTyped, Grow, SymTyped;
    if ds != [] {
      if ds[0].isObject && ds[0].isAuto && ds[0].init.Some? {
        ExtScalar(t, t2, ds[0].init.value);
        ExtSym(t, t2, ds[0].sym);
      }
      ExtDecls(t, t2, ds[1..]);
    }
  }

  lemma {:induction false} ExtStmt(t: Types, t2: Types, ret: Ty, s: Stmt)
    requires Grow(t, t2) && StmtTyped(t, ret, s)
    ensures StmtTyped(t2, ret, s)
    decreases s, 1
  {
    hide ValueTyped, Grow;
    match s
    case ExprStmt(e) => ExtScalar(t, t2, e);
    case DeclStmt(ds) => ExtDecls(t, t2, ds);
    case Block(items) => ExtItems(t, t2, ret, items);
    case Return(e) => if e.Some? { ExtScalar(t, t2, e.value); }
    case If(c, a, b) => ExtScalar(t, t2, c); ExtStmt(t, t2, ret, a); if b.Some? { ExtStmt(t, t2, ret, b.value); }
    case For(_, i, c, p, b) =>
      ExtStmt(t, t2, ret, i);
      if c.Some? { ExtScalar(t, t2, c.value); }
      if p.Some? { ExtScalar(t, t2, p.value); }
      ExtStmt(t, t2, ret, b);
    case While(_, c, b) => ExtScalar(t, t2, c); ExtStmt(t, t2, ret, b);
    case DoWhile(_, c, b) => ExtScalar(t, t2, c); ExtStmt(t, t2, ret, b);
    case Switch(_, c, b, _, _) => ExtScalar(t, t2, c); ExtStmt(t, t2, ret, b);
    case Case(_, _, _, b) => ExtStmt(t, t2, ret, b);
    case Default(_, b) => ExtStmt(t, t2, ret, b);
    case Label(_, _, b) => ExtStmt(t, t2, ret, b);
    case _ =>
  }

  lemma {:induction false} ExtItems(t: Types, t2: Types, ret: Ty, items: seq<Stmt>)
    requires Grow(t, t2) && ItemsTyped(t, ret, items)
    ensures ItemsTyped(t2, ret, items)
    decreases items, 0
  {
    if items != [] {
      ExtStmt(t, t2, ret, items[0]);
      ExtItems(t, t2, ret, items[1..]);
    }
  }

  lemma Widen(t: Types, ret: Ty, code: seq<Instr>)
    requires ExprCodeOk(t, code)
    ensures CodeOk(t, ret, code)
  {
    hide InstrOk;
  }

  lemma ExtBody(t: Types, t2: Types, ret: Ty, code: seq<Instr>)
    requires Grow(t, t2) && CodeOk(t, ret, code)
    ensures CodeOk(t2, ret, code)
  {
    hide InstrOk, Grow;
    forall k | 0 <= k < |code| ensures InstrOk(t2, code[k]) { ExtInstr(t, t2, code[k]); }
  }

  lemma JoinBody(t: Types, ret: Ty, a: seq<Instr>, b: seq<Instr>)
    requires CodeOk(t, ret, a) && CodeOk(t, ret, b)
    ensures CodeOk(t, ret, a + b)
  {
    hide InstrOk, ReturnOk;
  }

  /** The code 'o' is typed over an extension 't2' of 't', and returns 'ret'. */
  ghost predicate Sound(t: Types, t2: Types, ret: Ty, o: Out) {
    Ext(t, t2) && Bounded(t2, o.np) && CodeOk(t2, ret, o.code)
  }

  /** Code of an expression inside a statement. */
  lemma ExprSound(t: Types, ret: Ty, e: Expr, np: nat, nl: nat) returns (t2: Types)
    requires ValueTyped(t, e) && Bounded(t, np)
    ensures Sound(t, t2, ret, GenExpr(e, np, nl)) && ResultOk(t2, GenExpr(e, np, nl).val, TypeOf(e))
  {
    hide InstrOk, Grow, Bounded, GenExpr, ExprTyped, WellTyped;
    t2 := GenTyped(t, e, np, nl);
    Widen(t2, ret, GenExpr(e, np, nl).code);
  }

  lemma OptionalSound(t: Types, ret: Ty, e: Option<Expr>, np: nat, nl: nat) returns (t2: Types)
    requires (e.Some? ==> ValueTyped(t, e.value)) && Bounded(t, np)
    ensures Sound(t, t2, ret, GenOptional(e, np, nl))
    ensures if e.Some? then ResultOk(t2, GenOptional(e, np, nl).val, TypeOf(e.value)) else GenOptional(e, np, nl).val.NoValue?
  {
    hide InstrOk, Grow, Bounded, GenExpr, ValueTyped, ResultOk;
    if e.Some? { t2 := ExprSound(t, ret, e.value, np, nl); } else { t2 := t; ExtRefl(t); }
  }

  lemma {:induction false} DeclsSound(t: Types, ret: Ty, ds: seq<Decl>, np: nat, nl: nat) returns (t2: Types)
    requires DeclsTyped(t, ds) && Bounded(t, np)
    ensures Sound(t, t2, ret, GenDecls(ds, np, nl))
    decreases |ds|
  {
    hide InstrOk, Grow, Bounded, GenExpr, ValueTyped, SymTyped, ValOk;
    t2 := t;
    ExtRefl(t);
    if ds != [] {
      if !ds[0].isObject || !ds[0].isAuto || ds[0].init.None? {
        t2 := DeclsSound(t, ret, ds[1..], np, nl);
      } else {
        var g := GenExpr(ds[0].init.value, np, nl);
        var t1 := ExprSound(t, ret, ds[0].init.value, np, nl);
        ExtDecls(t, t1, ds[1..]);
        t2 := DeclsSound(t1, ret, ds[1..], g.np, g.nl);
        ExtTrans(t, t1, t2);
        ExtBody(t1, t2, ret, g.code);
        ExtVal(t1, t2, g.val);
        ExtSym(t, t2, ds[0].sym);
        ObjectOk(t2, ds[0].sym);
        var x, h := Object(ds[0].sym), GenDecls(ds[1..], g.np, g.nl);
        CopyOk(t2, g.val, x);
        JoinBody(t2, ret, [ICopy(g.val, x)], h.code);
        JoinBody(t2, ret, g.code, [ICopy(g.val, x)] + h.code);
      }
    }
  }

  /** The tests of a switch: each temporary is new, each case value a constant of the condition's type. */
  lemma {:induction false} TestsSound(t: Types, ret: Ty, cases: seq<CaseRef>, v: Value, np: nat) returns (t2: Types)
    requires ValOk(t, v) && CasesFit(cases, TyOf(v)) && Bounded(t, np)
    ensures Ext(t, t2) && Bounded(t2, np + |cases|) && CodeOk(t2, ret, GenTests(cases, v, np))
    decreases |cases|
  {
    hide InstrOk, Grow, Bounded, ValOk;
    t2 := t;
    ExtRefl(t);
    if cases != [] {
      var t1 := With(t, np, Int);
      WithExt(t, np, Int);
      ExtVal(t, t1, v);
      t2 := TestsSound(t1, ret, cases[1..], v, np + 1);
      ExtTrans(t, t1, t2);
      ExtVal(t1, t2, v);
      ExtVal(t1, t2, Pseudo(Int, np));
      var i := IBinary(Eq, v, Const(TyOf(v), cases[0].value), Pseudo(Int, np));
      var j := IJumpIfNotZero(Pseudo(Int, np), Lbl(LCase, cases[0].id));
      TestOk(t2, ret, v, cases[0].value, np, j.target);
      JoinBody(t2, ret, [i, j], GenTests(cases[1..], v, np + 1));
    }
  }

  lemma TestOk(t: Types, ret: Ty, v: Value, c: int, np: nat, l: Lbl)
    requires ValOk(t, v) && Fits(c, TyOf(v)) && DstOk(t, Pseudo(Int, np))
    ensures CodeOk(t, ret, [IBinary(Eq, v, Const(TyOf(v), c), Pseudo(Int, np)), IJumpIfNotZero(Pseudo(Int, np), l)])
  {
  }

  lemma BranchOk(t: Types, ret: Ty, v: Value, l: Lbl)
    requires ValOk(t, v)
    ensures CodeOk(t, ret, [IJumpIfZero(v, l)]) && CodeOk(t, ret, [IJumpIfNotZero(v, l)])
  {
  }

  lemma LabelsOk(t: Types, ret: Ty, a: Lbl, b: Lbl)
    ensures CodeOk(t, ret, [ILabel(a)]) && CodeOk(t, ret, [IJump(a)]) && CodeOk(t, ret, [IJump(a), ILabel(b)])
  {
  }

  /** Every statement's code is typed as the back end needs it. */
  lemma {:induction false} StmtSound(t: Types, ret: Ty, s: Stmt, np: nat, nl: nat) returns (t2: Types)
    requires StmtTyped(t, ret, s) && Bounded(t, np)
    ensures Sound(t, t2, ret, GenStmt(s, np, nl))
    decreases s, 1
  {
    hide InstrOk, Grow, Bounded, GenExpr, ValueTyped, DeclsTyped, GenDecls, CodeOk, GenTests, ValOk;
    t2 := t;
    ExtRefl(t);
    match s
    case Null => JustCode(t, ret, []);
    case ExprStmt(e) => t2 := ExprSound(t, ret, e, np, nl);
    case DeclStmt(ds) => t2 := DeclsSound(t, ret, ds, np, nl);
    case Block(items) => t2 := ItemsSound(t, ret, items, np, nl);
    case Return(_) => t2 := ReturnSound(t, ret, s, np, nl);
    case If(_, _, _) => t2 := IfSound(t, ret, s, np, nl);
    case For(_, _, _, _, _) => t2 := ForSound(t, ret, s, np, nl);
    case While(_, _, _) => t2 := LoopSound(t, ret, s, np, nl);
    case DoWhile(_, _, _) => t2 := LoopSound(t, ret, s, np, nl);
    case Switch(_, _, _, _, _) => t2 := SwitchSound(t, ret, s, np, nl);
    case Case(id, _, _, b) => t2 := MarkedSound(t, ret, b, Lbl(LCase, id), np, nl);
    case Default(id, b) => t2 := MarkedSound(t, ret, b, Lbl(LCase, id), np, nl);
    case Label(id, _, b) => t2 := MarkedSound(t, ret, b, Lbl(LUser, id), np, nl);
    case Break(id) => LabelsOk(t, ret, Lbl(LBreak, id), Temp(0));
    case Continue(id) => LabelsOk(t, ret, Lbl(LContinue, id), Temp(0));
    case Goto(_, id) => LabelsOk(t, ret, Lbl(LUser, id), Temp(0));
  }

  lemma JustCode(t: Types, ret: Ty, code: seq<Instr>)
    requires code == []
    ensures CodeOk(t, ret, code)
  {
  }

  lemma {:induction false} MarkedSound(t: Types, ret: Ty, b: Stmt, l: Lbl, np: nat, nl: nat) returns (t2: Types)
    requires StmtTyped(t, ret, b) && Bounded(t, np)
    ensures var g := GenStmt(b, np, nl);
            Sound(t, t2, ret, Out([ILabel(l)] + g.code, NoValue, g.np, g.nl))
    decreases b, 2
  {
    hide InstrOk, Grow, Bounded, GenStmt, StmtTyped, CodeOk;
    t2 := StmtSound(t, ret, b, np, nl);
    LabelsOk(t2, ret, l, l);
    JoinBody(t2, ret, [ILabel(l)], GenStmt(b, np, nl).code);
  }

  lemma ReturnSound(t: Types, ret: Ty, s: Stmt, np: nat, nl: nat) returns (t2: Types)
    requires s.Return? && StmtTyped(t, ret, s) && Bounded(t, np)
    ensures Sound(t, t2, ret, GenStmt(s, np, nl))
  {
    hide InstrOk, Grow, Bounded, ValueTyped, GenOptional;
    var g := GenOptional(s.result, np, nl);
    t2 := OptionalSound(t, ret, s.result, np, nl);
    ReturnTyped(t2, ret, g.val);
    JoinBody(t2, ret, g.code, [IReturn(g.val)]);
  }

  lemma ReturnTyped(t: Types, ret: Ty, v: Value)
    requires if ret.Void? then v.NoValue? else IsArithmetic(ret) && ResultOk(t, v, ret)
    ensures CodeOk(t, ret, [IReturn(v)])
  {
  }

  lemma {:induction false} IfSound(t: Types, ret: Ty, s: Stmt, np: nat, nl: nat) returns (t2: Types)
    requires s.If? && StmtTyped(t, ret, s) && Bounded(t, np)
    ensures Sound(t, t2, ret, GenStmt(s, np, nl))
    decreases s, 0
  {
    hide InstrOk, Grow, Bounded, GenExpr, ValueTyped, CodeOk;
    var gc := GenExpr(s.cond, np, nl);
    var tc := ExprSound(t, ret, s.cond, np, nl);
    ExtStmt(t, tc, ret, s.thn);
    var used := if s.els.None? then 1 else 2;
    var ga := GenStmt(s.thn, gc.np, gc.nl + used);
    var ta := StmtSound(tc, ret, s.thn, gc.np, gc.nl + used);
    ExtTrans(t, tc, ta);
    t2 := ta;
    ExtRefl(ta);
    if s.els.Some? {
      ExtStmt(t, ta, ret, s.els.value);
      t2 := StmtSound(ta, ret, s.els.value, ga.np, ga.nl);
      ExtTrans(t, ta, t2);
      ExtTrans(tc, ta, t2);
    }
    ExtBody(tc, t2, ret, gc.code);
    ExtVal(tc, t2, gc.val);
    ExtBody(ta, t2, ret, ga.code);
    var l := Temp(gc.nl);
    LabelsOk(t2, ret, l, Temp(gc.nl + 1));
    if s.els.None? {
      BranchOk(t2, ret, gc.val, l);
      JoinBody(t2, ret, ga.code, [ILabel(l)]);
      JoinBody(t2, ret, [IJumpIfZero(gc.val, l)], ga.code + [ILabel(l)]);
      JoinBody(t2, ret, gc.code, [IJumpIfZero(gc.val, l)] + (ga.code + [ILabel(l)]));
    } else {
      var gb := GenStmt(s.els.value, ga.np, ga.nl);
      var mid, br := [IJump(l), ILabel(Temp(gc.nl + 1))], [IJumpIfZero(gc.val, Temp(gc.nl + 1))];
      BranchOk(t2, ret, gc.val, Temp(gc.nl + 1));
      JoinBody(t2, ret, gb.code, [ILabel(l)]);
      JoinBody(t2, ret, mid, gb.code + [ILabel(l)]);
      JoinBody(t2, ret, ga.code, mid + (gb.code + [ILabel(l)]));
      JoinBody(t2, ret, br, ga.code + (mid + (gb.code + [ILabel(l)])));
      JoinBody(t2, ret, gc.code, br + (ga.code + (mid + (gb.code + [ILabel(l)]))));
    }
  }

  lemma ExitOk(t: Types, ret: Ty, c: Option<Expr>, v: Value, id: nat)
    requires c.Some? ==> ValOk(t, v)
    ensures CodeOk(t, ret, ExitTest(c, v, id))
  {
  }

  lemma {:induction false} ForSound(t: Types, ret: Ty, s: Stmt, np: nat, nl: nat) returns (t2: Types)
    requires s.For? && StmtTyped(t, ret, s) && Bounded(t, np)
    ensures Sound(t, t2, ret, GenStmt(s, np, nl))
    decreases s, 0
  {
    hide InstrOk, Grow, Bounded, GenOptional, ValueTyped, CodeOk, ExitTest;
    var gi := GenStmt(s.init, np, nl + 1);
    var gt := GenOptional(s.test, gi.np, gi.nl);
    var gb := GenStmt(s.body, gt.np, gt.nl);
    var gp := GenOptional(s.post, gb.np, gb.nl);
    var ti := StmtSound(t, ret, s.init, np, nl + 1);
    if s.test.Some? { ExtScalar(t, ti, s.test.value); }
    var tt := OptionalSound(ti, ret, s.test, gi.np, gi.nl);
    ExtTrans(t, ti, tt);
    ExtStmt(t, tt, ret, s.body);
    var tb := StmtSound(tt, ret, s.body, gt.np, gt.nl);
    ExtTrans(t, tt, tb);
    if s.post.Some? { ExtScalar(t, tb, s.post.value); }
    t2 := OptionalSound(tb, ret, s.post, gb.np, gb.nl);
    ExtTrans(t, tb, t2);
    ExtTrans(tt, tb, t2);
    ExtTrans(ti, tt, t2);
    ExtBody(ti, t2, ret, gi.code);
    ExtBody(tt, t2, ret, gt.code);
    ExtBody(tb, t2, ret, gb.code);
    if s.test.Some? { ExtVal(tt, t2, gt.val); }
    ExitOk(t2, ret, s.test, gt.val, s.id);
    ForJoin(t2, ret, gi.code, gt.code, ExitTest(s.test, gt.val, s.id), gb.code, gp.code, s.id, nl);
  }

  lemma ForJoin(t: Types, ret: Ty, i: seq<Instr>, c: seq<Instr>, x: seq<Instr>, b: seq<Instr>, p: seq<Instr>, id: nat, nl: nat)
    requires CodeOk(t, ret, i) && CodeOk(t, ret, c) && CodeOk(t, ret, x) && CodeOk(t, ret, b) && CodeOk(t, ret, p)
    ensures CodeOk(t, ret, i + ([ILabel(Temp(nl))] + (c + (x + (b + ([ILabel(Lbl(LContinue, id))]
                           + (p + [IJump(Temp(nl)), ILabel(Lbl(LBreak, id))])))))))
  {
    hide CodeOk;
    LabelsOk(t, ret, Temp(nl), Lbl(LBreak, id));
    LabelsOk(t, ret, Lbl(LContinue, id), Lbl(LBreak, id));
    var tail := p + [IJump(Temp(nl)), ILabel(Lbl(LBreak, id))];
    JoinBody(t, ret, p, [IJump(Temp(nl)), ILabel(Lbl(LBreak, id))]);
    JoinBody(t, ret, [ILabel(Lbl(LContinue, id))], tail);
    JoinBody(t, ret, b, [ILabel(Lbl(LContinue, id))] + tail);
    JoinBody(t, ret, x, b + ([ILabel(Lbl(LContinue, id))] + tail));
    JoinBody(t, ret, c, x + (b + ([ILabel(Lbl(LContinue, id))] + tail)));
    JoinBody(t, ret, [ILabel(Temp(nl))], c + (x + (b + ([ILabel(Lbl(LContinue, id))] + tail))));
    JoinBody(t, ret, i, [ILabel(Temp(nl))] + (c + (x + (b + ([ILabel(Lbl(LContinue, id))] + tail)))));
  }

  lemma {:induction false} LoopSound(t: Types, ret: Ty, s: Stmt, np: nat, nl: nat) returns (t2: Types)
    requires (s.While? || s.DoWhile?) && StmtTyped(t, ret, s) && Bounded(t, np)
    ensures Sound(t, t2, ret, GenStmt(s, np, nl))
    decreases s, 0
  {
    hide InstrOk, Grow, Bounded, GenExpr, ValueTyped, CodeOk;
    var id := s.id;
    var cnt, brk := Lbl(LContinue, id), Lbl(LBreak, id);
    if s.While? {
      var gc := GenExpr(s.cond, np, nl);
      var gb := GenStmt(s.body, gc.np, gc.nl);
      var tc := ExprSound(t, ret, s.cond, np, nl);
      ExtStmt(t, tc, ret, s.body);
      t2 := StmtSound(tc, ret, s.body, gc.np, gc.nl);
      ExtTrans(t, tc, t2);
      ExtBody(tc, t2, ret, gc.code);
      ExtVal(tc, t2, gc.val);
      LabelsOk(t2, ret, cnt, brk);
      BranchOk(t2, ret, gc.val, brk);
      JoinBody(t2, ret, gb.code, [IJump(cnt), ILabel(brk)]);
      JoinBody(t2, ret, [IJumpIfZero(gc.val, brk)], gb.code + [IJump(cnt), ILabel(brk)]);
      JoinBody(t2, ret, gc.code, [IJumpIfZero(gc.val, brk)] + (gb.code + [IJump(cnt), ILabel(brk)]));
      JoinBody(t2, ret, [ILabel(cnt)], gc.code + ([IJumpIfZero(gc.val, brk)] + (gb.code + [IJump(cnt), ILabel(brk)])));
    } else {
      var gb := GenStmt(s.body, np, nl + 1);
      var gc := GenExpr(s.cond, gb.np, gb.nl);
      var tb := StmtSound(t, ret, s.body, np, nl + 1);
      ExtScalar(t, tb, s.cond);
      t2 := ExprSound(tb, ret, s.cond, gb.np, gb.nl);
      ExtTrans(t, tb, t2);
      ExtBody(tb, t2, ret, gb.code);
      LabelsOk(t2, ret, cnt, brk);
      LabelsOk(t2, ret, Temp(nl), brk);
      LabelsOk(t2, ret, brk, brk);
      BranchOk(t2, ret, gc.val, Temp(nl));
      JoinBody(t2, ret, [IJumpIfNotZero(gc.val, Temp(nl))], [ILabel(brk)]);
      assert [IJumpIfNotZero(gc.val, Temp(nl))] + [ILabel(brk)] == [IJumpIfNotZero(gc.val, Temp(nl)), ILabel(brk)];
      JoinBody(t2, ret, gc.code, [IJumpIfNotZero(gc.val, Temp(nl)), ILabel(brk)]);
      JoinBody(t2, ret, [ILabel(cnt)], gc.code + [IJumpIfNotZero(gc.val, Temp(nl)), ILabel(brk)]);
      JoinBody(t2, ret, gb.code, [ILabel(cnt)] + (gc.code + [IJumpIfNotZero(gc.val, Temp(nl)), ILabel(brk)]));
      JoinBody(t2, ret, [ILabel(Temp(nl))], gb.code + ([ILabel(cnt)] + (gc.code + [IJumpIfNotZero(gc.val, Temp(nl)), ILabel(brk)])));
    }
  }

  lemma {:induction false} SwitchSound(t: Types, ret: Ty, s: Stmt, np: nat, nl: nat) returns (t2: Types)
    requires s.Switch? && StmtTyped(t, ret, s) && Bounded(t, np)
    ensures Sound(t, t2, ret, GenStmt(s, np, nl))
    decreases s, 0
  {
    hide InstrOk, Grow, Bounded, GenExpr, ValueTyped, CodeOk, GenTests, CasesFit, SwitchElse;
    var gc := GenExpr(s.cond, np, nl);
    var tests := GenTests(s.cases, gc.val, gc.np);
    var gb := GenStmt(s.body, gc.np + |s.cases|, gc.nl);
    var tc := ExprSound(t, ret, s.cond, np, nl);
    var tt := TestsSound(tc, ret, s.cases, gc.val, gc.np);
    ExtTrans(t, tc, tt);
    ExtStmt(t, tt, ret, s.body);
    t2 := StmtSound(tt, ret, s.body, gc.np + |s.cases|, gc.nl);
    ExtTrans(t, tt, t2);
    ExtTrans(tc, tt, t2);
    ExtBody(tc, t2, ret, gc.code);
    ExtBody(tt, t2, ret, tests);
    var els, end := SwitchElse(s.id, s.dflt), [ILabel(Lbl(LBreak, s.id))];
    LabelsOk(t2, ret, els, els);
    LabelsOk(t2, ret, Lbl(LBreak, s.id), els);
    JoinBody(t2, ret, gb.code, end);
    JoinBody(t2, ret, [IJump(els)], gb.code + end);
    JoinBody(t2, ret, tests, [IJump(els)] + (gb.code + end));
    JoinBody(t2, ret, gc.code, tests + ([IJump(els)] + (gb.code + end)));
  }

  lemma {:induction false} ItemsSound(t: Types, ret: Ty, items: seq<Stmt>, np: nat, nl: nat) returns (t2: Types)
    requires ItemsTyped(t, ret, items) && Bounded(t, np)
    ensures Sound(t, t2, ret, GenItems(items, np, nl))
    decreases items, 0
  {
    hide InstrOk, Grow, Bounded, GenStmt, StmtTyped;
    t2 := t;
    ExtRefl(t);
    if items != [] {
      var g := GenStmt(items[0], np, nl);
      var t1 := StmtSound(t, ret, items[0], np, nl);
      ExtItems(t, t1, ret, items[1..]);
      t2 := ItemsSound(t1, ret, items[1..], g.np, g.nl);
      ExtTrans(t, t1, t2);
      ExtBody(t1, t2, ret, g.code);
      JoinBody(t2, ret, g.code, GenItems(items[1..], g.np, g.nl).code);
    }
  }

  /** A whole function's code is typed, the return for running off the end included. */
  lemma FunctionTyped(t: Types, ret: Ty, body: Stmt, np: nat, nl: nat) returns (t2: Types)
    requires StmtTyped(t, ret, body) && Bounded(t, np) && (IsArithmetic(ret) || ret.Void?)
    ensures Sound(t, t2, ret, GenFunction(body, ret, np, nl))
  {
    hide InstrOk, Grow, Bounded, GenStmt, StmtTyped;
    t2 := StmtSound(t, ret, body, np, nl);
    var v := if ret.Void? then NoValue else Const(ret, 0);
    ReturnTyped(t2, ret, v);
    JoinBody(t2, ret, GenStmt(body, np, nl).code, [IReturn(v)]);
  }
}
