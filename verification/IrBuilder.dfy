/** The builder that appends instructions to the current function and bumps its two counters. */
module IrBuilder {
  import opened Arith
  import opened Ast
  import opened Semantics
  import opened Ir
  import opened IrGen
  import opened StmtParts
  import opened Program

  /** The i-th argument's code comes after that of the arguments before it. */
  lemma {:induction false} ArgsSnoc(args: seq<Expr>, i: nat, np: nat, nl: nat)
    requires i < |args|
    ensures var a := GenArgs(args[..i], np, nl);
            var g := GenExpr(args[i], a.np, a.nl);
            GenArgs(args[..i + 1], np, nl) == Outs(a.code + g.code, a.vals + [g.val], g.np, g.nl)
  {
    hide GenExpr;
    var g := GenExpr(args[0], np, nl);
    if i == 0 {
      assert args[..1] == [args[0]] && args[..1][1..] == [] && args[..0] == [];
    } else {
      ArgsSnoc(args[1..], i - 1, g.np, g.nl);
      assert args[..i][1..] == args[1..][..i - 1] && args[..i + 1][1..] == args[1..][..i];
    }
  }

  lemma {:induction false} ItemsSnoc(items: seq<Stmt>, i: nat, np: nat, nl: nat)
    requires i < |items|
    ensures var a := GenItems(items[..i], np, nl);
            var g := GenStmt(items[i], a.np, a.nl);
            GenItems(items[..i + 1], np, nl) == Out(a.code + g.code, NoValue, g.np, g.nl)
  {
    hide GenStmt;
    var g := GenStmt(items[0], np, nl);
    if i == 0 {
      assert items[..1] == [items[0]] && items[..1][1..] == [] && items[..0] == [];
    } else {
      ItemsSnoc(items[1..], i - 1, g.np, g.nl);
      assert items[..i][1..] == items[1..][..i - 1] && items[..i + 1][1..] == items[1..][..i];
    }
  }

  lemma {:induction false} DeclsSnoc(ds: seq<Decl>, i: nat, np: nat, nl: nat)
    requires i < |ds|
    ensures var a := GenDecls(ds[..i], np, nl);
            var d := ds[i];
            GenDecls(ds[..i + 1], np, nl) ==
            (if !d.isObject || !d.isAuto || d.init.None? then a
             else
               var g := GenExpr(d.init.value, a.np, a.nl);
               Out(a.code + (g.code + [ICopy(g.val, Object(d.sym))]), NoValue, g.np, g.nl))
  {
    hide GenExpr;
    if i == 0 {
      assert ds[..1] == [ds[0]] && ds[..1][1..] == [] && ds[..0] == [];
    } else {
      assert ds[..i][1..] == ds[1..][..i - 1] && ds[..i + 1][1..] == ds[1..][..i];
      if !ds[0].isObject || !ds[0].isAuto || ds[0].init.None? {
        DeclsSnoc(ds[1..], i - 1, np, nl);
      } else {
        var g := GenExpr(ds[0].init.value, np, nl);
        DeclsSnoc(ds[1..], i - 1, g.np, g.nl);
      }
    }
  }

  lemma {:induction false} TestsSnoc(cases: seq<CaseRef>, i: nat, v: Value, np: nat)
    requires i < |cases|
    ensures GenTests(cases[..i + 1], v, np) ==
            GenTests(cases[..i], v, np)
            + [IBinary(Eq, v, Const(TyOf(v), cases[i].value), Pseudo(Int, np + i)),
               IJumpIfNotZero(Pseudo(Int, np + i), Lbl(LCase, cases[i].id))]
  {
    if i == 0 {
      assert cases[..1] == [cases[0]] && cases[..1][1..] == [] && cases[..0] == [];
    } else {
      TestsSnoc(cases[1..], i - 1, v, np + 1);
      assert cases[..i][1..] == cases[1..][..i - 1] && cases[..i + 1][1..] == cases[1..][..i];
    }
  }

  /** Code appended piece by piece is the nested concatenation the translation is defined by. */
  lemma Nest5(w: seq<Instr>, a: seq<Instr>, b: seq<Instr>, c: seq<Instr>, d: seq<Instr>, e: seq<Instr>)
    ensures w + a + b + c + d + e == w + (a + (b + (c + (d + e))))
  {
  }

  lemma Nest6(w: seq<Instr>, a: seq<Instr>, b: seq<Instr>, c: seq<Instr>, d: seq<Instr>, e: seq<Instr>, f: seq<Instr>)
    ensures w + a + b + c + d + e + f == w + (a + (b + (c + (d + (e + f)))))
  {
    Nest5(w, a, b, c, d, e + f);
    assert w + a + b + c + d + e + f == w + a + b + c + d + (e + f);
  }

  lemma Nest8(w: seq<Instr>, a: seq<Instr>, b: seq<Instr>, c: seq<Instr>, d: seq<Instr>, e: seq<Instr>, f: seq<Instr>,
              g: seq<Instr>, h: seq<Instr>)
    ensures w + a + b + c + d + e + f + g + h == w + (a + (b + (c + (d + (e + (f + (g + h)))))))
  {
    Nest5(w, a, b, c, d, e + (f + (g + h)));
    Nest5(w + a + b + c, d, e, f, g, h);
    Nest5(w, a, b, c, d, e);
  }

  class Builder {
    var instrs: seq<Instr>
    var nextPseudo: nat
    var nextLabel: nat

    constructor (symbolCount: nat)
      ensures instrs == [] && nextPseudo == symbolCount && nextLabel == 0
    {
      instrs, nextPseudo, nextLabel := [], symbolCount, 0;
    }

    method ValueTemp(t: Ty) returns (v: Value)
      modifies this`nextPseudo
      ensures v == Pseudo(t, old(nextPseudo)) && nextPseudo == old(nextPseudo) + 1
    {
      v := Pseudo(t, nextPseudo);
      nextPseudo := nextPseudo + 1;
    }

    method TempLabel() returns (l: Lbl)
      modifies this`nextLabel
      ensures l == Temp(old(nextLabel)) && nextLabel == old(nextLabel) + 1
    {
      l := Temp(nextLabel);
      nextLabel := nextLabel + 1;
    }

    method Emit(i: Instr)
      modifies this`instrs
      ensures instrs == old(instrs) + [i]
    {
      instrs := instrs + [i];
    }

    /** The counters and the code are those of 'g', appended to what was there. */
    ghost predicate Appended(was: seq<Instr>, g: Out)
      reads this
    {
      instrs == was + g.code && nextPseudo == g.np && nextLabel == g.nl
    }

    method EmitConvert(v: Value, t: Ty) returns (r: Value)
      modifies this
      ensures Appended(old(instrs), GenConvert(v, t, old(nextPseudo), old(nextLabel)))
      ensures r == GenConvert(v, t, old(nextPseudo), old(nextLabel)).val
    {
      if TyOf(v) == t {
        r := v;
      } else if v.Const? {
        r := Const(t, Convert(v.c, t));
      } else {
        r := ValueTemp(t);
        Emit(ICast(v, r));
      }
    }

    method EmitShort(op: BinOp, v: Value, target: Lbl)
      modifies this`instrs
      ensures instrs == old(instrs) + [if op.LogAnd? then IJumpIfZero(v, target) else IJumpIfNotZero(v, target)]
    {
      Emit(if op.LogAnd? then IJumpIfZero(v, target) else IJumpIfNotZero(v, target));
    }

    /** Falling through first, the early exit second. */
    method EmitOutcomes(op: BinOp, v: Value, out: Lbl, end: Lbl, ghost nl: nat)
      requires out == Temp(nl) && end == Temp(nl + 1)
      modifies this`instrs
      ensures instrs == old(instrs) + ShortTail(op, v, nl)
    {
      Emit(ICopy(Const(Int, Truth(op.LogAnd?)), v));
      Emit(IJump(end));
      Emit(ILabel(out));
      Emit(ICopy(Const(Int, Truth(op.LogOr?)), v));
      Emit(ILabel(end));
    }

    method EmitLogical(e: Expr) returns (v: Value)
      requires e.Binary? && IsLogical(e.bop)
      modifies this
      ensures Appended(old(instrs), GenExpr(e, old(nextPseudo), old(nextLabel)))
      ensures v == GenExpr(e, old(nextPseudo), old(nextLabel)).val
      decreases e, 0
    {
      hide GenExpr, ShortTail;
      ghost var was, np, nl := instrs, nextPseudo, nextLabel;
      LogicalCode(e, np, nl);
      var out := TempLabel();
      var end := TempLabel();
      v := ValueTemp(e.ty);
      var lhs := EmitExpr(e.left);
      EmitShort(e.bop, lhs, out);
      var rhs := EmitExpr(e.right);
      EmitShort(e.bop, rhs, out);
      EmitOutcomes(e.bop, v, out, end, nl);
      ghost var l := GenExpr(e.left, np + 1, nl + 2);
      ghost var r := GenExpr(e.right, l.np, l.nl);
      Nest5(was, l.code, ShortJump(e.bop, lhs, nl), r.code, ShortJump(e.bop, rhs, nl), ShortTail(e.bop, v, nl));
    }

    /** The copy of a conditional's branch into its destination, if it has one. */
    method EmitBranchValue(x: Value, dst: Value)
      modifies this`instrs
      ensures instrs == old(instrs) + CopyTo(x, dst)
    {
      if !dst.NoValue? { Emit(ICopy(x, dst)); }
    }

    method EmitConditional(e: Expr) returns (v: Value)
      requires e.Conditional?
      modifies this
      ensures Appended(old(instrs), GenExpr(e, old(nextPseudo), old(nextLabel)))
      ensures v == GenExpr(e, old(nextPseudo), old(nextLabel)).val
      decreases e, 0
    {
      hide GenExpr, CopyTo;
      ghost var was, np, nl := instrs, nextPseudo, nextLabel;
      ConditionalCode(e, np, nl);
      var els := TempLabel();
      var end := TempLabel();
      v := NoValue;
      if !e.ty.Void? { v := ValueTemp(e.ty); }
      var cond := EmitExpr(e.cond);
      Emit(IJumpIfZero(cond, els));
      var a := EmitExpr(e.thn);
      EmitBranchValue(a, v);
      ghost var sofar := instrs;
      Emit(IJump(end));
      Emit(ILabel(els));
      assert instrs == sofar + [IJump(end), ILabel(els)];
      var b := EmitExpr(e.els);
      EmitBranchValue(b, v);
      Emit(ILabel(end));
      ghost var gc := GenExpr(e.cond, CondNp(e, np), nl + 2);
      ghost var ga := GenExpr(e.thn, gc.np, gc.nl);
      ghost var gb := GenExpr(e.els, ga.np, ga.nl);
      Nest8(was, gc.code, [IJumpIfZero(cond, els)], ga.code, CopyTo(a, v), [IJump(end), ILabel(els)], gb.code, CopyTo(b, v), [ILabel(end)]);
    }

    method EmitCompound(e: Expr) returns (v: Value)
      requires e.Compound?
      modifies this
      ensures Appended(old(instrs), GenExpr(e, old(nextPseudo), old(nextLabel)))
      ensures v == GenExpr(e, old(nextPseudo), old(nextLabel)).val
      decreases e, 0
    {
      hide GenExpr, GenConvert;
      ghost var was, np, nl := instrs, nextPseudo, nextLabel;
      CompoundCode(e, np, nl);
      v := Object(e.sym);
      var rhs := EmitExpr(e.rvalue);
      var left := EmitConvert(v, e.opTy);
      var result := ValueTemp(e.opTy);
      Emit(IBinary(e.bop, left, rhs, result));
      var back := EmitConvert(result, e.sym.ty);
      Emit(ICopy(back, v));
      ghost var g := GenExpr(e.rvalue, np, nl);
      ghost var x := GenConvert(v, e.opTy, g.np, g.nl);
      Nest5(was, g.code, x.code, [IBinary(e.bop, left, rhs, result)],
            GenConvert(result, e.sym.ty, x.np + 1, x.nl).code, [ICopy(back, v)]);
    }

    method EmitArgs(args: seq<Expr>) returns (vals: seq<Value>)
      modifies this
      ensures var g := GenArgs(args, old(nextPseudo), old(nextLabel));
              instrs == old(instrs) + g.code && vals == g.vals && nextPseudo == g.np && nextLabel == g.nl
      decreases args, 2
    {
      hide GenExpr;
      ghost var was, np, nl := instrs, nextPseudo, nextLabel;
      vals := [];
      for i := 0 to |args|
        invariant var g := GenArgs(args[..i], np, nl);
                  instrs == was + g.code && vals == g.vals && nextPseudo == g.np && nextLabel == g.nl
      {
        ArgsSnoc(args, i, np, nl);
        var a := EmitExpr(args[i]);
        vals := vals + [a];
      }
      assert args[..|args|] == args;
    }

    method EmitCall(e: Expr) returns (v: Value)
      requires e.Call?
      modifies this
      ensures Appended(old(instrs), GenExpr(e, old(nextPseudo), old(nextLabel)))
      ensures v == GenExpr(e, old(nextPseudo), old(nextLabel)).val
      decreases e, 0
    {
      hide GenExpr, GenArgs;
      CallCode(e, nextPseudo, nextLabel);
      var vals := EmitArgs(e.args);
      v := NoValue;
      if !e.ty.Void? { v := ValueTemp(e.ty); }
      Emit(ICall(e.fn, vals, v));
    }

    method EmitArithmetic(e: Expr) returns (v: Value)
      requires e.Binary? && !IsLogical(e.bop)
      modifies this
      ensures Appended(old(instrs), GenExpr(e, old(nextPseudo), old(nextLabel)))
      ensures v == GenExpr(e, old(nextPseudo), old(nextLabel)).val
      decreases e, 0
    {
      var lhs := EmitExpr(e.left);
      var rhs := EmitExpr(e.right);
      v := ValueTemp(e.ty);
      Emit(IBinary(e.bop, lhs, rhs, v));
    }

    method EmitIncDec(e: Expr) returns (v: Value)
      requires e.IncDec?
      modifies this
      ensures Appended(old(instrs), GenExpr(e, old(nextPseudo), old(nextLabel)))
      ensures v == GenExpr(e, old(nextPseudo), old(nextLabel)).val
    {
      var x := Object(e.sym);
      v := x;
      if !e.prefix {
        v := ValueTemp(e.sym.ty);
        Emit(ICopy(x, v));
      }
      Emit(IBinary(if e.inc then Add else Sub, x, Const(e.sym.ty, 1), x));
    }

    /** Appends the code of 'e' and returns its operand. */
    method EmitExpr(e: Expr) returns (v: Value)
      modifies this
      ensures Appended(old(instrs), GenExpr(e, old(nextPseudo), old(nextLabel)))
      ensures v == GenExpr(e, old(nextPseudo), old(nextLabel)).val
      decreases e, 1
    {
      match e
      case IntConst(c) => v := Const(Int, c);
      case LongConst(c) => v := Const(Long, c);
      case Ident(s) => v := Object(s);
      case Unary(op, a, t) =>
        v := EmitExpr(a);
        if !op.Plus? {
          var src := v;
          v := ValueTemp(t);
          Emit(IUnary(op, src, v));
        }
      case Binary(op, a, b, t) =>
        if IsLogical(op) { v := EmitLogical(e); } else { v := EmitArithmetic(e); }
      case IncDec(_, _, _) => v := EmitIncDec(e);
      case Assign(s, a) =>
        v := Object(s);
        var rhs := EmitExpr(a);
        Emit(ICopy(rhs, v));
      case Compound(_, _, _, _) => v := EmitCompound(e);
      case Conditional(_, _, _, _) => v := EmitConditional(e);
      case Call(_, _, _, _) => v := EmitCall(e);
      case Cast(t, a) =>
        var src := EmitExpr(a);
        if t.Void? { v := NoValue; } else { v := EmitConvert(src, t); }
    }

    method EmitDeclarationList(ds: seq<Decl>)
      modifies this
      ensures Appended(old(instrs), GenDecls(ds, old(nextPseudo), old(nextLabel)))
    {
      hide GenExpr;
      ghost var was, np, nl := instrs, nextPseudo, nextLabel;
      for i := 0 to |ds|
        invariant Appended(was, GenDecls(ds[..i], np, nl))
      {
        DeclsSnoc(ds, i, np, nl);
        if ds[i].isObject && ds[i].isAuto && ds[i].init.Some? {
          var src := EmitExpr(ds[i].init.value);
          Emit(ICopy(src, Object(ds[i].sym)));
        }
      }
      assert ds[..|ds|] == ds;
    }

    method EmitOptional(e: Option<Expr>) returns (v: Value)
      modifies this
      ensures Appended(old(instrs), GenOptional(e, old(nextPseudo), old(nextLabel)))
      ensures v == GenOptional(e, old(nextPseudo), old(nextLabel)).val
    {
      v := NoValue;
      if e.Some? { v := EmitExpr(e.value); }
    }

    method EmitTests(cases: seq<CaseRef>, v: Value)
      modifies this
      ensures instrs == old(instrs) + GenTests(cases, v, old(nextPseudo))
      ensures nextPseudo == old(nextPseudo) + |cases| && nextLabel == old(nextLabel)
    {
      ghost var was, np := instrs, nextPseudo;
      for i := 0 to |cases|
        invariant instrs == was + GenTests(cases[..i], v, np) && nextPseudo == np + i && nextLabel == old(nextLabel)
      {
        TestsSnoc(cases, i, v, np);
        var matches := ValueTemp(Int);
        Emit(IBinary(Eq, v, Const(TyOf(v), cases[i].value), matches));
        Emit(IJumpIfNotZero(matches, Lbl(LCase, cases[i].id)));
      }
      assert cases[..|cases|] == cases;
    }

    method EmitItems(items: seq<Stmt>)
      modifies this
      ensures Appended(old(instrs), GenItems(items, old(nextPseudo), old(nextLabel)))
      decreases items, 2
    {
      hide GenStmt;
      ghost var was, np, nl := instrs, nextPseudo, nextLabel;
      for i := 0 to |items|
        invariant Appended(was, GenItems(items[..i], np, nl))
      {
        ItemsSnoc(items, i, np, nl);
        EmitStmt(items[i]);
      }
      assert items[..|items|] == items;
    }

    method EmitIf(s: Stmt)
      requires s.If?
      modifies this
      ensures Appended(old(instrs), GenStmt(s, old(nextPseudo), old(nextLabel)))
      decreases s, 0, 1
    {
      hide GenExpr, GenStmt, Appended;
      var cond := EmitExpr(s.cond);
      if s.els.None? { EmitThen(s, cond, old(instrs), old(nextPseudo), old(nextLabel)); }
      else { EmitThenElse(s, cond, old(instrs), old(nextPseudo), old(nextLabel)); }
    }

    method EmitThen(s: Stmt, cond: Value, ghost was: seq<Instr>, ghost np: nat, ghost nl: nat)
      requires s.If? && s.els.None? && Appended(was, GenExpr(s.cond, np, nl)) && cond == GenExpr(s.cond, np, nl).val
      modifies this
      ensures Appended(was, GenStmt(s, np, nl))
      decreases s, 0, 0
    {
      hide GenExpr, GenStmt;
      IfPlainGen(s, np, nl);
      ghost var gc := GenExpr(s.cond, np, nl);
      var end := TempLabel();
      Emit(IJumpIfZero(cond, end));
      EmitStmt(s.thn);
      Emit(ILabel(end));
      Nest5(was, gc.code, [IJumpIfZero(cond, end)], GenStmt(s.thn, gc.np, gc.nl + 1).code, [ILabel(end)], []);
    }

    method EmitTwo(a: Instr, b: Instr)
      modifies this`instrs
      ensures instrs == old(instrs) + [a, b]
    {
      Emit(a);
      Emit(b);
    }

    method EmitThenElse(s: Stmt, cond: Value, ghost was: seq<Instr>, ghost np: nat, ghost nl: nat)
      requires s.If? && s.els.Some? && Appended(was, GenExpr(s.cond, np, nl)) && cond == GenExpr(s.cond, np, nl).val
      modifies this
      ensures Appended(was, GenStmt(s, np, nl))
      decreases s, 0, 0
    {
      hide GenExpr, GenStmt;
      IfElseGen(s, np, nl);
      ghost var gc := GenExpr(s.cond, np, nl);
      var end := TempLabel();
      var els := TempLabel();
      Emit(IJumpIfZero(cond, els));
      EmitStmt(s.thn);
      EmitTwo(IJump(end), ILabel(els));
      EmitStmt(s.els.value);
      Emit(ILabel(end));
      ghost var ga := GenStmt(s.thn, gc.np, gc.nl + 2);
      ghost var gb := GenStmt(s.els.value, ga.np, ga.nl);
      Nest6(was, gc.code, [IJumpIfZero(cond, els)], ga.code, [IJump(end), ILabel(els)], gb.code, [ILabel(end)]);
    }

    method EmitFor(s: Stmt)
      requires s.For?
      modifies this
      ensures Appended(old(instrs), GenStmt(s, old(nextPseudo), old(nextLabel)))
      decreases s, 0
    {
      hide GenOptional, ExitTest;
      ghost var was, np, nl := instrs, nextPseudo, nextLabel;
      ForGen(s, np, nl);
      hide GenStmt;
      var start := TempLabel();
      var brk, cnt := Lbl(LBreak, s.id), Lbl(LContinue, s.id);
      EmitStmt(s.init);
      Emit(ILabel(start));
      var cond := EmitOptional(s.test);
      EmitExit(s.test, cond, s.id);
      EmitStmt(s.body);
      Emit(ILabel(cnt));
      var _ := EmitOptional(s.post);
      ghost var sofar := instrs;
      Emit(IJump(start));
      Emit(ILabel(brk));
      assert instrs == sofar + [IJump(start), ILabel(brk)];
      ghost var f := ForLayout(s, np, nl, 0);
      Nest8(was, f.gi.code, [ILabel(start)], f.gt.code, ExitTest(s.test, f.gt.val, s.id), f.gb.code, [ILabel(cnt)],
            f.gp.code, [IJump(start), ILabel(brk)]);
    }

    method EmitExit(t: Option<Expr>, cond: Value, id: nat)
      modifies this`instrs
      ensures instrs == old(instrs) + ExitTest(t, cond, id)
    {
      if t.Some? { Emit(IJumpIfZero(cond, Lbl(LBreak, id))); }
    }

    method EmitWhile(s: Stmt)
      requires s.While?
      modifies this
      ensures Appended(old(instrs), GenStmt(s, old(nextPseudo), old(nextLabel)))
      decreases s, 0
    {
      hide GenExpr;
      ghost var was, np, nl := instrs, nextPseudo, nextLabel;
      WhileGen(s, np, nl);
      hide GenStmt;
      var brk, cnt := Lbl(LBreak, s.id), Lbl(LContinue, s.id);
      Emit(ILabel(cnt));
      var cond := EmitExpr(s.cond);
      Emit(IJumpIfZero(cond, brk));
      EmitStmt(s.body);
      ghost var sofar := instrs;
      Emit(IJump(cnt));
      Emit(ILabel(brk));
      assert instrs == sofar + [IJump(cnt), ILabel(brk)];
      ghost var gc := GenExpr(s.cond, np, nl);
      Nest5(was, [ILabel(cnt)], gc.code, [IJumpIfZero(cond, brk)], GenStmt(s.body, gc.np, gc.nl).code, [IJump(cnt), ILabel(brk)]);
    }

    method EmitDoWhile(s: Stmt)
      requires s.DoWhile?
      modifies this
      ensures Appended(old(instrs), GenStmt(s, old(nextPseudo), old(nextLabel)))
      decreases s, 0
    {
      hide GenExpr;
      ghost var was, np, nl := instrs, nextPseudo, nextLabel;
      DoGen(s, np, nl);
      hide GenStmt;
      var start := TempLabel();
      var brk, cnt := Lbl(LBreak, s.id), Lbl(LContinue, s.id);
      Emit(ILabel(start));
      EmitStmt(s.body);
      Emit(ILabel(cnt));
      var cond := EmitExpr(s.cond);
      ghost var sofar := instrs;
      Emit(IJumpIfNotZero(cond, start));
      Emit(ILabel(brk));
      assert instrs == sofar + [IJumpIfNotZero(cond, start), ILabel(brk)];
      ghost var gb := GenStmt(s.body, np, nl + 1);
      Nest5(was, [ILabel(start)], gb.code, [ILabel(cnt)], GenExpr(s.cond, gb.np, gb.nl).code,
            [IJumpIfNotZero(cond, start), ILabel(brk)]);
    }

    method EmitSwitch(s: Stmt)
      requires s.Switch?
      modifies this
      ensures Appended(old(instrs), GenStmt(s, old(nextPseudo), old(nextLabel)))
      decreases s, 0
    {
      hide GenExpr, GenTests;
      ghost var was, np, nl := instrs, nextPseudo, nextLabel;
      SwitchGen(s, np, nl);
      hide GenStmt;
      var brk := Lbl(LBreak, s.id);
      var cond := EmitExpr(s.cond);
      EmitTests(s.cases, cond);
      if s.dflt.Some? { Emit(IJump(Lbl(LCase, s.dflt.value))); } else { Emit(IJump(brk)); }
      EmitStmt(s.body);
      Emit(ILabel(brk));
      ghost var gc := GenExpr(s.cond, np, nl);
      Nest5(was, gc.code, GenTests(s.cases, cond, gc.np), [IJump(SwitchElse(s.id, s.dflt))],
            GenStmt(s.body, gc.np + |s.cases|, gc.nl).code, [ILabel(brk)]);
    }

    /** Appends the code of 's'. */
    method EmitStmt(s: Stmt)
      modifies this
      ensures Appended(old(instrs), GenStmt(s, old(nextPseudo), old(nextLabel)))
      decreases s, 1
    {
      hide GenExpr, GenOptional, GenItems, GenDecls;
      match s
      case Null =>
      case ExprStmt(e) => var _ := EmitExpr(e);
      case DeclStmt(ds) => EmitDeclarationList(ds);
      case Block(items) => EmitItems(items);
      case Return(e) =>
        var v := EmitOptional(e);
        Emit(IReturn(v));
      case If(_, _, _) => EmitIf(s);
      case For(_, _, _, _, _) => EmitFor(s);
      case While(_, _, _) => EmitWhile(s);
      case DoWhile(_, _, _) => EmitDoWhile(s);
      case Switch(_, _, _, _, _) => EmitSwitch(s);
      case Case(id, _, _, b) =>
        Emit(ILabel(Lbl(LCase, id)));
        EmitStmt(b);
      case Default(id, b) =>
        Emit(ILabel(Lbl(LCase, id)));
        EmitStmt(b);
      case Label(id, _, b) =>
        Emit(ILabel(Lbl(LUser, id)));
        EmitStmt(b);
      case Break(t) => Emit(IJump(Lbl(LBreak, t)));
      case Continue(t) => Emit(IJump(Lbl(LContinue, t)));
      case Goto(_, t) => Emit(IJump(Lbl(LUser, t)));
    }

    /** Translates one function into a fresh instruction list. */
    method EmitFunction(f: Fn) returns (code: seq<Instr>)
      modifies this
      ensures var g := GenFunction(f.body, f.ret, old(nextPseudo), old(nextLabel));
              code == g.code && nextPseudo == g.np && nextLabel == g.nl
    {
      hide GenStmt;
      instrs := [];
      EmitStmt(f.body);
      Emit(IReturn(if f.ret.Void? then NoValue else Const(f.ret, 0)));
      code := instrs;
    }
  }

  /** Translates every function definition, the counters running on from one to the next. */
  method Build(prog: seq<Fn>, symbolCount: nat) returns (codes: seq<seq<Instr>>, pseudoCount: nat)
    ensures |codes| == |prog| && forall i :: 0 <= i < |prog| ==> codes[i] == CodeOf(prog, i, symbolCount, 0)
    ensures pseudoCount == StartOf(prog, |prog|, symbolCount, 0).0 && TempsApart(prog, codes)
  {
    var b := new Builder(symbolCount);
    codes := [];
    for i := 0 to |prog|
      invariant |codes| == i && forall j :: 0 <= j < i ==> codes[j] == CodeOf(prog, j, symbolCount, 0)
      invariant (b.nextPseudo, b.nextLabel) == StartOf(prog, i, symbolCount, 0)
    {
      var code := b.EmitFunction(prog[i]);
      codes := codes + [code];
    }
    pseudoCount := b.nextPseudo;
    CodesApart(prog, codes, symbolCount, 0);
  }
}
