/** Which pseudos a function uses: its own automatic objects and the temporaries drawn for it, no others. */
module Mentions {
  import opened Arith
  import opened Ast
  import opened Ir
  import opened IrGen
  import opened ExprProof
  import opened StmtParts

  /** The symbol is automatic object 'id'. */
  predicate Is(s: Symbol, id: nat) {
    !s.isStatic && s.id == id
  }

  /** The expression names automatic object 'id'. */
  predicate ExprMentions(e: Expr, id: nat)
    decreases e, 1
  {
    match e
    case IntConst(_) => false
    case LongConst(_) => false
    case Ident(s) => Is(s, id)
    case Unary(_, a, _) => ExprMentions(a, id)
    case Binary(_, a, b, _) => ExprMentions(a, id) || ExprMentions(b, id)
    case IncDec(_, _, s) => Is(s, id)
    case Assign(s, a) => Is(s, id) || ExprMentions(a, id)
    case Compound(_, _, s, a) => Is(s, id) || ExprMentions(a, id)
    case Conditional(c, a, b, _) => ExprMentions(c, id) || ExprMentions(a, id) || ExprMentions(b, id)
    case Call(_, _, args, _) => ArgsMention(args, id)
    case Cast(_, a) => ExprMentions(a, id)
  }

  predicate ArgsMention(args: seq<Expr>, id: nat)
    decreases args, 0
  {
    args != [] && (ExprMentions(args[0], id) || ArgsMention(args[1..], id))
  }

  predicate OptMentions(e: Option<Expr>, id: nat) {
    e.Some? && ExprMentions(e.value, id)
  }

  /** Only initialised automatic objects have code. */
  predicate DeclsMention(ds: seq<Decl>, id: nat) {
    ds != [] &&
    (|| (ds[0].isObject && ds[0].isAuto && ds[0].init.Some? && (Is(ds[0].sym, id) || ExprMentions(ds[0].init.value, id)))
     || DeclsMention(ds[1..], id))
  }

  predicate StmtMentions(s: Stmt, id: nat)
    decreases s, 1
  {
    match s
    case ExprStmt(e) => ExprMentions(e, id)
    case DeclStmt(ds) => DeclsMention(ds, id)
    case Block(items) => ItemsMention(items, id)
    case Return(e) => OptMentions(e, id)
    case If(c, a, b) => ExprMentions(c, id) || StmtMentions(a, id) || (b.Some? && StmtMentions(b.value, id))
    case For(_, i, t, p, b) => StmtMentions(i, id) || OptMentions(t, id) || OptMentions(p, id) || StmtMentions(b, id)
    case While(_, c, b) => ExprMentions(c, id) || StmtMentions(b, id)
    case DoWhile(_, c, b) => ExprMentions(c, id) || StmtMentions(b, id)
    case Switch(_, c, b, _, _) => ExprMentions(c, id) || StmtMentions(b, id)
    case Case(_, _, _, b) => StmtMentions(b, id)
    case Default(_, b) => StmtMentions(b, id)
    case Label(_, _, b) => StmtMentions(b, id)
    case _ => false
  }

  predicate ItemsMention(items: seq<Stmt>, id: nat)
    decreases items, 0
  {
    items != [] && (StmtMentions(items[0], id) || ItemsMention(items[1..], id))
  }

  predicate ValUses(v: Value, id: nat) {
    v.Pseudo? && v.id == id
  }

  predicate ValsUse(vs: seq<Value>, id: nat) {
    exists k :: 0 <= k < |vs| && ValUses(vs[k], id)
  }

  /** The instruction reads or writes pseudo 'id'. */
  predicate InstrUses(i: Instr, id: nat) {
    match i
    case IReturn(v) => ValUses(v, id)
    case IUnary(_, a, d) => ValUses(a, id) || ValUses(d, id)
    case IBinary(_, a, b, d) => ValUses(a, id) || ValUses(b, id) || ValUses(d, id)
    case ICopy(a, d) => ValUses(a, id) || ValUses(d, id)
    case IJumpIfZero(c, _) => ValUses(c, id)
    case IJumpIfNotZero(c, _) => ValUses(c, id)
    case ICall(_, args, d) => ValsUse(args, id) || ValUses(d, id)
    case ICast(a, d) => ValUses(a, id) || ValUses(d, id)
    case _ => false
  }

  predicate CodeUses(code: seq<Instr>, id: nat) {
    exists k :: 0 <= k < |code| && InstrUses(code[k], id)
  }

  lemma UsesJoin(a: seq<Instr>, b: seq<Instr>, id: nat)
    ensures CodeUses(a + b, id) <==> CodeUses(a, id) || CodeUses(b, id)
  {
    hide InstrUses;
    var c := a + b;
    if CodeUses(a, id) {
      var k :| 0 <= k < |a| && InstrUses(a[k], id);
      assert c[k] == a[k];
    }
    if CodeUses(b, id) {
      var k :| 0 <= k < |b| && InstrUses(b[k], id);
      assert c[|a| + k] == b[k];
    }
  }

  lemma UsesJoin3(a: seq<Instr>, b: seq<Instr>, c: seq<Instr>, id: nat)
    ensures CodeUses(a + (b + c), id) <==> CodeUses(a, id) || CodeUses(b, id) || CodeUses(c, id)
  {
    hide CodeUses;
    UsesJoin(a, b + c, id);
    UsesJoin(b, c, id);
  }

  lemma UsesOne(i: Instr, id: nat)
    ensures CodeUses([i], id) <==> InstrUses(i, id)
  {
    if InstrUses(i, id) { assert InstrUses([i][0], id); }
  }

  /** Drawn between two values of the counter. */
  predicate TempOf(id: nat, np: nat, np': nat) {
    np <= id < np'
  }

  lemma ConvertUses(v: Value, t: Ty, np: nat, nl: nat, id: nat)
    requires !ValUses(v, id) && !TempOf(id, np, GenConvert(v, t, np, nl).np)
    ensures !CodeUses(GenConvert(v, t, np, nl).code, id) && !ValUses(GenConvert(v, t, np, nl).val, id)
    ensures GenConvert(v, t, np, nl).np >= np
  {
  }

  /** The code of an expression uses the objects it names and the temporaries it draws. */
  lemma {:induction false} ExprUses(e: Expr, np: nat, nl: nat, id: nat)
    requires !ExprMentions(e, id) && !TempOf(id, np, GenExpr(e, np, nl).np)
    ensures !CodeUses(GenExpr(e, np, nl).code, id) && !ValUses(GenExpr(e, np, nl).val, id)
    decreases e, 1
  {
    hide CodeUses;
    match e
    case IntConst(_) => NoneUse(id);
    case LongConst(_) => NoneUse(id);
    case Ident(_) => NoneUse(id);
    case Unary(op, a, t) =>
      var g := GenExpr(a, np, nl);
      ExprUses(a, np, nl, id);
      if !op.Plus? {
        GenMono(a, np, nl);
        UsesOne(IUnary(op, g.val, Pseudo(t, g.np)), id);
        UsesJoin(g.code, [IUnary(op, g.val, Pseudo(t, g.np))], id);
      }
    case Binary(op, _, _, _) => if IsLogical(op) { LogicalUses(e, np, nl, id); } else { BinaryUses(e, np, nl, id); }
    case IncDec(_, _, _) => IncDecUses(e, np, nl, id);
    case Assign(s, a) =>
      var g := GenExpr(a, np, nl);
      ExprUses(a, np, nl, id);
      UsesOne(ICopy(g.val, Object(s)), id);
      UsesJoin(g.code, [ICopy(g.val, Object(s))], id);
    case Compound(_, _, _, _) => CompoundUses(e, np, nl, id);
    case Conditional(_, _, _, _) => ConditionalUses(e, np, nl, id);
    case Call(fn, _, args, t) =>
      var g := GenArgs(args, np, nl);
      CallCode(e, np, nl);
      GenArgsMono(args, np, nl);
      ArgsUse(args, np, nl, id);
      UsesOne(ICall(fn, g.vals, GenExpr(e, np, nl).val), id);
      UsesJoin(g.code, [ICall(fn, g.vals, GenExpr(e, np, nl).val)], id);
    case Cast(t, a) =>
      var g := GenExpr(a, np, nl);
      GenMono(a, np, nl);
      if t.Void? {
        ExprUses(a, np, nl, id);
      } else {
        var c := GenConvert(g.val, t, g.np, g.nl);
        assert c.np >= g.np;
        ExprUses(a, np, nl, id);
        ConvertUses(g.val, t, g.np, g.nl, id);
        UsesJoin(g.code, c.code, id);
      }
  }

  lemma NoneUse(id: nat)
    ensures !CodeUses([], id)
  {
  }

  lemma TwoUse(i: Instr, j: Instr, id: nat)
    ensures CodeUses([i, j], id) <==> InstrUses(i, id) || InstrUses(j, id)
  {
    hide CodeUses;
    UsesOne(i, id);
    UsesOne(j, id);
    UsesJoin([i], [j], id);
    assert [i] + [j] == [i, j];
  }

  lemma IncDecUses(e: Expr, np: nat, nl: nat, id: nat)
    requires e.IncDec? && !ExprMentions(e, id) && !TempOf(id, np, GenExpr(e, np, nl).np)
    ensures !CodeUses(GenExpr(e, np, nl).code, id) && !ValUses(GenExpr(e, np, nl).val, id)
  {
  }

  lemma {:induction false} BinaryUses(e: Expr, np: nat, nl: nat, id: nat)
    requires e.Binary? && !IsLogical(e.bop) && !ExprMentions(e, id) && !TempOf(id, np, GenExpr(e, np, nl).np)
    ensures !CodeUses(GenExpr(e, np, nl).code, id) && !ValUses(GenExpr(e, np, nl).val, id)
    decreases e, 0
  {
    hide CodeUses, GenExpr;
    BinaryCode(e, np, nl);
    var l := GenExpr(e.left, np, nl);
    var r := GenExpr(e.right, l.np, l.nl);
    var last := IBinary(e.bop, l.val, r.val, Pseudo(e.ty, r.np));
    GenMono(e.left, np, nl);
    GenMono(e.right, l.np, l.nl);
    ExprUses(e.left, np, nl, id);
    ExprUses(e.right, l.np, l.nl, id);
    UsesOne(last, id);
    UsesJoin3(l.code, r.code, [last], id);
  }

  lemma TailUses(op: BinOp, v: Value, dst: Value, nl: nat, id: nat)
    requires !ValUses(dst, id) && !ValUses(v, id)
    ensures !CodeUses(ShortJump(op, v, nl), id) && !CodeUses(ShortTail(op, dst, nl), id)
  {
  }

  lemma {:induction false} LogicalUses(e: Expr, np: nat, nl: nat, id: nat)
    requires e.Binary? && IsLogical(e.bop) && !ExprMentions(e, id) && !TempOf(id, np, GenExpr(e, np, nl).np)
    ensures !CodeUses(GenExpr(e, np, nl).code, id) && !ValUses(GenExpr(e, np, nl).val, id)
    decreases e, 0
  {
    hide CodeUses, GenExpr, ShortJump, ShortTail;
    LogicalCode(e, np, nl);
    var l := GenExpr(e.left, np + 1, nl + 2);
    var r := GenExpr(e.right, l.np, l.nl);
    var dst := Pseudo(e.ty, np);
    GenMono(e.left, np + 1, nl + 2);
    GenMono(e.right, l.np, l.nl);
    ExprUses(e.left, np + 1, nl + 2, id);
    ExprUses(e.right, l.np, l.nl, id);
    TailUses(e.bop, l.val, dst, nl, id);
    TailUses(e.bop, r.val, dst, nl, id);
    UsesJoin(l.code, ShortJump(e.bop, l.val, nl), id);
    UsesJoin3(r.code, ShortJump(e.bop, r.val, nl), ShortTail(e.bop, dst, nl), id);
    UsesJoin(l.code + ShortJump(e.bop, l.val, nl), r.code + (ShortJump(e.bop, r.val, nl) + ShortTail(e.bop, dst, nl)), id);
  }

  lemma {:induction false} CompoundUses(e: Expr, np: nat, nl: nat, id: nat)
    requires e.Compound? && !ExprMentions(e, id) && !TempOf(id, np, GenExpr(e, np, nl).np)
    ensures !CodeUses(GenExpr(e, np, nl).code, id) && !ValUses(GenExpr(e, np, nl).val, id)
    decreases e, 0
  {
    hide CodeUses, GenExpr;
    CompoundCode(e, np, nl);
    var g := GenExpr(e.rvalue, np, nl);
    var left := GenConvert(Object(e.sym), e.opTy, g.np, g.nl);
    var result := Pseudo(e.opTy, left.np);
    var back := GenConvert(result, e.sym.ty, left.np + 1, left.nl);
    assert g.np <= left.np < back.np;
    GenMono(e.rvalue, np, nl);
    ExprUses(e.rvalue, np, nl, id);
    ConvertUses(Object(e.sym), e.opTy, g.np, g.nl, id);
    ConvertUses(result, e.sym.ty, left.np + 1, left.nl, id);
    var op, store := IBinary(e.bop, left.val, g.val, result), ICopy(back.val, Object(e.sym));
    UsesOne(op, id);
    UsesOne(store, id);
    UsesJoin3([op], back.code, [store], id);
    UsesJoin3(g.code, left.code, [op] + (back.code + [store]), id);
  }

  lemma CopyUses(v: Value, dst: Value, id: nat)
    requires !ValUses(v, id) && !ValUses(dst, id)
    ensures !CodeUses(CopyTo(v, dst), id)
  {
  }

  lemma {:induction false} ConditionalUses(e: Expr, np: nat, nl: nat, id: nat)
    requires e.Conditional? && !ExprMentions(e, id) && !TempOf(id, np, GenExpr(e, np, nl).np)
    ensures !CodeUses(GenExpr(e, np, nl).code, id) && !ValUses(GenExpr(e, np, nl).val, id)
    decreases e, 0
  {
    hide CodeUses, GenExpr, CopyTo;
    ConditionalCode(e, np, nl);
    var dst, np0 := CondDst(e, np), CondNp(e, np);
    var gc := GenExpr(e.cond, np0, nl + 2);
    var ga := GenExpr(e.thn, gc.np, gc.nl);
    var gb := GenExpr(e.els, ga.np, ga.nl);
    GenMono(e.cond, np0, nl + 2);
    GenMono(e.thn, gc.np, gc.nl);
    GenMono(e.els, ga.np, ga.nl);
    ExprUses(e.cond, np0, nl + 2, id);
    ExprUses(e.thn, gc.np, gc.nl, id);
    ExprUses(e.els, ga.np, ga.nl, id);
    var j, mid, end := [IJumpIfZero(gc.val, Temp(nl))], [IJump(Temp(nl + 1)), ILabel(Temp(nl))], [ILabel(Temp(nl + 1))];
    UsesOne(j[0], id);
    TwoUse(mid[0], mid[1], id);
    UsesOne(end[0], id);
    CopyUses(ga.val, dst, id);
    CopyUses(gb.val, dst, id);
    var tail := gb.code + (CopyTo(gb.val, dst) + end);
    UsesJoin3(gb.code, CopyTo(gb.val, dst), end, id);
    UsesJoin3(CopyTo(ga.val, dst), mid, tail, id);
    UsesJoin(ga.code, CopyTo(ga.val, dst) + (mid + tail), id);
    UsesJoin3(gc.code, j, ga.code + (CopyTo(ga.val, dst) + (mid + tail)), id);
  }

  lemma {:induction false} ArgsUse(args: seq<Expr>, np: nat, nl: nat, id: nat)
    requires !ArgsMention(args, id) && !TempOf(id, np, GenArgs(args, np, nl).np)
    ensures !CodeUses(GenArgs(args, np, nl).code, id) && !ValsUse(GenArgs(args, np, nl).vals, id)
    decreases args, 0
  {
    hide CodeUses, GenExpr, ExprMentions;
    if args == [] {
      NoneUse(id);
    } else {
      var g := GenExpr(args[0], np, nl);
      var h := GenArgs(args[1..], g.np, g.nl);
      GenMono(args[0], np, nl);
      GenArgsMono(args[1..], g.np, g.nl);
      ExprUses(args[0], np, nl, id);
      ArgsUse(args[1..], g.np, g.nl, id);
      UsesJoin(g.code, h.code, id);
      var vs := [g.val] + h.vals;
      forall k | 0 <= k < |vs| ensures !ValUses(vs[k], id) {
        if k > 0 { assert vs[k] == h.vals[k - 1]; }
      }
    }
  }

  lemma OptionalUses(e: Option<Expr>, np: nat, nl: nat, id: nat)
    requires !OptMentions(e, id) && !TempOf(id, np, GenOptional(e, np, nl).np)
    ensures !CodeUses(GenOptional(e, np, nl).code, id) && !ValUses(GenOptional(e, np, nl).val, id)
  {
    hide CodeUses, GenExpr, ExprMentions;
    if e.Some? { ExprUses(e.value, np, nl, id); } else { NoneUse(id); }
  }

  lemma {:induction false} DeclsUse(ds: seq<Decl>, np: nat, nl: nat, id: nat)
    requires !DeclsMention(ds, id) && !TempOf(id, np, GenDecls(ds, np, nl).np)
    ensures !CodeUses(GenDecls(ds, np, nl).code, id)
  {
    hide CodeUses, GenExpr, ExprMentions;
    if ds == [] {
      NoneUse(id);
    } else if !ds[0].isObject || !ds[0].isAuto || ds[0].init.None? {
      DeclsUse(ds[1..], np, nl, id);
    } else {
      var g := GenExpr(ds[0].init.value, np, nl);
      var h := GenDecls(ds[1..], g.np, g.nl);
      GenMono(ds[0].init.value, np, nl);
      DeclsMono(ds[1..], g.np, g.nl);
      ExprUses(ds[0].init.value, np, nl, id);
      DeclsUse(ds[1..], g.np, g.nl, id);
      var store := ICopy(g.val, Object(ds[0].sym));
      UsesOne(store, id);
      UsesJoin3(g.code, [store], h.code, id);
    }
  }

  lemma {:induction false} TestsUse(cases: seq<CaseRef>, v: Value, np: nat, id: nat)
    requires !ValUses(v, id) && !TempOf(id, np, np + |cases|)
    ensures !CodeUses(GenTests(cases, v, np), id)
  {
    hide CodeUses;
    if cases == [] {
      NoneUse(id);
    } else {
      TestsUse(cases[1..], v, np + 1, id);
      var i, j := IBinary(Eq, v, Const(TyOf(v), cases[0].value), Pseudo(Int, np)), IJumpIfNotZero(Pseudo(Int, np), Lbl(LCase, cases[0].id));
      TwoUse(i, j, id);
      UsesJoin([i, j], GenTests(cases[1..], v, np + 1), id);
    }
  }

  /** The code of a statement uses the objects it names and the temporaries it draws. */
  lemma {:induction false} StmtUses(s: Stmt, np: nat, nl: nat, id: nat)
    requires !StmtMentions(s, id) && !TempOf(id, np, GenStmt(s, np, nl).np)
    ensures !CodeUses(GenStmt(s, np, nl).code, id)
    decreases s, 1
  {
    hide CodeUses, GenExpr, ExprMentions, GenOptional, OptMentions, GenDecls, DeclsMention, GenTests;
    match s
    case Null => NoneUse(id);
    case ExprStmt(e) => ExprUses(e, np, nl, id);
    case DeclStmt(ds) => DeclsUse(ds, np, nl, id);
    case Block(items) => ItemsUse(items, np, nl, id);
    case Return(e) =>
      var g := GenOptional(e, np, nl);
      OptionalUses(e, np, nl, id);
      UsesOne(IReturn(g.val), id);
      UsesJoin(g.code, [IReturn(g.val)], id);
    case If(_, _, _) => IfUses(s, np, nl, id);
    case For(_, _, _, _, _) => ForUses(s, np, nl, id);
    case While(_, _, _) => LoopUses(s, np, nl, id);
    case DoWhile(_, _, _) => LoopUses(s, np, nl, id);
    case Switch(_, _, _, _, _) => SwitchUses(s, np, nl, id);
    case Case(c, _, _, b) => MarkedUses(b, Lbl(LCase, c), np, nl, id);
    case Default(c, b) => MarkedUses(b, Lbl(LCase, c), np, nl, id);
    case Label(c, _, b) => MarkedUses(b, Lbl(LUser, c), np, nl, id);
    case Break(t) => UsesOne(IJump(Lbl(LBreak, t)), id);
    case Continue(t) => UsesOne(IJump(Lbl(LContinue, t)), id);
    case Goto(_, t) => UsesOne(IJump(Lbl(LUser, t)), id);
  }

  lemma {:induction false} MarkedUses(b: Stmt, l: Lbl, np: nat, nl: nat, id: nat)
    requires !StmtMentions(b, id) && !TempOf(id, np, GenStmt(b, np, nl).np)
    ensures !CodeUses([ILabel(l)] + GenStmt(b, np, nl).code, id)
    decreases b, 2
  {
    hide CodeUses, GenStmt, StmtMentions;
    StmtUses(b, np, nl, id);
    UsesOne(ILabel(l), id);
    UsesJoin([ILabel(l)], GenStmt(b, np, nl).code, id);
  }

  lemma {:induction false} IfUses(s: Stmt, np: nat, nl: nat, id: nat)
    requires s.If? && !StmtMentions(s, id) && !TempOf(id, np, GenStmt(s, np, nl).np)
    ensures !CodeUses(GenStmt(s, np, nl).code, id)
    decreases s, 0
  {
    hide CodeUses, GenExpr, ExprMentions, GenStmt;
    var gc := GenExpr(s.cond, np, nl);
    GenMono(s.cond, np, nl);
    if s.els.None? {
      IfPlainGen(s, np, nl);
      var ga := GenStmt(s.thn, gc.np, gc.nl + 1);
      StmtMono(s.thn, gc.np, gc.nl + 1);
      ExprUses(s.cond, np, nl, id);
      StmtUses(s.thn, gc.np, gc.nl + 1, id);
      var j, end := IJumpIfZero(gc.val, Temp(gc.nl)), ILabel(Temp(gc.nl));
      UsesOne(j, id);
      UsesOne(end, id);
      UsesJoin(ga.code, [end], id);
      UsesJoin3(gc.code, [j], ga.code + [end], id);
    } else {
      IfElseGen(s, np, nl);
      var ga := GenStmt(s.thn, gc.np, gc.nl + 2);
      var gb := GenStmt(s.els.value, ga.np, ga.nl);
      StmtMono(s.thn, gc.np, gc.nl + 2);
      StmtMono(s.els.value, ga.np, ga.nl);
      ExprUses(s.cond, np, nl, id);
      StmtUses(s.thn, gc.np, gc.nl + 2, id);
      StmtUses(s.els.value, ga.np, ga.nl, id);
      var j, a, b, end := IJumpIfZero(gc.val, Temp(gc.nl + 1)), IJump(Temp(gc.nl)), ILabel(Temp(gc.nl + 1)), ILabel(Temp(gc.nl));
      UsesOne(j, id);
      TwoUse(a, b, id);
      UsesOne(end, id);
      UsesJoin3([a, b], gb.code, [end], id);
      UsesJoin(ga.code, [a, b] + (gb.code + [end]), id);
      UsesJoin3(gc.code, [j], ga.code + ([a, b] + (gb.code + [end])), id);
    }
  }

  lemma {:induction false} LoopUses(s: Stmt, np: nat, nl: nat, id: nat)
    requires (s.While? || s.DoWhile?) && !StmtMentions(s, id) && !TempOf(id, np, GenStmt(s, np, nl).np)
    ensures !CodeUses(GenStmt(s, np, nl).code, id)
    decreases s, 0
  {
    hide CodeUses, GenExpr, ExprMentions, GenStmt;
    if s.While? {
      WhileGen(s, np, nl);
      var gc := GenExpr(s.cond, np, nl);
      var gb := GenStmt(s.body, gc.np, gc.nl);
      GenMono(s.cond, np, nl);
      StmtMono(s.body, gc.np, gc.nl);
      ExprUses(s.cond, np, nl, id);
      StmtUses(s.body, gc.np, gc.nl, id);
      var start, j := ILabel(Lbl(LContinue, s.id)), IJumpIfZero(gc.val, Lbl(LBreak, s.id));
      var a, b := IJump(Lbl(LContinue, s.id)), ILabel(Lbl(LBreak, s.id));
      UsesOne(start, id);
      UsesOne(j, id);
      TwoUse(a, b, id);
      UsesJoin3([j], gb.code, [a, b], id);
      UsesJoin3([start], gc.code, [j] + (gb.code + [a, b]), id);
    } else {
      DoGen(s, np, nl);
      var gb := GenStmt(s.body, np, nl + 1);
      var gc := GenExpr(s.cond, gb.np, gb.nl);
      StmtMono(s.body, np, nl + 1);
      GenMono(s.cond, gb.np, gb.nl);
      StmtUses(s.body, np, nl + 1, id);
      ExprUses(s.cond, gb.np, gb.nl, id);
      var start, mid := ILabel(Temp(nl)), ILabel(Lbl(LContinue, s.id));
      var a, b := IJumpIfNotZero(gc.val, Temp(nl)), ILabel(Lbl(LBreak, s.id));
      UsesOne(start, id);
      UsesOne(mid, id);
      TwoUse(a, b, id);
      UsesJoin3([mid], gc.code, [a, b], id);
      UsesJoin3([start], gb.code, [mid] + (gc.code + [a, b]), id);
    }
  }

  lemma {:induction false} SwitchUses(s: Stmt, np: nat, nl: nat, id: nat)
    requires s.Switch? && !StmtMentions(s, id) && !TempOf(id, np, GenStmt(s, np, nl).np)
    ensures !CodeUses(GenStmt(s, np, nl).code, id)
    decreases s, 0
  {
    hide CodeUses, GenExpr, ExprMentions, GenStmt, GenTests;
    SwitchGen(s, np, nl);
    var gc := GenExpr(s.cond, np, nl);
    var gb := GenStmt(s.body, gc.np + |s.cases|, gc.nl);
    GenMono(s.cond, np, nl);
    StmtMono(s.body, gc.np + |s.cases|, gc.nl);
    ExprUses(s.cond, np, nl, id);
    StmtUses(s.body, gc.np + |s.cases|, gc.nl, id);
    TestsUse(s.cases, gc.val, gc.np, id);
    var tests, j, end := GenTests(s.cases, gc.val, gc.np), IJump(SwitchElse(s.id, s.dflt)), ILabel(Lbl(LBreak, s.id));
    UsesOne(j, id);
    UsesOne(end, id);
    UsesJoin3([j], gb.code, [end], id);
    UsesJoin3(gc.code, tests, [j] + (gb.code + [end]), id);
  }

  lemma ExitUses(t: Option<Expr>, v: Value, c: nat, id: nat)
    requires !ValUses(v, id)
    ensures !CodeUses(ExitTest(t, v, c), id)
  {
  }

  lemma {:induction false} ForUses(s: Stmt, np: nat, nl: nat, id: nat)
    requires s.For? && !StmtMentions(s, id) && !TempOf(id, np, GenStmt(s, np, nl).np)
    ensures !CodeUses(GenStmt(s, np, nl).code, id)
    decreases s, 0
  {
    hide CodeUses, GenOptional, OptMentions, GenStmt, ExitTest;
    ForGen(s, np, nl);
    var gi := GenStmt(s.init, np, nl + 1);
    var gt := GenOptional(s.test, gi.np, gi.nl);
    var gb := GenStmt(s.body, gt.np, gt.nl);
    var gp := GenOptional(s.post, gb.np, gb.nl);
    StmtMono(s.init, np, nl + 1);
    OptionalMono(s.test, gi.np, gi.nl);
    StmtMono(s.body, gt.np, gt.nl);
    OptionalMono(s.post, gb.np, gb.nl);
    StmtUses(s.init, np, nl + 1, id);
    OptionalUses(s.test, gi.np, gi.nl, id);
    StmtUses(s.body, gt.np, gt.nl, id);
    OptionalUses(s.post, gb.np, gb.nl, id);
    ExitUses(s.test, gt.val, s.id, id);
    var start, mid, x := ILabel(Temp(nl)), ILabel(Lbl(LContinue, s.id)), ExitTest(s.test, gt.val, s.id);
    var a, b := IJump(Temp(nl)), ILabel(Lbl(LBreak, s.id));
    UsesOne(start, id);
    UsesOne(mid, id);
    TwoUse(a, b, id);
    var tail := [mid] + (gp.code + [a, b]);
    UsesJoin3([mid], gp.code, [a, b], id);
    UsesJoin3(x, gb.code, tail, id);
    UsesJoin3([start], gt.code, x + (gb.code + tail), id);
    UsesJoin(gi.code, [start] + (gt.code + (x + (gb.code + tail))), id);
  }

  lemma {:induction false} ItemsUse(items: seq<Stmt>, np: nat, nl: nat, id: nat)
    requires !ItemsMention(items, id) && !TempOf(id, np, GenItems(items, np, nl).np)
    ensures !CodeUses(GenItems(items, np, nl).code, id)
    decreases items, 0
  {
    hide CodeUses, GenStmt, StmtMentions;
    if items == [] {
      NoneUse(id);
    } else {
      var g := GenStmt(items[0], np, nl);
      var h := GenItems(items[1..], g.np, g.nl);
      StmtMono(items[0], np, nl);
      ItemsMono(items[1..], g.np, g.nl);
      StmtUses(items[0], np, nl, id);
      ItemsUse(items[1..], g.np, g.nl, id);
      UsesJoin(g.code, h.code, id);
    }
  }

  /** The code of a function uses its own automatic objects and the temporaries drawn for it. */
  lemma FunctionUses(body: Stmt, ret: Ty, np: nat, nl: nat, id: nat)
    requires CodeUses(GenFunction(body, ret, np, nl).code, id)
    ensures StmtMentions(body, id) || TempOf(id, np, GenFunction(body, ret, np, nl).np)
  {
    hide CodeUses, GenStmt, StmtMentions;
    var g := GenStmt(body, np, nl);
    var last := IReturn(if ret.Void? then NoValue else Const(ret, 0));
    UsesOne(last, id);
    UsesJoin(g.code, [last], id);
    if !StmtMentions(body, id) && !TempOf(id, np, g.np) { StmtUses(body, np, nl, id); }
  }
}
