/** Every label of a function's code is defined exactly where its statement says, and once; every
    jump, in dead code too, has its label. */
module Labels {
  import opened Arith
  import opened Ast
  import opened Ir
  import opened IrGen
  import opened ExprProof
  import opened StmtParts

  /** Statements of 's' numbered 'id', among those that own labels. */
  function IdCount(s: Stmt, id: nat): nat
    decreases s, 1
  {
    match s
    case Block(items) => IdCountItems(items, id)
    case If(_, a, None) => IdCount(a, id)
    case If(_, a, Some(b)) => IdCount(a, id) + IdCount(b, id)
    case For(i, n, _, _, b) => Own(i, id) + IdCount(n, id) + IdCount(b, id)
    case While(i, _, b) => Own(i, id) + IdCount(b, id)
    case DoWhile(i, _, b) => Own(i, id) + IdCount(b, id)
    case Switch(i, _, b, _, _) => Own(i, id) + IdCount(b, id)
    case Case(i, _, _, b) => Own(i, id) + IdCount(b, id)
    case Default(i, b) => Own(i, id) + IdCount(b, id)
    case Label(i, _, b) => Own(i, id) + IdCount(b, id)
    case _ => 0
  }

  function IdCountItems(items: seq<Stmt>, id: nat): nat
    decreases items, 0
  {
    if items == [] then 0 else IdCount(items[0], id) + IdCountItems(items[1..], id)
  }

  function Own(i: nat, id: nat): nat {
    if i == id then 1 else 0
  }

  /** Statement ids come from one counter. */
  ghost predicate DistinctIds(s: Stmt) {
    forall id :: IdCount(s, id) <= 1
  }

  /** 1 for a temporary label drawn from the counter while it went from 'nl' to 'nl2'. */
  function Drawn(l: Lbl, nl: nat, nl2: nat): nat {
    if l.kind.LTemp? && nl <= l.id < nl2 then 1 else 0
  }

  lemma CountOne(i: Instr, l: Lbl)
    ensures Count([i], l) == if i == ILabel(l) then 1 else 0
  {
    assert [i][1..] == [];
  }

  lemma CountTwo(i: Instr, j: Instr, l: Lbl)
    ensures Count([i, j], l) == Count([i], l) + Count([j], l)
  {
    assert [i, j] == [i] + [j];
    CountAppend([i], [j], l);
  }

  lemma CountAppend4(a: seq<Instr>, b: seq<Instr>, c: seq<Instr>, d: seq<Instr>, l: Lbl)
    ensures Count(a + (b + (c + d)), l) == Count(a, l) + Count(b, l) + Count(c, l) + Count(d, l)
  {
    CountAppend(a, b + (c + d), l);
    CountAppend(b, c + d, l);
    CountAppend(c, d, l);
  }

  /** An expression defines exactly the temporary labels it draws, each once. */
  lemma {:induction false} ExprLabels(e: Expr, np: nat, nl: nat, l: Lbl)
    ensures GenExpr(e, np, nl).nl >= nl
    ensures Count(GenExpr(e, np, nl).code, l) == Drawn(l, nl, GenExpr(e, np, nl).nl)
    decreases e, 1
  {
    GenMono(e, np, nl);
    match e
    case Unary(op, a, t) =>
      var g := GenExpr(a, np, nl);
      ExprLabels(a, np, nl, l);
      if !op.Plus? { CountPlain(g.code, IUnary(op, g.val, Pseudo(t, g.np)), l); }
    case Binary(op, a, b, t) =>
      if IsLogical(op) { LogicalLabels(e, np, nl, l); }
      else {
        var g := GenExpr(a, np, nl);
        var h := GenExpr(b, g.np, g.nl);
        ExprLabels(a, np, nl, l);
        ExprLabels(b, g.np, g.nl, l);
        var i := IBinary(op, g.val, h.val, Pseudo(t, h.np));
        CountAppend(g.code, h.code + [i], l);
        CountPlain(h.code, i, l);
      }
    case IncDec(prefix, inc, s) =>
      var i := IBinary(if inc then Add else Sub, Object(s), Const(s.ty, 1), Object(s));
      CountOne(i, l);
      CountTwo(ICopy(Object(s), Pseudo(s.ty, np)), i, l);
      CountOne(ICopy(Object(s), Pseudo(s.ty, np)), l);
    case Assign(s, a) =>
      ExprLabels(a, np, nl, l);
      CountPlain(GenExpr(a, np, nl).code, ICopy(GenExpr(a, np, nl).val, Object(s)), l);
    case Compound(_, _, _, _) => CompoundLabels(e, np, nl, l);
    case Conditional(_, _, _, _) => ConditionalLabels(e, np, nl, l);
    case Call(fn, _, args, t) =>
      var g := GenArgs(args, np, nl);
      ArgsLabels(args, np, nl, l);
      CountPlain(g.code, ICall(fn, g.vals, if t.Void? then NoValue else Pseudo(t, g.np)), l);
    case Cast(t, a) =>
      var g := GenExpr(a, np, nl);
      ExprLabels(a, np, nl, l);
      if !t.Void? { CountConvert(g.val, t, g.np, g.nl, g.code, l); }
    case _ =>
  }

  lemma CountPlain(code: seq<Instr>, i: Instr, l: Lbl)
    requires !i.ILabel?
    ensures Count(code + [i], l) == Count(code, l)
  {
    CountAppend(code, [i], l);
    CountOne(i, l);
  }

  lemma CountConvert(v: Value, t: Ty, np: nat, nl: nat, code: seq<Instr>, l: Lbl)
    ensures Count(code + GenConvert(v, t, np, nl).code, l) == Count(code, l)
    ensures Count(GenConvert(v, t, np, nl).code, l) == 0
    ensures GenConvert(v, t, np, nl).nl == nl
  {
    var conv := GenConvert(v, t, np, nl).code;
    CountAppend(code, conv, l);
    if conv != [] { CountOne(conv[0], l); }
  }

  lemma CompoundLabels(e: Expr, np: nat, nl: nat, l: Lbl)
    requires e.Compound?
    ensures Count(GenExpr(e, np, nl).code, l) == Drawn(l, nl, GenExpr(e, np, nl).nl)
    decreases e, 0
  {
    var g := GenExpr(e.rvalue, np, nl);
    var x := Object(e.sym);
    var left := GenConvert(x, e.opTy, g.np, g.nl);
    var result := Pseudo(e.opTy, left.np);
    var op := IBinary(e.bop, left.val, g.val, result);
    var back := GenConvert(result, e.sym.ty, left.np + 1, left.nl);
    ExprLabels(e.rvalue, np, nl, l);
    CountConvert(x, e.opTy, g.np, g.nl, [], l);
    CountConvert(result, e.sym.ty, left.np + 1, left.nl, [], l);
    CountOne(op, l);
    CountAppend4(g.code, left.code, [op], back.code + [ICopy(back.val, x)], l);
    CountPlain(back.code, ICopy(back.val, x), l);
  }

  lemma LogicalLabels(e: Expr, np: nat, nl: nat, l: Lbl)
    requires e.Binary? && IsLogical(e.bop)
    ensures Count(GenExpr(e, np, nl).code, l) == Drawn(l, nl, GenExpr(e, np, nl).nl)
    decreases e, 0
  {
    var g := GenExpr(e.left, np + 1, nl + 2);
    var h := GenExpr(e.right, g.np, g.nl);
    ExprLabels(e.left, np + 1, nl + 2, l);
    ExprLabels(e.right, g.np, g.nl, l);
    var j1, j2 := ShortJump(e.bop, g.val, nl), ShortJump(e.bop, h.val, nl);
    var tail := ShortTail(e.bop, Pseudo(e.ty, np), nl);
    CountAppend(g.code + j1, h.code + (j2 + tail), l);
    CountPlain(g.code, j1[0], l);
    CountAppend(h.code, j2 + tail, l);
    CountAppend(j2, tail, l);
    CountOne(j2[0], l);
    TailLabels(e.bop, Pseudo(e.ty, np), nl, l);
  }

  lemma TailLabels(op: BinOp, d: Value, nl: nat, l: Lbl)
    ensures Count(ShortTail(op, d, nl), l) == Drawn(l, nl, nl + 2)
  {
    var t := ShortTail(op, d, nl);
    assert t == [t[0], t[1]] + ([t[2], t[3]] + [t[4]]);
    CountAppend([t[0], t[1]], [t[2], t[3]] + [t[4]], l);
    CountAppend([t[2], t[3]], [t[4]], l);
    CountTwo(t[0], t[1], l);
    CountTwo(t[2], t[3], l);
    CountOne(t[0], l);
    CountOne(t[1], l);
    CountOne(t[2], l);
    CountOne(t[3], l);
    CountOne(t[4], l);
  }

  lemma CountCopy(v: Value, d: Value, l: Lbl)
    ensures Count(CopyTo(v, d), l) == 0
  {
    CountOne(ICopy(v, d), l);
  }

  lemma ConditionalLabels(e: Expr, np: nat, nl: nat, l: Lbl)
    requires e.Conditional?
    ensures Count(GenExpr(e, np, nl).code, l) == Drawn(l, nl, GenExpr(e, np, nl).nl)
    decreases e, 0
  {
    hide Count, GenExpr;
    ConditionalCode(e, np, nl);
    var dst, np0 := CondDst(e, np), CondNp(e, np);
    var gc := GenExpr(e.cond, np0, nl + 2);
    var ga := GenExpr(e.thn, gc.np, gc.nl);
    var gb := GenExpr(e.els, ga.np, ga.nl);
    ExprLabels(e.cond, np0, nl + 2, l);
    ExprLabels(e.thn, gc.np, gc.nl, l);
    ExprLabels(e.els, ga.np, ga.nl, l);
    var j, mid, end := [IJumpIfZero(gc.val, Temp(nl))], [IJump(Temp(nl + 1)), ILabel(Temp(nl))], [ILabel(Temp(nl + 1))];
    var ca, cb := CopyTo(ga.val, dst), CopyTo(gb.val, dst);
    var rest := mid + (gb.code + (cb + end));
    CountAppend4(gc.code, j, ga.code, ca + rest, l);
    CountAppend(ca, rest, l);
    CountAppend4(mid, gb.code, cb, end, l);
    CountCopy(ga.val, dst, l);
    CountCopy(gb.val, dst, l);
    CountOne(j[0], l);
    CountTwo(mid[0], mid[1], l);
    CountOne(mid[0], l);
    CountOne(mid[1], l);
    CountOne(end[0], l);
  }

  lemma {:induction false} ArgsLabels(args: seq<Expr>, np: nat, nl: nat, l: Lbl)
    ensures GenArgs(args, np, nl).nl >= nl
    ensures Count(GenArgs(args, np, nl).code, l) == Drawn(l, nl, GenArgs(args, np, nl).nl)
    decreases args, 0
  {
    if args != [] {
      var g := GenExpr(args[0], np, nl);
      ExprLabels(args[0], np, nl, l);
      ArgsLabels(args[1..], g.np, g.nl, l);
      CountAppend(g.code, GenArgs(args[1..], g.np, g.nl).code, l);
    }
  }

  lemma {:induction false} DeclsLabels(ds: seq<Decl>, np: nat, nl: nat, l: Lbl)
    ensures GenDecls(ds, np, nl).nl >= nl
    ensures Count(GenDecls(ds, np, nl).code, l) == Drawn(l, nl, GenDecls(ds, np, nl).nl)
  {
    if ds != [] {
      if !ds[0].isObject || !ds[0].isAuto || ds[0].init.None? {
        DeclsLabels(ds[1..], np, nl, l);
      } else {
        var g := GenExpr(ds[0].init.value, np, nl);
        var h := GenDecls(ds[1..], g.np, g.nl);
        var i := ICopy(g.val, Object(ds[0].sym));
        ExprLabels(ds[0].init.value, np, nl, l);
        DeclsLabels(ds[1..], g.np, g.nl, l);
        CountAppend(g.code, [i] + h.code, l);
        CountAppend([i], h.code, l);
        CountOne(i, l);
      }
    }
  }

  lemma OptionalLabels(e: Option<Expr>, np: nat, nl: nat, l: Lbl)
    ensures GenOptional(e, np, nl).nl >= nl
    ensures Count(GenOptional(e, np, nl).code, l) == Drawn(l, nl, GenOptional(e, np, nl).nl)
  {
    if e.Some? { ExprLabels(e.value, np, nl, l); }
  }

  lemma {:induction false} TestsLabels(cases: seq<CaseRef>, v: Value, np: nat, l: Lbl)
    ensures Count(GenTests(cases, v, np), l) == 0
  {
    if cases != [] {
      var i := IBinary(Eq, v, Const(TyOf(v), cases[0].value), Pseudo(Int, np));
      var j := IJumpIfNotZero(Pseudo(Int, np), Lbl(LCase, cases[0].id));
      CountAppend([i, j], GenTests(cases[1..], v, np + 1), l);
      CountTwo(i, j, l);
      CountOne(i, l);
      CountOne(j, l);
      TestsLabels(cases[1..], v, np + 1, l);
    }
  }

  /** Definitions of 'l' in the code of 's', if it is no temporary label: one for each loop, switch, case,
      default or label that owns it. */
  function Defines(s: Stmt, l: Lbl): nat
    decreases s, 1
  {
    match s
    case Block(items) => DefinesInItems(items, l)
    case If(_, a, b) => Defines(a, l) + if b.Some? then Defines(b.value, l) else 0
    case For(i, n, _, _, b) => LoopMark(i, l) + Defines(n, l) + Defines(b, l)
    case While(i, _, b) => LoopMark(i, l) + Defines(b, l)
    case DoWhile(i, _, b) => LoopMark(i, l) + Defines(b, l)
    case Switch(i, _, b, _, _) => Mark(Lbl(LBreak, i), l) + Defines(b, l)
    case Case(i, _, _, b) => Mark(Lbl(LCase, i), l) + Defines(b, l)
    case Default(i, b) => Mark(Lbl(LCase, i), l) + Defines(b, l)
    case Label(i, _, b) => Mark(Lbl(LUser, i), l) + Defines(b, l)
    case _ => 0
  }

  function DefinesInItems(items: seq<Stmt>, l: Lbl): nat
    decreases items, 0
  {
    if items == [] then 0 else Defines(items[0], l) + DefinesInItems(items[1..], l)
  }

  function Mark(own: Lbl, l: Lbl): nat {
    if own == l then 1 else 0
  }

  function LoopMark(id: nat, l: Lbl): nat {
    Mark(Lbl(LContinue, id), l) + Mark(Lbl(LBreak, id), l)
  }

  lemma {:induction false} DefinesBound(s: Stmt, l: Lbl)
    ensures Defines(s, l) <= IdCount(s, l.id)
    decreases s, 1
  {
    match s
    case Block(items) => DefinesInItemsBound(items, l);
    case If(_, a, b) => DefinesBound(a, l); if b.Some? { DefinesBound(b.value, l); }
    case For(_, n, _, _, b) => DefinesBound(n, l); DefinesBound(b, l);
    case While(_, _, b) => DefinesBound(b, l);
    case DoWhile(_, _, b) => DefinesBound(b, l);
    case Switch(_, _, b, _, _) => DefinesBound(b, l);
    case Case(_, _, _, b) => DefinesBound(b, l);
    case Default(_, b) => DefinesBound(b, l);
    case Label(_, _, b) => DefinesBound(b, l);
    case _ =>
  }

  lemma {:induction false} DefinesInItemsBound(items: seq<Stmt>, l: Lbl)
    ensures DefinesInItems(items, l) <= IdCountItems(items, l.id)
    decreases items, 0
  {
    if items != [] {
      DefinesBound(items[0], l);
      DefinesInItemsBound(items[1..], l);
    }
  }

  /** Definitions of 'l' that the code of 's' makes while the label counter goes from 'nl' to 'nl2'. */
  function Made(s: Stmt, l: Lbl, nl: nat, nl2: nat): nat {
    if l.kind.LTemp? then Drawn(l, nl, nl2) else Defines(s, l)
  }

  /** A statement defines each temporary label it draws exactly once, and each other label exactly as
      often as its statements own it. */
  lemma {:induction false} StmtLabels(s: Stmt, np: nat, nl: nat, l: Lbl)
    ensures GenStmt(s, np, nl).nl >= nl
    ensures Count(GenStmt(s, np, nl).code, l) == Made(s, l, nl, GenStmt(s, np, nl).nl)
    decreases s, 1
  {
    hide GenExpr, Count, GenDecls;
    match s
    case Null => CountNone(l);
    case ExprStmt(e) => ExprLabels(e, np, nl, l);
    case DeclStmt(ds) => DeclsLabels(ds, np, nl, l);
    case Block(items) => ItemsLabels(items, np, nl, l);
    case Return(e) =>
      var g := GenOptional(e, np, nl);
      OptionalLabels(e, np, nl, l);
      CountPlain(g.code, IReturn(g.val), l);
    case If(_, _, _) => IfLabels(s, np, nl, l);
    case For(_, _, _, _, _) => ForLabels(s, np, nl, l);
    case While(_, _, _) => WhileLabels(s, np, nl, l);
    case DoWhile(_, _, _) => DoLabels(s, np, nl, l);
    case Switch(_, _, _, _, _) => SwitchLabels(s, np, nl, l);
    case Case(_, _, _, _) => MarkedLabels(s, np, nl, l);
    case Default(_, _) => MarkedLabels(s, np, nl, l);
    case Label(_, _, _) => MarkedLabels(s, np, nl, l);
    case Break(t) => CountOne(IJump(Lbl(LBreak, t)), l);
    case Continue(t) => CountOne(IJump(Lbl(LContinue, t)), l);
    case Goto(_, t) => CountOne(IJump(Lbl(LUser, t)), l);
  }

  lemma CountNone(l: Lbl)
    ensures Count([], l) == 0
  {
  }

  lemma {:induction false} ItemsLabels(items: seq<Stmt>, np: nat, nl: nat, l: Lbl)
    ensures GenItems(items, np, nl).nl >= nl
    ensures Count(GenItems(items, np, nl).code, l) ==
            if l.kind.LTemp? then Drawn(l, nl, GenItems(items, np, nl).nl) else DefinesInItems(items, l)
    decreases items, 0
  {
    if items != [] {
      var g := GenStmt(items[0], np, nl);
      StmtLabels(items[0], np, nl, l);
      ItemsLabels(items[1..], g.np, g.nl, l);
      CountAppend(g.code, GenItems(items[1..], g.np, g.nl).code, l);
    }
  }

  lemma MarkedLabels(s: Stmt, np: nat, nl: nat, l: Lbl)
    requires s.Case? || s.Default? || s.Label?
    ensures GenStmt(s, np, nl).nl >= nl
    ensures Count(GenStmt(s, np, nl).code, l) == Made(s, l, nl, GenStmt(s, np, nl).nl)
    decreases s, 0
  {
    hide Count;
    var i := ILabel(MarkOf(s));
    StmtLabels(s.stmt, np, nl, l);
    CountAppend([i], GenStmt(s.stmt, np, nl).code, l);
    CountOne(i, l);
  }

  lemma IfLabels(s: Stmt, np: nat, nl: nat, l: Lbl)
    requires s.If?
    ensures GenStmt(s, np, nl).nl >= nl
    ensures Count(GenStmt(s, np, nl).code, l) == Made(s, l, nl, GenStmt(s, np, nl).nl)
    decreases s, 0
  {
    hide Count, GenExpr;
    var gc := GenExpr(s.cond, np, nl);
    ExprLabels(s.cond, np, nl, l);
    if s.els.None? {
      var ga := GenStmt(s.thn, gc.np, gc.nl + 1);
      StmtLabels(s.thn, gc.np, gc.nl + 1, l);
      var j, end := IJumpIfZero(gc.val, Temp(gc.nl)), ILabel(Temp(gc.nl));
      CountAppend4(gc.code, [j], ga.code, [end], l);
      CountOne(j, l);
      CountOne(end, l);
    } else {
      var ga := GenStmt(s.thn, gc.np, gc.nl + 2);
      var gb := GenStmt(s.els.value, ga.np, ga.nl);
      StmtLabels(s.thn, gc.np, gc.nl + 2, l);
      StmtLabels(s.els.value, ga.np, ga.nl, l);
      var j, end := IJumpIfZero(gc.val, Temp(gc.nl + 1)), ILabel(Temp(gc.nl));
      var mid := [IJump(Temp(gc.nl)), ILabel(Temp(gc.nl + 1))];
      IfElseGen(s, np, nl);
      CountAppend4(gc.code, [j], ga.code, mid + (gb.code + [end]), l);
      CountAppend(mid, gb.code + [end], l);
      CountAppend(gb.code, [end], l);
      CountTwo(mid[0], mid[1], l);
      CountOne(mid[0], l);
      CountOne(mid[1], l);
      CountOne(j, l);
      CountOne(end, l);
    }
  }

  lemma WhileLabels(s: Stmt, np: nat, nl: nat, l: Lbl)
    requires s.While?
    ensures GenStmt(s, np, nl).nl >= nl
    ensures Count(GenStmt(s, np, nl).code, l) == Made(s, l, nl, GenStmt(s, np, nl).nl)
    decreases s, 0
  {
    hide Count, GenExpr;
    WhileGen(s, np, nl);
    var gc := GenExpr(s.cond, np, nl);
    var gb := GenStmt(s.body, gc.np, gc.nl);
    ExprLabels(s.cond, np, nl, l);
    StmtLabels(s.body, gc.np, gc.nl, l);
    var start, j := ILabel(Lbl(LContinue, s.id)), IJumpIfZero(gc.val, Lbl(LBreak, s.id));
    var e1, e2 := IJump(Lbl(LContinue, s.id)), ILabel(Lbl(LBreak, s.id));
    CountAppend4([start], gc.code, [j], gb.code + [e1, e2], l);
    CountAppend(gb.code, [e1, e2], l);
    CountTwo(e1, e2, l);
    CountOne(start, l);
    CountOne(j, l);
    CountOne(e1, l);
    CountOne(e2, l);
  }

  lemma DoLabels(s: Stmt, np: nat, nl: nat, l: Lbl)
    requires s.DoWhile?
    ensures GenStmt(s, np, nl).nl >= nl
    ensures Count(GenStmt(s, np, nl).code, l) == Made(s, l, nl, GenStmt(s, np, nl).nl)
    decreases s, 0
  {
    hide Count, GenExpr;
    DoGen(s, np, nl);
    var gb := GenStmt(s.body, np, nl + 1);
    var gc := GenExpr(s.cond, gb.np, gb.nl);
    StmtLabels(s.body, np, nl + 1, l);
    ExprLabels(s.cond, gb.np, gb.nl, l);
    var start, mid := ILabel(Temp(nl)), ILabel(Lbl(LContinue, s.id));
    var e1, e2 := IJumpIfNotZero(gc.val, Temp(nl)), ILabel(Lbl(LBreak, s.id));
    CountAppend4([start], gb.code, [mid], gc.code + [e1, e2], l);
    CountAppend(gc.code, [e1, e2], l);
    CountTwo(e1, e2, l);
    CountOne(start, l);
    CountOne(mid, l);
    CountOne(e1, l);
    CountOne(e2, l);
  }

  lemma SwitchLabels(s: Stmt, np: nat, nl: nat, l: Lbl)
    requires s.Switch?
    ensures GenStmt(s, np, nl).nl >= nl
    ensures Count(GenStmt(s, np, nl).code, l) == Made(s, l, nl, GenStmt(s, np, nl).nl)
    decreases s, 0
  {
    hide Count, GenExpr, GenTests;
    SwitchGen(s, np, nl);
    var gc := GenExpr(s.cond, np, nl);
    var gb := GenStmt(s.body, gc.np + |s.cases|, gc.nl);
    var tests := GenTests(s.cases, gc.val, gc.np);
    ExprLabels(s.cond, np, nl, l);
    StmtLabels(s.body, gc.np + |s.cases|, gc.nl, l);
    TestsLabels(s.cases, gc.val, gc.np, l);
    var j, end := IJump(SwitchElse(s.id, s.dflt)), ILabel(Lbl(LBreak, s.id));
    CountAppend4(gc.code, tests, [j], gb.code + [end], l);
    CountAppend(gb.code, [end], l);
    CountOne(j, l);
    CountOne(end, l);
  }

  lemma ForLabels(s: Stmt, np: nat, nl: nat, l: Lbl)
    requires s.For?
    ensures GenStmt(s, np, nl).nl >= nl
    ensures Count(GenStmt(s, np, nl).code, l) == Made(s, l, nl, GenStmt(s, np, nl).nl)
    decreases s, 0
  {
    hide Count, GenOptional;
    ForGen(s, np, nl);
    var f := ForLayout(s, np, nl, 0);
    StmtLabels(s.init, np, nl + 1, l);
    OptionalLabels(s.test, f.gi.np, f.gi.nl, l);
    StmtLabels(s.body, f.gt.np, f.gt.nl, l);
    OptionalLabels(s.post, f.gb.np, f.gb.nl, l);
    var start, mid := ILabel(Temp(nl)), ILabel(Lbl(LContinue, s.id));
    var e1, e2 := IJump(Temp(nl)), ILabel(Lbl(LBreak, s.id));
    var ex := ExitTest(s.test, f.gt.val, s.id);
    CountExit(s, f.gt.val, l);
    CountAppend4(f.gi.code, [start], f.gt.code, ex + (f.gb.code + ([mid] + (f.gp.code + [e1, e2]))), l);
    CountAppend4(ex, f.gb.code, [mid], f.gp.code + [e1, e2], l);
    CountAppend(f.gp.code, [e1, e2], l);
    CountTwo(e1, e2, l);
    CountOne(start, l);
    CountOne(mid, l);
    CountOne(e1, l);
    CountOne(e2, l);
  }

  lemma CountExit(s: Stmt, v: Value, l: Lbl)
    requires s.For?
    ensures Count(ExitTest(s.test, v, s.id), l) == 0
  {
    CountOne(IJumpIfZero(v, Lbl(LBreak, s.id)), l);
  }

  /** Jump closure: a function's code defines every label at most once. */
  lemma FunctionLabels(body: Stmt, ret: Ty, np: nat, nl: nat)
    requires DistinctIds(body)
    ensures UniqueLabels(GenFunction(body, ret, np, nl).code)
  {
    var g := GenStmt(body, np, nl);
    var code := GenFunction(body, ret, np, nl).code;
    forall l ensures Count(code, l) <= 1 {
      StmtLabels(body, np, nl, l);
      DefinesBound(body, l);
      CountPlain(g.code, code[|g.code|], l);
      assert IdCount(body, l.id) <= 1;
    }
  }
}
