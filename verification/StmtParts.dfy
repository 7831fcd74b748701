/** Where the pieces of each statement's code stand. */
module StmtParts {
  import opened Arith
  import opened Ast
  import opened Semantics
  import opened Ir
  import opened IrGen
  import opened ExprProof

  /** 'break' and 'continue' targets in force, and the function body that 'goto' searches. */
  datatype Jumps = Jumps(brk: Option<nat>, cnt: Option<nat>, body: Stmt)

  predicate ExprOk(e: Expr, bound: nat) {
    WellTyped(e) && VarsBelow(e, bound)
  }

  predicate CondOk(e: Expr, bound: nat) {
    ExprOk(e, bound) && IsArithmetic(TypeOf(e))
  }

  predicate DeclsOk(ds: seq<Decl>, bound: nat) {
    ds == [] ||
    (&& (ds[0].isObject && ds[0].isAuto && ds[0].init.Some? ==>
           ExprOk(ds[0].init.value, bound) && Below(ds[0].sym, bound) && TypeOf(ds[0].init.value) == ds[0].sym.ty)
     && DeclsOk(ds[1..], bound))
  }

  /** Statement id that a jump to labelled statement 's' names. */
  function IdOf(s: Stmt): nat {
    match s
    case Case(id, _, _, _) => id
    case Default(id, _) => id
    case Label(id, _, _) => id
    case While(id, _, _) => id
    case DoWhile(id, _, _) => id
    case For(id, _, _, _, _) => id
    case Switch(id, _, _, _, _) => id
    case _ => 0
  }

  /** Case labels of a switch body in source order, not looking into nested switches. */
  function CaseList(s: Stmt): seq<CaseRef>
    decreases s, 1
  {
    match s
    case Block(items) => CaseListItems(items)
    case If(_, a, None) => CaseList(a)
    case If(_, a, Some(b)) => CaseList(a) + CaseList(b)
    case For(_, _, _, _, b) => CaseList(b)
    case While(_, _, b) => CaseList(b)
    case DoWhile(_, _, b) => CaseList(b)
    case Case(id, _, v, b) => [CaseRef(v, id)] + CaseList(b)
    case Default(_, b) => CaseList(b)
    case Label(_, _, b) => CaseList(b)
    case _ => []
  }

  function CaseListItems(items: seq<Stmt>): seq<CaseRef>
    decreases items, 0
  {
    if items == [] then [] else CaseList(items[0]) + CaseListItems(items[1..])
  }

  /** The first default label of a switch body. */
  function DefaultOf(s: Stmt): Option<nat>
    decreases s, 1
  {
    match s
    case Block(items) => DefaultOfItems(items)
    case If(_, a, None) => DefaultOf(a)
    case If(_, a, Some(b)) => if DefaultOf(a).Some? then DefaultOf(a) else DefaultOf(b)
    case For(_, _, _, _, b) => DefaultOf(b)
    case While(_, _, b) => DefaultOf(b)
    case DoWhile(_, _, b) => DefaultOf(b)
    case Case(_, _, _, b) => DefaultOf(b)
    case Default(id, _) => Some(id)
    case Label(_, _, b) => DefaultOf(b)
    case _ => None
  }

  function DefaultOfItems(items: seq<Stmt>): Option<nat>
    decreases items, 0
  {
    if items == [] then None
    else if DefaultOf(items[0]).Some? then DefaultOf(items[0])
    else DefaultOfItems(items[1..])
  }

  /** What error-free analysis of a statement establishes: typed expressions, a case list and
      default that are those of the body, and jumps that name the statement C says they reach. */
  predicate StmtOk(s: Stmt, j: Jumps, bound: nat)
    decreases s, 1
  {
    match s
    case Null => true
    case ExprStmt(e) => ExprOk(e, bound)
    case DeclStmt(ds) => DeclsOk(ds, bound)
    case Block(items) => ItemsOk(items, j, bound)
    case Return(None) => true
    case Return(Some(e)) => ExprOk(e, bound)
    case If(c, a, b) => CondOk(c, bound) && StmtOk(a, j, bound) && (b.Some? ==> StmtOk(b.value, j, bound))
    case For(id, i, t, p, b) =>
      && StmtOk(i, j.(brk := None, cnt := None), bound)
      && (t.Some? ==> CondOk(t.value, bound)) && (p.Some? ==> ExprOk(p.value, bound))
      && StmtOk(b, j.(brk := Some(id), cnt := Some(id)), bound)
    case While(id, c, b) => CondOk(c, bound) && StmtOk(b, j.(brk := Some(id), cnt := Some(id)), bound)
    case DoWhile(id, c, b) => CondOk(c, bound) && StmtOk(b, j.(brk := Some(id), cnt := Some(id)), bound)
    case Switch(id, c, b, cases, dflt) =>
      && CondOk(c, bound) && StmtOk(b, j.(brk := Some(id)), bound)
      && cases == CaseList(b) && dflt == DefaultOf(b)
    case Case(_, _, _, b) => StmtOk(b, j, bound)
    case Default(_, b) => StmtOk(b, j, bound)
    case Label(_, _, b) => StmtOk(b, j, bound)
    case Break(t) => j.brk == Some(t)
    case Continue(t) => j.cnt == Some(t)
    case Goto(n, t) =>
      var found := Find(j.body, KStop, ByName(n));
      found.Some? && IdOf(found.value.0) == t
  }

  predicate ItemsOk(items: seq<Stmt>, j: Jumps, bound: nat)
    decreases items, 0
  {
    items == [] || (StmtOk(items[0], j, bound) && ItemsOk(items[1..], j, bound))
  }

  lemma {:induction false} DeclsMono(ds: seq<Decl>, np: nat, nl: nat)
    ensures GenDecls(ds, np, nl).np >= np
  {
    if ds != [] {
      if !ds[0].isObject || !ds[0].isAuto || ds[0].init.None? {
        DeclsMono(ds[1..], np, nl);
      } else {
        GenMono(ds[0].init.value, np, nl);
        var g := GenExpr(ds[0].init.value, np, nl);
        DeclsMono(ds[1..], g.np, g.nl);
      }
    }
  }

  lemma OptionalMono(e: Option<Expr>, np: nat, nl: nat)
    ensures GenOptional(e, np, nl).np >= np && GenOptional(e, np, nl).nl >= nl
  {
    if e.Some? { GenMono(e.value, np, nl); }
  }

  /** Temporaries of a statement are numbered from 'np' on. */
  lemma {:induction false} StmtMono(s: Stmt, np: nat, nl: nat)
    ensures GenStmt(s, np, nl).np >= np
    decreases s, 1
  {
    hide GenExpr, GenOptional;
    match s
    case ExprStmt(e) => GenMono(e, np, nl);
    case DeclStmt(ds) => DeclsMono(ds, np, nl);
    case Block(items) => ItemsMono(items, np, nl);
    case Return(e) => OptionalMono(e, np, nl);
    case If(c, a, None) =>
      GenMono(c, np, nl);
      var gc := GenExpr(c, np, nl);
      StmtMono(a, gc.np, gc.nl + 1);
    case If(c, a, Some(b)) =>
      GenMono(c, np, nl);
      var gc := GenExpr(c, np, nl);
      StmtMono(a, gc.np, gc.nl + 2);
      var ga := GenStmt(a, gc.np, gc.nl + 2);
      StmtMono(b, ga.np, ga.nl);
    case For(id, i, t, p, b) =>
      StmtMono(i, np, nl + 1);
      var gi := GenStmt(i, np, nl + 1);
      OptionalMono(t, gi.np, gi.nl);
      var gt := GenOptional(t, gi.np, gi.nl);
      StmtMono(b, gt.np, gt.nl);
      var gb := GenStmt(b, gt.np, gt.nl);
      OptionalMono(p, gb.np, gb.nl);
    case While(_, c, b) =>
      GenMono(c, np, nl);
      var gc := GenExpr(c, np, nl);
      StmtMono(b, gc.np, gc.nl);
    case DoWhile(_, c, b) =>
      StmtMono(b, np, nl + 1);
      var gb := GenStmt(b, np, nl + 1);
      GenMono(c, gb.np, gb.nl);
    case Switch(_, c, b, cases, _) =>
      GenMono(c, np, nl);
      var gc := GenExpr(c, np, nl);
      StmtMono(b, gc.np + |cases|, gc.nl);
    case Case(_, _, _, b) => StmtMono(b, np, nl);
    case Default(_, b) => StmtMono(b, np, nl);
    case Label(_, _, b) => StmtMono(b, np, nl);
    case _ =>
  }

  lemma {:induction false} ItemsMono(items: seq<Stmt>, np: nat, nl: nat)
    ensures GenItems(items, np, nl).np >= np
    decreases items, 0
  {
    if items != [] {
      StmtMono(items[0], np, nl);
      var g := GenStmt(items[0], np, nl);
      ItemsMono(items[1..], g.np, g.nl);
    }
  }

  /** The code of 's' stands at 'p'. */
  ghost predicate StmtAt(c: Ctx, s: Stmt, np: nat, nl: nat, p: nat) {
    c.bound <= np && CodeAt(c.code, p, GenStmt(s, np, nl).code)
  }

  ghost predicate ItemsAt(c: Ctx, items: seq<Stmt>, np: nat, nl: nat, p: nat) {
    c.bound <= np && CodeAt(c.code, p, GenItems(items, np, nl).code)
  }

  ghost predicate ExprAt(c: Ctx, e: Expr, np: nat, nl: nat, p: nat) {
    c.bound <= np && CodeAt(c.code, p, GenExpr(e, np, nl).code)
  }

  ghost predicate OptionalAt(c: Ctx, e: Option<Expr>, np: nat, nl: nat, p: nat) {
    c.bound <= np && CodeAt(c.code, p, GenOptional(e, np, nl).code)
  }

  ghost predicate InstrAt(c: Ctx, p: nat, i: Instr) {
    p < |c.code| && c.code[p] == i
  }

  lemma IfPlainParts(c: Ctx, s: Stmt, np: nat, nl: nat, p: nat)
    requires StmtAt(c, s, np, nl, p) && s.If? && s.els.None?
    ensures var gc := GenExpr(s.cond, np, nl);
            var ga := GenStmt(s.thn, gc.np, gc.nl + 1);
            var p1 := p + |gc.code|;
            && ExprAt(c, s.cond, np, nl, p) && StmtAt(c, s.thn, gc.np, gc.nl + 1, p1 + 1)
            && InstrAt(c, p1, IJumpIfZero(gc.val, Temp(gc.nl))) && InstrAt(c, p1 + 1 + |ga.code|, ILabel(Temp(gc.nl)))
            && |GenStmt(s, np, nl).code| == |gc.code| + 1 + |ga.code| + 1
  {
    hide GenExpr, CodeAt;
    var gc := GenExpr(s.cond, np, nl);
    var ga := GenStmt(s.thn, gc.np, gc.nl + 1);
    GenMono(s.cond, np, nl);
    CodeSplit4(c.code, p, gc.code, [IJumpIfZero(gc.val, Temp(gc.nl))], ga.code, [ILabel(Temp(gc.nl))]);
    CodeHead(c.code, p + |gc.code|, [IJumpIfZero(gc.val, Temp(gc.nl))]);
    CodeHead(c.code, p + |gc.code| + 1 + |ga.code|, [ILabel(Temp(gc.nl))]);
  }

  lemma IfElseParts(c: Ctx, s: Stmt, np: nat, nl: nat, p: nat)
    requires StmtAt(c, s, np, nl, p) && s.If? && s.els.Some?
    ensures var gc := GenExpr(s.cond, np, nl);
            var ga := GenStmt(s.thn, gc.np, gc.nl + 2);
            var gb := GenStmt(s.els.value, ga.np, ga.nl);
            var p1 := p + |gc.code|;
            var p2 := p1 + 1 + |ga.code|;
            && ExprAt(c, s.cond, np, nl, p) && StmtAt(c, s.thn, gc.np, gc.nl + 2, p1 + 1)
            && StmtAt(c, s.els.value, ga.np, ga.nl, p2 + 2)
            && InstrAt(c, p1, IJumpIfZero(gc.val, Temp(gc.nl + 1))) && InstrAt(c, p2, IJump(Temp(gc.nl)))
            && InstrAt(c, p2 + 1, ILabel(Temp(gc.nl + 1))) && InstrAt(c, p2 + 2 + |gb.code|, ILabel(Temp(gc.nl)))
            && |GenStmt(s, np, nl).code| == |gc.code| + 1 + |ga.code| + 2 + |gb.code| + 1
  {
    hide GenExpr, CodeAt, GenStmt;
    var gc := GenExpr(s.cond, np, nl);
    var ga := GenStmt(s.thn, gc.np, gc.nl + 2);
    var gb := GenStmt(s.els.value, ga.np, ga.nl);
    GenMono(s.cond, np, nl);
    StmtMono(s.thn, gc.np, gc.nl + 2);
    IfElseGen(s, np, nl);
    var j, mid, end := [IJumpIfZero(gc.val, Temp(gc.nl + 1))], [IJump(Temp(gc.nl)), ILabel(Temp(gc.nl + 1))], [ILabel(Temp(gc.nl))];
    CodeSplit4(c.code, p, gc.code, j, ga.code, mid + (gb.code + end));
    var p2 := p + |gc.code| + 1 + |ga.code|;
    CodeSplit(c.code, p2, mid, gb.code + end);
    CodeSplit(c.code, p2 + 2, gb.code, end);
    CodeHead(c.code, p + |gc.code|, j);
    CodeHead(c.code, p2, mid);
    CodeHead(c.code, p2 + 1, mid[1..]);
    CodeHead(c.code, p2 + 2 + |gb.code|, end);
  }

  lemma IfPlainGen(s: Stmt, np: nat, nl: nat)
    requires s.If? && s.els.None?
    ensures var gc := GenExpr(s.cond, np, nl);
            var ga := GenStmt(s.thn, gc.np, gc.nl + 1);
            GenStmt(s, np, nl) ==
            Out(gc.code + ([IJumpIfZero(gc.val, Temp(gc.nl))] + (ga.code + [ILabel(Temp(gc.nl))])), NoValue, ga.np, ga.nl)
  {
    hide GenExpr;
  }

  lemma IfElseGen(s: Stmt, np: nat, nl: nat)
    requires s.If? && s.els.Some?
    ensures var gc := GenExpr(s.cond, np, nl);
            var ga := GenStmt(s.thn, gc.np, gc.nl + 2);
            var gb := GenStmt(s.els.value, ga.np, ga.nl);
            GenStmt(s, np, nl) ==
            Out(gc.code + ([IJumpIfZero(gc.val, Temp(gc.nl + 1))]
                + (ga.code + ([IJump(Temp(gc.nl)), ILabel(Temp(gc.nl + 1))] + (gb.code + [ILabel(Temp(gc.nl))])))),
                NoValue, gb.np, gb.nl)
  {
    hide GenExpr;
  }

  lemma WhileParts(c: Ctx, s: Stmt, np: nat, nl: nat, p: nat)
    requires StmtAt(c, s, np, nl, p) && s.While?
    ensures var gc := GenExpr(s.cond, np, nl);
            var gb := GenStmt(s.body, gc.np, gc.nl);
            var p1 := p + 1 + |gc.code|;
            var p2 := p1 + 1 + |gb.code|;
            && ExprAt(c, s.cond, np, nl, p + 1) && StmtAt(c, s.body, gc.np, gc.nl, p1 + 1)
            && InstrAt(c, p, ILabel(Lbl(LContinue, s.id))) && InstrAt(c, p1, IJumpIfZero(gc.val, Lbl(LBreak, s.id)))
            && InstrAt(c, p2, IJump(Lbl(LContinue, s.id))) && InstrAt(c, p2 + 1, ILabel(Lbl(LBreak, s.id)))
            && p + |GenStmt(s, np, nl).code| == p2 + 2
  {
    hide GenExpr, CodeAt;
    var gc := GenExpr(s.cond, np, nl);
    var gb := GenStmt(s.body, gc.np, gc.nl);
    GenMono(s.cond, np, nl);
    var start, j := [ILabel(Lbl(LContinue, s.id))], [IJumpIfZero(gc.val, Lbl(LBreak, s.id))];
    var end := [IJump(Lbl(LContinue, s.id)), ILabel(Lbl(LBreak, s.id))];
    WhileGen(s, np, nl);
    hide GenStmt;
    CodeSplit4(c.code, p, start, gc.code, j, gb.code + end);
    CodeSplit(c.code, p + 1 + |gc.code| + 1, gb.code, end);
    CodeHead(c.code, p, start);
    CodeHead(c.code, p + 1 + |gc.code|, j);
    CodeHead(c.code, p + 1 + |gc.code| + 1 + |gb.code|, end);
    CodeHead(c.code, p + 1 + |gc.code| + 1 + |gb.code| + 1, end[1..]);
  }

  lemma WhileGen(s: Stmt, np: nat, nl: nat)
    requires s.While?
    ensures var gc := GenExpr(s.cond, np, nl);
            var gb := GenStmt(s.body, gc.np, gc.nl);
            GenStmt(s, np, nl) ==
            Out([ILabel(Lbl(LContinue, s.id))] + (gc.code + ([IJumpIfZero(gc.val, Lbl(LBreak, s.id))]
                + (gb.code + [IJump(Lbl(LContinue, s.id)), ILabel(Lbl(LBreak, s.id))]))), NoValue, gb.np, gb.nl)
  {
    hide GenExpr;
  }

  lemma DoParts(c: Ctx, s: Stmt, np: nat, nl: nat, p: nat)
    requires StmtAt(c, s, np, nl, p) && s.DoWhile?
    ensures var gb := GenStmt(s.body, np, nl + 1);
            var gc := GenExpr(s.cond, gb.np, gb.nl);
            var p1 := p + 1 + |gb.code|;
            var p2 := p1 + 1 + |gc.code|;
            && StmtAt(c, s.body, np, nl + 1, p + 1) && ExprAt(c, s.cond, gb.np, gb.nl, p1 + 1)
            && InstrAt(c, p, ILabel(Temp(nl))) && InstrAt(c, p1, ILabel(Lbl(LContinue, s.id)))
            && InstrAt(c, p2, IJumpIfNotZero(gc.val, Temp(nl))) && InstrAt(c, p2 + 1, ILabel(Lbl(LBreak, s.id)))
            && p + |GenStmt(s, np, nl).code| == p2 + 2
  {
    hide GenExpr, CodeAt;
    var gb := GenStmt(s.body, np, nl + 1);
    var gc := GenExpr(s.cond, gb.np, gb.nl);
    StmtMono(s.body, np, nl + 1);
    var start, mid := [ILabel(Temp(nl))], [ILabel(Lbl(LContinue, s.id))];
    var end := [IJumpIfNotZero(gc.val, Temp(nl)), ILabel(Lbl(LBreak, s.id))];
    DoGen(s, np, nl);
    hide GenStmt;
    CodeSplit4(c.code, p, start, gb.code, mid, gc.code + end);
    CodeSplit(c.code, p + 1 + |gb.code| + 1, gc.code, end);
    CodeHead(c.code, p, start);
    CodeHead(c.code, p + 1 + |gb.code|, mid);
    CodeHead(c.code, p + 1 + |gb.code| + 1 + |gc.code|, end);
    CodeHead(c.code, p + 1 + |gb.code| + 1 + |gc.code| + 1, end[1..]);
  }

  lemma DoGen(s: Stmt, np: nat, nl: nat)
    requires s.DoWhile?
    ensures var gb := GenStmt(s.body, np, nl + 1);
            var gc := GenExpr(s.cond, gb.np, gb.nl);
            GenStmt(s, np, nl) ==
            Out([ILabel(Temp(nl))] + (gb.code + ([ILabel(Lbl(LContinue, s.id))]
                + (gc.code + [IJumpIfNotZero(gc.val, Temp(nl)), ILabel(Lbl(LBreak, s.id))]))), NoValue, gc.np, gc.nl)
  {
    hide GenExpr;
  }

  /** Positions inside a 'for' loop's code. */
  datatype ForAt = ForAt(gi: Out, gt: Out, gb: Out, gp: Out, start: nat, exit: nat, body: nat, cnt: nat, back: nat)

  function ForLayout(s: Stmt, np: nat, nl: nat, p: nat): ForAt
    requires s.For?
  {
    var gi := GenStmt(s.init, np, nl + 1);
    var gt := GenOptional(s.test, gi.np, gi.nl);
    var gb := GenStmt(s.body, gt.np, gt.nl);
    var gp := GenOptional(s.post, gb.np, gb.nl);
    var start := p + |gi.code|;
    var exit := start + 1 + |gt.code|;
    var body := exit + |ExitTest(s.test, gt.val, s.id)|;
    var cnt := body + |gb.code|;
    ForAt(gi, gt, gb, gp, start, exit, body, cnt, cnt + 1 + |gp.code|)
  }

  lemma ForParts(c: Ctx, s: Stmt, np: nat, nl: nat, p: nat)
    requires StmtAt(c, s, np, nl, p) && s.For?
    ensures var f := ForLayout(s, np, nl, p);
            && StmtAt(c, s.init, np, nl + 1, p) && OptionalAt(c, s.test, f.gi.np, f.gi.nl, f.start + 1)
            && StmtAt(c, s.body, f.gt.np, f.gt.nl, f.body) && OptionalAt(c, s.post, f.gb.np, f.gb.nl, f.cnt + 1)
            && CodeAt(c.code, f.exit, ExitTest(s.test, f.gt.val, s.id))
            && InstrAt(c, f.start, ILabel(Temp(nl))) && InstrAt(c, f.cnt, ILabel(Lbl(LContinue, s.id)))
            && InstrAt(c, f.back, IJump(Temp(nl))) && InstrAt(c, f.back + 1, ILabel(Lbl(LBreak, s.id)))
            && p + |GenStmt(s, np, nl).code| == f.back + 2
  {
    hide GenOptional, CodeAt, ExitTest;
    ForGen(s, np, nl);
    hide GenStmt;
    var f := ForLayout(s, np, nl, p);
    StmtMono(s.init, np, nl + 1);
    OptionalMono(s.test, f.gi.np, f.gi.nl);
    StmtMono(s.body, f.gt.np, f.gt.nl);
    var ex := ExitTest(s.test, f.gt.val, s.id);
    var start, mid, end := [ILabel(Temp(nl))], [ILabel(Lbl(LContinue, s.id))], [IJump(Temp(nl)), ILabel(Lbl(LBreak, s.id))];
    CodeSplit4(c.code, p, f.gi.code, start, f.gt.code, ex + (f.gb.code + (mid + (f.gp.code + end))));
    CodeSplit4(c.code, f.exit, ex, f.gb.code, mid, f.gp.code + end);
    CodeSplit(c.code, f.cnt + 1, f.gp.code, end);
    CodeHead(c.code, f.start, start);
    CodeHead(c.code, f.cnt, mid);
    CodeHead(c.code, f.back, end);
    CodeHead(c.code, f.back + 1, end[1..]);
  }

  lemma ForGen(s: Stmt, np: nat, nl: nat)
    requires s.For?
    ensures var f := ForLayout(s, np, nl, 0);
            GenStmt(s, np, nl) ==
            Out(f.gi.code + ([ILabel(Temp(nl))] + (f.gt.code + (ExitTest(s.test, f.gt.val, s.id)
                + (f.gb.code + ([ILabel(Lbl(LContinue, s.id))] + (f.gp.code + [IJump(Temp(nl)), ILabel(Lbl(LBreak, s.id))])))))),
                NoValue, f.gp.np, f.gp.nl)
  {
    hide GenOptional, ExitTest;
  }

  lemma SwitchParts(c: Ctx, s: Stmt, np: nat, nl: nat, p: nat)
    requires StmtAt(c, s, np, nl, p) && s.Switch?
    ensures var gc := GenExpr(s.cond, np, nl);
            var tests := GenTests(s.cases, gc.val, gc.np);
            var gb := GenStmt(s.body, gc.np + |s.cases|, gc.nl);
            var p1 := p + |gc.code|;
            var p2 := p1 + |tests|;
            && np <= gc.np
            && ExprAt(c, s.cond, np, nl, p) && CodeAt(c.code, p1, tests)
            && InstrAt(c, p2, IJump(SwitchElse(s.id, s.dflt)))
            && StmtAt(c, s.body, gc.np + |s.cases|, gc.nl, p2 + 1)
            && InstrAt(c, p2 + 1 + |gb.code|, ILabel(Lbl(LBreak, s.id)))
            && p + |GenStmt(s, np, nl).code| == p2 + 1 + |gb.code| + 1
  {
    hide GenExpr, CodeAt, GenTests;
    SwitchGen(s, np, nl);
    hide GenStmt;
    var gc := GenExpr(s.cond, np, nl);
    GenMono(s.cond, np, nl);
    var tests := GenTests(s.cases, gc.val, gc.np);
    var gb := GenStmt(s.body, gc.np + |s.cases|, gc.nl);
    var j, end := [IJump(SwitchElse(s.id, s.dflt))], [ILabel(Lbl(LBreak, s.id))];
    CodeSplit4(c.code, p, gc.code, tests, j, gb.code + end);
    CodeSplit(c.code, p + |gc.code| + |tests| + 1, gb.code, end);
    CodeHead(c.code, p + |gc.code| + |tests|, j);
    CodeHead(c.code, p + |gc.code| + |tests| + 1 + |gb.code|, end);
  }

  lemma SwitchGen(s: Stmt, np: nat, nl: nat)
    requires s.Switch?
    ensures var gc := GenExpr(s.cond, np, nl);
            var gb := GenStmt(s.body, gc.np + |s.cases|, gc.nl);
            GenStmt(s, np, nl) ==
            Out(gc.code + (GenTests(s.cases, gc.val, gc.np) + ([IJump(SwitchElse(s.id, s.dflt))]
                + (gb.code + [ILabel(Lbl(LBreak, s.id))]))), NoValue, gb.np, gb.nl)
  {
    hide GenExpr, GenTests;
  }

  /** Label that marks a case, default or named statement. */
  function MarkOf(s: Stmt): Lbl {
    Lbl(if s.Label? then LUser else LCase, IdOf(s))
  }

  lemma MarkedParts(c: Ctx, s: Stmt, np: nat, nl: nat, p: nat)
    requires StmtAt(c, s, np, nl, p) && (s.Case? || s.Default? || s.Label?)
    ensures InstrAt(c, p, ILabel(MarkOf(s))) && StmtAt(c, s.stmt, np, nl, p + 1)
            && |GenStmt(s, np, nl).code| == 1 + |GenStmt(s.stmt, np, nl).code|
  {
    hide CodeAt;
    var g := GenStmt(s.stmt, np, nl);
    CodeSplit(c.code, p, [ILabel(MarkOf(s))], g.code);
    CodeHead(c.code, p, [ILabel(MarkOf(s))]);
  }

  lemma ItemsParts(c: Ctx, items: seq<Stmt>, np: nat, nl: nat, p: nat)
    requires ItemsAt(c, items, np, nl, p) && items != []
    ensures var g := GenStmt(items[0], np, nl);
            && StmtAt(c, items[0], np, nl, p) && ItemsAt(c, items[1..], g.np, g.nl, p + |g.code|)
            && |GenItems(items, np, nl).code| == |g.code| + |GenItems(items[1..], g.np, g.nl).code|
  {
    hide CodeAt, GenStmt;
    var g := GenStmt(items[0], np, nl);
    StmtMono(items[0], np, nl);
    CodeSplit(c.code, p, g.code, GenItems(items[1..], g.np, g.nl).code);
  }
}
