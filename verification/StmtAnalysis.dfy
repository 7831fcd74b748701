/** Analysis of statements: every jump gets the statement it reaches, every switch its cases, and what
    comes out is what the translation relies on. */
module StmtAnalysis {
  import opened Arith
  import opened Ast
  import opened Syntax
  import opened Folding
  import opened Analysis
  import opened ExprProof
  import opened Typing
  import opened StmtParts
  import opened Labels
  import opened Declarations

  predicate OptParsed(e: Option<Raw>) {
    e.Some? ==> Parsed(e.value)
  }

  predicate DeclsParsed(ds: seq<Declaration>) {
    forall k :: 0 <= k < |ds| ==> DeclarationOk(ds[k]) && !ds[k].isParameter && !ds[k].hasBody
  }

  /** What the parser guarantees. Declarations stand in blocks and at the head of a 'for' only. */
  predicate StmtParsed(r: RStmt)
    decreases r, 1
  {
    match r
    case SExpr(e) => Parsed(e)
    case SDecl(ds) => DeclsParsed(ds)
    case SBlock(items) => ItemsParsed(items)
    case SReturn(e) => OptParsed(e)
    case SIf(c, a, b) => Parsed(c) && StmtParsed(a) && !a.SDecl? && (b.Some? ==> StmtParsed(b.value) && !b.value.SDecl?)
    case SFor(_, i, t, p, b) =>
      (i.SNull? || i.SExpr? || i.SDecl?) && StmtParsed(i) && OptParsed(t) && OptParsed(p) && StmtParsed(b) && !b.SDecl?
    case SWhile(_, c, b) => Parsed(c) && StmtParsed(b) && !b.SDecl?
    case SDoWhile(_, c, b) => Parsed(c) && StmtParsed(b) && !b.SDecl?
    case SSwitch(_, c, b) => Parsed(c) && StmtParsed(b) && !b.SDecl?
    case SCase(_, e, b) => Parsed(e) && StmtParsed(b) && !b.SDecl?
    case SDefault(_, b) => StmtParsed(b) && !b.SDecl?
    case SLabel(_, _, b) => StmtParsed(b) && !b.SDecl?
    case _ => true
  }

  predicate ItemsParsed(items: seq<RStmt>)
    decreases items, 0
  {
    items == [] || (StmtParsed(items[0]) && ItemsParsed(items[1..]))
  }

  function RawIds(r: RStmt, id: nat): nat
    decreases r, 1
  {
    match r
    case SBlock(items) => RawItemIds(items, id)
    case SIf(_, a, b) => RawIds(a, id) + if b.Some? then RawIds(b.value, id) else 0
    case SFor(i, n, _, _, b) => Own(i, id) + RawIds(n, id) + RawIds(b, id)
    case SWhile(i, _, b) => Own(i, id) + RawIds(b, id)
    case SDoWhile(i, _, b) => Own(i, id) + RawIds(b, id)
    case SSwitch(i, _, b) => Own(i, id) + RawIds(b, id)
    case SCase(i, _, b) => Own(i, id) + RawIds(b, id)
    case SDefault(i, b) => Own(i, id) + RawIds(b, id)
    case SLabel(i, _, b) => Own(i, id) + RawIds(b, id)
    case _ => 0
  }

  function RawItemIds(items: seq<RStmt>, id: nat): nat
    decreases items, 0
  {
    if items == [] then 0 else RawIds(items[0], id) + RawItemIds(items[1..], id)
  }

  predicate DistinctCases(cases: seq<CaseRef>) {
    forall j, k :: 0 <= j < k < |cases| ==> cases[j].value != cases[k].value
  }

  /** 'break' and 'continue' reach the innermost enclosing target, and each switch knows its own cases,
      all of different value, and its default. */
  predicate Shape(s: Stmt, brk: Option<nat>, cnt: Option<nat>)
    decreases s, 1
  {
    match s
    case Block(items) => ItemsShape(items, brk, cnt)
    case If(_, a, b) => Shape(a, brk, cnt) && (b.Some? ==> Shape(b.value, brk, cnt))
    case For(id, i, _, _, b) => Shape(i, None, None) && Shape(b, Some(id), Some(id))
    case While(id, _, b) => Shape(b, Some(id), Some(id))
    case DoWhile(id, _, b) => Shape(b, Some(id), Some(id))
    case Switch(id, _, b, cases, dflt) =>
      Shape(b, Some(id), cnt) && cases == CaseList(b) && dflt == DefaultOf(b) && DistinctCases(cases)
    case Case(_, _, _, b) => Shape(b, brk, cnt)
    case Default(_, b) => Shape(b, brk, cnt)
    case Label(_, _, b) => Shape(b, brk, cnt)
    case Break(t) => brk == Some(t)
    case Continue(t) => cnt == Some(t)
    case _ => true
  }

  predicate ItemsShape(items: seq<Stmt>, brk: Option<nat>, cnt: Option<nat>)
    decreases items, 0
  {
    items == [] || (Shape(items[0], brk, cnt) && ItemsShape(items[1..], brk, cnt))
  }

  ghost predicate ExprFit(e: Expr, syms: seq<Sym>) {
    UsesOk(e) ==> Good(e, TypesOf(syms), |syms|)
  }

  ghost predicate OptFit(e: Option<Expr>, syms: seq<Sym>) {
    e.Some? ==> ExprFit(e.value, syms)
  }

  ghost predicate DeclFit(d: Decl, syms: seq<Sym>) {
    d.isObject && d.isAuto && d.init.Some? ==>
      && InitFine(d.init.value, d.sym.ty, syms) && IsArithmetic(d.sym.ty)
      && SymTyped(TypesOf(syms), d.sym) && Below(d.sym, |syms|)
  }

  /** All expressions are typed, up to the uses that analysis leaves unchecked. */
  ghost predicate Fit(s: Stmt, ret: Ty, syms: seq<Sym>)
    decreases s, 1
  {
    match s
    case ExprStmt(e) => ExprFit(e, syms)
    case DeclStmt(ds) => forall k :: 0 <= k < |ds| ==> DeclFit(ds[k], syms)
    case Block(items) => ItemsFit(items, ret, syms)
    case Return(e) => if e.None? then ret.Void? else ExprFit(e.value, syms) && TypeOf(e.value) == ret && IsArithmetic(ret)
    case If(c, a, b) => ExprFit(c, syms) && Fit(a, ret, syms) && (b.Some? ==> Fit(b.value, ret, syms))
    case For(_, i, t, p, b) => Fit(i, ret, syms) && OptFit(t, syms) && OptFit(p, syms) && Fit(b, ret, syms)
    case While(_, c, b) => ExprFit(c, syms) && Fit(b, ret, syms)
    case DoWhile(_, c, b) => ExprFit(c, syms) && Fit(b, ret, syms)
    case Switch(_, c, b, cases, _) => ExprFit(c, syms) && IsArithmetic(TypeOf(c)) && CasesFit(cases, TypeOf(c)) && Fit(b, ret, syms)
    case Case(_, _, _, b) => Fit(b, ret, syms)
    case Default(_, b) => Fit(b, ret, syms)
    case Label(_, _, b) => Fit(b, ret, syms)
    case _ => true
  }

  ghost predicate ItemsFit(items: seq<Stmt>, ret: Ty, syms: seq<Sym>)
    decreases items, 0
  {
    items == [] || (Fit(items[0], ret, syms) && ItemsFit(items[1..], ret, syms))
  }

  /** The uses that analysis leaves unchecked: conditions are arithmetic. */
  predicate CondUses(e: Expr) {
    UsesOk(e) && IsArithmetic(TypeOf(e))
  }

  predicate DeclUses(d: Decl) {
    d.isObject && d.isAuto && d.init.Some? ==> UsesOk(d.init.value)
  }

  predicate StmtUses(s: Stmt)
    decreases s, 1
  {
    match s
    case ExprStmt(e) => UsesOk(e)
    case DeclStmt(ds) => forall k :: 0 <= k < |ds| ==> DeclUses(ds[k])
    case Block(items) => ItemsUses(items)
    case Return(e) => e.Some? ==> UsesOk(e.value)
    case If(c, a, b) => CondUses(c) && StmtUses(a) && (b.Some? ==> StmtUses(b.value))
    case For(_, i, t, p, b) => StmtUses(i) && (t.Some? ==> CondUses(t.value)) && (p.Some? ==> UsesOk(p.value)) && StmtUses(b)
    case While(_, c, b) => CondUses(c) && StmtUses(b)
    case DoWhile(_, c, b) => CondUses(c) && StmtUses(b)
    case Switch(_, c, b, _, _) => UsesOk(c) && StmtUses(b)
    case Case(_, _, _, b) => StmtUses(b)
    case Default(_, b) => StmtUses(b)
    case Label(_, _, b) => StmtUses(b)
    case _ => true
  }

  predicate ItemsUses(items: seq<Stmt>)
    decreases items, 0
  {
    items == [] || (StmtUses(items[0]) && ItemsUses(items[1..]))
  }

  /** Labels in source order with the statements that carry them. */
  function LabelsIn(s: Stmt): seq<(string, nat)>
    decreases s, 1
  {
    match s
    case Block(items) => LabelsInItems(items)
    case If(_, a, b) => LabelsIn(a) + if b.Some? then LabelsIn(b.value) else []
    case For(_, _, _, _, b) => LabelsIn(b)
    case While(_, _, b) => LabelsIn(b)
    case DoWhile(_, _, b) => LabelsIn(b)
    case Switch(_, _, b, _, _) => LabelsIn(b)
    case Case(_, _, _, b) => LabelsIn(b)
    case Default(_, b) => LabelsIn(b)
    case Label(id, n, b) => [(n, id)] + LabelsIn(b)
    case _ => []
  }

  function LabelsInItems(items: seq<Stmt>): seq<(string, nat)>
    decreases items, 0
  {
    if items == [] then [] else LabelsIn(items[0]) + LabelsInItems(items[1..])
  }

  function GotosIn(s: Stmt): seq<string>
    decreases s, 1
  {
    match s
    case Block(items) => GotosInItems(items)
    case If(_, a, b) => GotosIn(a) + if b.Some? then GotosIn(b.value) else []
    case For(_, i, _, _, b) => GotosIn(i) + GotosIn(b)
    case While(_, _, b) => GotosIn(b)
    case DoWhile(_, _, b) => GotosIn(b)
    case Switch(_, _, b, _, _) => GotosIn(b)
    case Case(_, _, _, b) => GotosIn(b)
    case Default(_, b) => GotosIn(b)
    case Label(_, _, b) => GotosIn(b)
    case Goto(n, _) => [n]
    case _ => []
  }

  function GotosInItems(items: seq<Stmt>): seq<string>
    decreases items, 0
  {
    if items == [] then [] else GotosIn(items[0]) + GotosInItems(items[1..])
  }

  type LabelMap = map<string, nat>

  function AddLabels(m: LabelMap, ls: seq<(string, nat)>): LabelMap
    decreases |ls|
  {
    if ls == [] then m else AddLabels(m[ls[0].0 := ls[0].1], ls[1..])
  }

  /** No label is defined twice. */
  predicate FreshLabels(m: LabelMap, ls: seq<(string, nat)>)
    decreases |ls|
  {
    ls == [] || (ls[0].0 !in m && FreshLabels(m[ls[0].0 := ls[0].1], ls[1..]))
  }

  lemma {:induction false} LabelsJoin(m: LabelMap, a: seq<(string, nat)>, b: seq<(string, nat)>)
    ensures AddLabels(m, a + b) == AddLabels(AddLabels(m, a), b)
    ensures FreshLabels(m, a + b) <==> FreshLabels(m, a) && FreshLabels(AddLabels(m, a), b)
    decreases |a|
  {
    if a == [] {
      assert a + b == b;
    } else {
      assert (a + b)[1..] == a[1..] + b;
      LabelsJoin(m[a[0].0 := a[0].1], a[1..], b);
    }
  }

  /** What analysis of a function body carries along. */
  datatype FnCtx = FnCtx(ret: Ty, breakable: Option<nat>, loop: Option<nat>, sw: Option<Ty>, cases: seq<CaseRef>, dflt: Option<nat>,
                     labels: LabelMap, gotos: seq<string>)

  function Or(a: Option<nat>, b: Option<nat>): Option<nat> {
    if a.Some? then a else b
  }

  /** Analysing a statement with these cases, default, labels and gotos takes 'c' to 'c2'. */
  ghost predicate Moves(c: FnCtx, c2: FnCtx, cs: seq<CaseRef>, d: Option<nat>, ls: seq<(string, nat)>, gs: seq<string>) {
    && c2.ret == c.ret && c2.breakable == c.breakable && c2.loop == c.loop && c2.sw == c.sw
    && c2.cases == c.cases + cs && c2.dflt == Or(c.dflt, d) && (c.dflt.Some? ==> d.None?)
    && (c.sw.None? ==> cs == [] && d.None?)
    && FreshLabels(c.labels, ls) && c2.labels == AddLabels(c.labels, ls) && c2.gotos == c.gotos + gs
    && (c.sw.Some? && CasesFit(c.cases, c.sw.value) ==> CasesFit(c2.cases, c.sw.value))
    && (DistinctCases(c.cases) ==> DistinctCases(c2.cases))
  }

  lemma MovesTrans(a: FnCtx, b: FnCtx, c: FnCtx, cs: seq<CaseRef>, d: Option<nat>, ls: seq<(string, nat)>, gs: seq<string>,
                   cs2: seq<CaseRef>, d2: Option<nat>, ls2: seq<(string, nat)>, gs2: seq<string>)
    requires Moves(a, b, cs, d, ls, gs) && Moves(b, c, cs2, d2, ls2, gs2)
    ensures Moves(a, c, cs + cs2, Or(d, d2), ls + ls2, gs + gs2)
    ensures d.Some? ==> d2.None?
  {
    LabelsJoin(a.labels, ls, ls2);
    assert a.cases + cs + cs2 == a.cases + (cs + cs2) && a.gotos + gs + gs2 == a.gotos + (gs + gs2);
  }

  lemma MovesNone(c: FnCtx)
    ensures Moves(c, c, [], None, [], [])
  {
    assert c.cases + [] == c.cases && c.gotos + [] == c.gotos;
  }

  /** The outcome of analysing 'r' without error. */
  ghost predicate Analyzed(r: RStmt, s: Stmt, c: FnCtx, c2: FnCtx, syms: seq<Sym>) {
    && Shape(s, c.breakable, c.loop) && Fit(s, c.ret, syms) && (forall id :: IdCount(s, id) == RawIds(r, id))
    && Moves(c, c2, CaseList(s), DefaultOf(s), LabelsIn(s), GotosIn(s))
  }

  ghost predicate ItemsAnalyzed(rs: seq<RStmt>, ss: seq<Stmt>, c: FnCtx, c2: FnCtx, syms: seq<Sym>) {
    && ItemsShape(ss, c.breakable, c.loop) && ItemsFit(ss, c.ret, syms) && (forall id :: IdCountItems(ss, id) == RawItemIds(rs, id))
    && Moves(c, c2, CaseListItems(ss), DefaultOfItems(ss), LabelsInItems(ss), GotosInItems(ss))
  }

  lemma ExprStays(e: Expr, a: seq<Sym>, b: seq<Sym>)
    requires ExprFit(e, a) && Evolves(a, b)
    ensures ExprFit(e, b)
  {
    hide Good, TypesOf, Evolves;
    if UsesOk(e) { GoodStays(e, a, b); }
  }

  lemma DeclStays(d: Decl, a: seq<Sym>, b: seq<Sym>)
    requires DeclFit(d, a) && Evolves(a, b)
    ensures DeclFit(d, b)
  {
    hide Good, TypesOf;
    if d.isObject && d.isAuto && d.init.Some? {
      InitStays(d.init.value, d.sym.ty, a, b);
      EvolvesGrow(a, b);
      ExtSym(TypesOf(a), TypesOf(b), d.sym);
    }
  }

  /** Later declarations keep what was typed before. */
  lemma {:induction false} FitStays(s: Stmt, ret: Ty, a: seq<Sym>, b: seq<Sym>)
    requires Fit(s, ret, a) && Evolves(a, b)
    ensures Fit(s, ret, b)
    decreases s, 1
  {
    hide ExprFit, DeclFit, Evolves;
    match s
    case ExprStmt(e) => ExprStays(e, a, b);
    case DeclStmt(ds) => forall k | 0 <= k < |ds| ensures DeclFit(ds[k], b) { DeclStays(ds[k], a, b); }
    case Block(items) => ItemsStay(items, ret, a, b);
    case Return(e) => if e.Some? { ExprStays(e.value, a, b); }
    case If(c, x, y) =>
      ExprStays(c, a, b);
      FitStays(x, ret, a, b);
      if y.Some? { FitStays(y.value, ret, a, b); }
    case For(_, i, t, p, x) =>
      FitStays(i, ret, a, b);
      if t.Some? { ExprStays(t.value, a, b); }
      if p.Some? { ExprStays(p.value, a, b); }
      FitStays(x, ret, a, b);
    case While(_, c, x) => ExprStays(c, a, b); FitStays(x, ret, a, b);
    case DoWhile(_, c, x) => ExprStays(c, a, b); FitStays(x, ret, a, b);
    case Switch(_, c, x, _, _) => ExprStays(c, a, b); FitStays(x, ret, a, b);
    case Case(_, _, _, x) => FitStays(x, ret, a, b);
    case Default(_, x) => FitStays(x, ret, a, b);
    case Label(_, _, x) => FitStays(x, ret, a, b);
    case _ =>
  }

  lemma {:induction false} ItemsStay(items: seq<Stmt>, ret: Ty, a: seq<Sym>, b: seq<Sym>)
    requires ItemsFit(items, ret, a) && Evolves(a, b)
    ensures ItemsFit(items, ret, b)
    decreases items, 0
  {
    if items != [] {
      FitStays(items[0], ret, a, b);
      ItemsStay(items[1..], ret, a, b);
    }
  }

  /** One more item. */
  lemma ItemsCons(r: RStmt, rs: seq<RStmt>, s: Stmt, ss: seq<Stmt>, a: FnCtx, b: FnCtx, c: FnCtx, mid: seq<Sym>, syms: seq<Sym>)
    requires Analyzed(r, s, a, b, mid) && ItemsAnalyzed(rs, ss, b, c, syms) && Evolves(mid, syms)
    ensures ItemsAnalyzed([r] + rs, [s] + ss, a, c, syms)
  {
    hide Moves, Shape, Fit, Evolves;
    var items := [s] + ss;
    assert items[1..] == ss && ([r] + rs)[1..] == rs;
    assert b.breakable == a.breakable && b.loop == a.loop && b.ret == a.ret by { MovesSame(a, b, CaseList(s), DefaultOf(s), LabelsIn(s), GotosIn(s)); }
    FitStays(s, a.ret, mid, syms);
    MovesTrans(a, b, c, CaseList(s), DefaultOf(s), LabelsIn(s), GotosIn(s),
               CaseListItems(ss), DefaultOfItems(ss), LabelsInItems(ss), GotosInItems(ss));
    var raws := [r] + rs;
    forall id ensures IdCountItems(items, id) == RawItemIds(raws, id) {
      assert IdCountItems(items, id) == IdCount(s, id) + IdCountItems(ss, id);
      assert RawItemIds(raws, id) == RawIds(r, id) + RawItemIds(rs, id);
    }
    assert CaseListItems(items) == CaseList(s) + CaseListItems(ss) && DefaultOfItems(items) == Or(DefaultOf(s), DefaultOfItems(ss));
    assert LabelsInItems(items) == LabelsIn(s) + LabelsInItems(ss) && GotosInItems(items) == GotosIn(s) + GotosInItems(ss);
  }

  lemma MovesSame(c: FnCtx, c2: FnCtx, cs: seq<CaseRef>, d: Option<nat>, ls: seq<(string, nat)>, gs: seq<string>)
    requires Moves(c, c2, cs, d, ls, gs)
    ensures c2.breakable == c.breakable && c2.loop == c.loop && c2.ret == c.ret && c2.sw == c.sw
  {
  }

  lemma IfAnalyzed(r: RStmt, s: Stmt, c: FnCtx, c1: FnCtx, c2: FnCtx, s0: seq<Sym>, s1: seq<Sym>, s2: seq<Sym>)
    requires r.SIf? && s.If? && (r.els.Some? <==> s.els.Some?) && ExprFit(s.cond, s0)
    requires Analyzed(r.thn, s.thn, c, c1, s1) && Evolves(s0, s1) && Evolves(s1, s2)
    requires if r.els.Some? then Analyzed(r.els.value, s.els.value, c1, c2, s2) else c2 == c1 && s2 == s1
    ensures Analyzed(r, s, c, c2, s2)
  {
    hide Moves, ExprFit, Evolves;
    EvolvesTrans(s0, s1, s2);
    ExprStays(s.cond, s0, s2);
    FitStays(s.thn, c.ret, s1, s2);
    var a := s.thn;
    MovesSame(c, c1, CaseList(a), DefaultOf(a), LabelsIn(a), GotosIn(a));
    if s.els.Some? {
      var b := s.els.value;
      MovesTrans(c, c1, c2, CaseList(a), DefaultOf(a), LabelsIn(a), GotosIn(a), CaseList(b), DefaultOf(b), LabelsIn(b), GotosIn(b));
      assert CaseList(s) == CaseList(a) + CaseList(b) && DefaultOf(s) == Or(DefaultOf(a), DefaultOf(b));
    } else {
      assert LabelsIn(s) == LabelsIn(a) && GotosIn(s) == GotosIn(a);
      assert CaseList(s) == CaseList(a) && DefaultOf(s) == DefaultOf(a);
    }
    forall id ensures IdCount(s, id) == RawIds(r, id) {
      assert IdCount(a, id) == RawIds(r.thn, id);
      assert s.els.Some? ==> IdCount(s.els.value, id) == RawIds(r.els.value, id);
    }
    assert Shape(s, c.breakable, c.loop);
    assert Fit(s, c.ret, s2);
  }

  /** A statement without cases, labels or gotos leaves the context alone. */
  lemma Unmoved(r: RStmt, s: Stmt, c: FnCtx, c2: FnCtx, syms: seq<Sym>)
    requires Analyzed(r, s, c, c2, syms) && (s.Null? || s.ExprStmt? || s.DeclStmt?)
    ensures c2 == c && Shape(s, None, None) && forall id :: IdCount(s, id) == 0
  {
  }

  /** The body of a loop, with the loop as target of 'break' and 'continue'. */
  lemma LoopAnalyzed(body: RStmt, b: Stmt, id: nat, c: FnCtx, c2: FnCtx, syms: seq<Sym>)
    requires Analyzed(body, b, c.(breakable := Some(id), loop := Some(id)), c2, syms)
    ensures Shape(b, Some(id), Some(id)) && Fit(b, c.ret, syms) && forall i :: IdCount(b, i) == RawIds(body, i)
    ensures Moves(c, c2.(breakable := c.breakable, loop := c.loop), CaseList(b), DefaultOf(b), LabelsIn(b), GotosIn(b))
  {
    hide Shape, Fit;
  }

  lemma SwitchAnalyzed(r: RStmt, s: Stmt, c: FnCtx, c2: FnCtx, s0: seq<Sym>, syms: seq<Sym>)
    requires r.SSwitch? && s.Switch? && s.id == r.id && ExprFit(s.cond, s0) && IsArithmetic(TypeOf(s.cond)) && Evolves(s0, syms)
    requires Analyzed(r.body, s.body, c.(breakable := Some(r.id), sw := Some(TypeOf(s.cond)), cases := [], dflt := None), c2, syms)
    requires s.cases == c2.cases && s.dflt == c2.dflt
    ensures Analyzed(r, s, c, c2.(breakable := c.breakable, sw := c.sw, cases := c.cases, dflt := c.dflt), syms)
  {
    hide ExprFit, Evolves;
    ExprStays(s.cond, s0, syms);
    var b := s.body;
    assert [] + CaseList(b) == CaseList(b) && c.cases + [] == c.cases;
    assert Shape(s, c.breakable, c.loop) && Fit(s, c.ret, syms);
    assert CaseList(s) == [] && DefaultOf(s) == None && LabelsIn(s) == LabelsIn(b) && GotosIn(s) == GotosIn(b);
    forall id ensures IdCount(s, id) == RawIds(r, id) { assert IdCount(b, id) == RawIds(r.body, id); }
  }

  lemma CaseAnalyzed(r: RStmt, s: Stmt, c: FnCtx, c2: FnCtx, syms: seq<Sym>)
    requires r.SCase? && s.Case? && s.id == r.id && c.sw.Some? && Fits(s.value, c.sw.value)
    requires forall k :: 0 <= k < |c.cases| ==> c.cases[k].value != s.value
    requires Analyzed(r.stmt, s.stmt, c.(cases := c.cases + [CaseRef(s.value, s.id)]), c2, syms)
    ensures Analyzed(r, s, c, c2, syms)
  {
    var b, c1 := s.stmt, c.(cases := c.cases + [CaseRef(s.value, s.id)]);
    assert Moves(c, c1, [CaseRef(s.value, s.id)], None, [], []) by { assert c.gotos + [] == c.gotos; }
    MovesTrans(c, c1, c2, [CaseRef(s.value, s.id)], None, [], [], CaseList(b), DefaultOf(b), LabelsIn(b), GotosIn(b));
    assert [] + LabelsIn(b) == LabelsIn(b) && [] + GotosIn(b) == GotosIn(b);
    assert CaseList(s) == [CaseRef(s.value, s.id)] + CaseList(b) && DefaultOf(s) == DefaultOf(b);
    assert LabelsIn(s) == LabelsIn(b) && GotosIn(s) == GotosIn(b);
    assert Shape(s, c.breakable, c.loop) && Fit(s, c.ret, syms);
    forall id ensures IdCount(s, id) == RawIds(r, id) { assert IdCount(b, id) == RawIds(r.stmt, id); }
  }

  lemma DefaultAnalyzed(r: RStmt, s: Stmt, c: FnCtx, c2: FnCtx, syms: seq<Sym>)
    requires r.SDefault? && s.Default? && s.id == r.id && c.sw.Some? && c.dflt.None?
    requires Analyzed(r.stmt, s.stmt, c.(dflt := Some(s.id)), c2, syms)
    ensures Analyzed(r, s, c, c2, syms)
  {
    var b, c1 := s.stmt, c.(dflt := Some(s.id));
    assert Moves(c, c1, [], Some(s.id), [], []) by { assert c.gotos + [] == c.gotos && c.cases + [] == c.cases; }
    MovesTrans(c, c1, c2, [], Some(s.id), [], [], CaseList(b), DefaultOf(b), LabelsIn(b), GotosIn(b));
    assert [] + LabelsIn(b) == LabelsIn(b) && [] + GotosIn(b) == GotosIn(b) && [] + CaseList(b) == CaseList(b);
    assert CaseList(s) == CaseList(b) && DefaultOf(s) == Some(s.id) && LabelsIn(s) == LabelsIn(b) && GotosIn(s) == GotosIn(b);
    assert Shape(s, c.breakable, c.loop) && Fit(s, c.ret, syms);
    forall id ensures IdCount(s, id) == RawIds(r, id) { assert IdCount(b, id) == RawIds(r.stmt, id); }
  }

  lemma LabelAnalyzed(r: RStmt, s: Stmt, c: FnCtx, c2: FnCtx, syms: seq<Sym>)
    requires r.SLabel? && s.Label? && s.id == r.id && s.name == r.name && s.name !in c.labels
    requires Analyzed(r.stmt, s.stmt, c.(labels := c.labels[s.name := s.id]), c2, syms)
    ensures Analyzed(r, s, c, c2, syms)
  {
    var b, c1 := s.stmt, c.(labels := c.labels[s.name := s.id]);
    var l := [(s.name, s.id)];
    assert Moves(c, c1, [], None, l, []) by {
      assert c.gotos + [] == c.gotos && c.cases + [] == c.cases && l[1..] == [];
      assert AddLabels(c.labels, l) == AddLabels(c1.labels, []);
    }
    MovesTrans(c, c1, c2, [], None, l, [], CaseList(b), DefaultOf(b), LabelsIn(b), GotosIn(b));
    assert [] + GotosIn(b) == GotosIn(b) && [] + CaseList(b) == CaseList(b);
    assert CaseList(s) == CaseList(b) && DefaultOf(s) == DefaultOf(b) && LabelsIn(s) == l + LabelsIn(b) && GotosIn(s) == GotosIn(b);
    assert Shape(s, c.breakable, c.loop) && Fit(s, c.ret, syms);
    forall id ensures IdCount(s, id) == RawIds(r, id) { assert IdCount(b, id) == RawIds(r.stmt, id); }
  }

  function ExprIn(s: State, r: Raw): Option<Expr> {
    var t := Analyze(r, ScopeOf(s.scopes, s.symbols));
    if t.None? then None else Some(t.value.e)
  }

  function OptionIn(s: State, r: Option<Raw>): Option<Option<Expr>> {
    if r.None? then Some(None) else
    var e := ExprIn(s, r.value);
    if e.None? then None else Some(Some(e.value))
  }

  function Converted(e: Expr, ty: Ty): Expr {
    ConvertTo(Typed(e, TypeOf(e), false), ty)
  }

  function Pushed(s: State): State {
    s.(scopes := s.scopes + [map[]])
  }

  function Popped(s: State): State
    requires s.scopes != []
  {
    s.(scopes := s.scopes[..|s.scopes| - 1])
  }

  predicate ForDeclsValid(ds: seq<Declaration>) {
    forall k :: 0 <= k < |ds| ==> !ds[k].isFunction && !ds[k].sc.ScStatic? && !ds[k].sc.ScExtern?
  }

  /** A declarator as the rest of the compiler sees it. */
  function DeclOf(d: Declaration, sym: nat, y: Sym, init: Option<Expr>): Decl {
    Decl(!d.isFunction, y.duration.Automatic?, Symbol(sym, y.ty, y.duration.Static?), init)
  }

  function DeclsIn(s: State, ds: seq<Declaration>): (r: Option<(State, seq<Decl>)>)
    requires s.scopes != []
    ensures r.Some? ==> |r.value.0.scopes| == |s.scopes| && |s.symbols| <= |r.value.0.symbols|
    decreases |ds|
  {
    if ds == [] then Some((s, []))
    else
      var d := Declared(s, ds[0]);
      if d.None? then None
      else
        var rest := DeclsIn(d.value.0, ds[1..]);
        if rest.None? then None
        else Some((rest.value.0, [DeclOf(ds[0], d.value.1, d.value.0.symbols[d.value.1], d.value.2)] + rest.value.1))
  }

  function DeclsFrom(done: seq<Decl>, s: State, ds: seq<Declaration>): Option<(State, seq<Decl>)>
    requires s.scopes != []
  {
    var r := DeclsIn(s, ds);
    if r.None? then None else Some((r.value.0, done + r.value.1))
  }

  lemma NoDeclsYet(s: State, ds: seq<Declaration>)
    requires s.scopes != []
    ensures DeclsFrom([], s, ds) == DeclsIn(s, ds)
  {
    hide DeclsIn;
    var r := DeclsIn(s, ds);
    if r.Some? { assert [] + r.value.1 == r.value.1; }
  }

  lemma DeclsDone(done: seq<Decl>, s: State)
    requires s.scopes != []
    ensures DeclsFrom(done, s, []) == Some((s, done))
  {
    assert done + [] == done;
  }

  lemma DeclsNext(done: seq<Decl>, s: State, ds: seq<Declaration>)
    requires s.scopes != [] && ds != []
    ensures var d := Declared(s, ds[0]);
            if d.None? then DeclsFrom(done, s, ds).None?
            else DeclsFrom(done + [DeclOf(ds[0], d.value.1, d.value.0.symbols[d.value.1], d.value.2)], d.value.0, ds[1..]) == DeclsFrom(done, s, ds)
  {
    hide Declared;
    var d := Declared(s, ds[0]);
    if d.Some? {
      var x := DeclOf(ds[0], d.value.1, d.value.0.symbols[d.value.1], d.value.2);
      var r := DeclsIn(d.value.0, ds[1..]);
      if r.Some? { assert done + ([x] + r.value.1) == done + [x] + r.value.1; }
    }
  }

  predicate HasCaseValue(cases: seq<CaseRef>, v: int) {
    exists k :: 0 <= k < |cases| && cases[k].value == v
  }

  /** What 'case' finds: its expression in the type of the switch, and its value; None is an error. */
  function CaseIn(s: State, c: FnCtx, r: Raw): Option<(Expr, int)> {
    var e := ExprIn(s, r);
    if e.None? || c.sw.None? || !IsArithmetic(TypeOf(e.value)) then None
    else
      var x := Converted(e.value, c.sw.value);
      if Fold(x).None? || HasCaseValue(c.cases, Fold(x).value) then None else Some((x, Fold(x).value))
  }

  function ReturnIn(s: State, ret: Ty, r: Option<Raw>): Option<Stmt> {
    if r.None? then if ret.Void? then Some(Return(None)) else None
    else
      var e := ExprIn(s, r.value);
      if e.None? || ret.Void? || !IsArithmetic(TypeOf(e.value)) || !IsArithmetic(ret) then None
      else Some(Return(Some(Converted(e.value, ret))))
  }

  /** The analysed statement, with the table and the context after it. */
  type Outcome = Option<(State, FnCtx, Stmt)>

  /** Analysing a statement; None is an error. */
  function AnalyzeS(s: State, c: FnCtx, r: RStmt): (o: Outcome)
    requires s.scopes != []
    ensures o.Some? ==> |o.value.0.scopes| == |s.scopes| && |s.symbols| <= |o.value.0.symbols|
    decreases r, 1
  {
    match r
    case SNull => Some((s, c, Null))
    case SExpr(e) => var x := ExprIn(s, e); if x.None? then None else Some((s, c, ExprStmt(x.value)))
    case SDecl(ds) => var d := DeclsIn(s, ds); if d.None? then None else Some((d.value.0, c, DeclStmt(d.value.1)))
    case SBlock(items) =>
      var b := AnalyzeAll(Pushed(s), c, items);
      if b.None? then None else Some((Popped(b.value.0), b.value.1, Block(b.value.2)))
    case SReturn(e) => var x := ReturnIn(s, c.ret, e); if x.None? then None else Some((s, c, x.value))
    case SIf(e, a, b) =>
      var x := ExprIn(s, e);
      if x.None? then None else
      var y := AnalyzeS(s, c, a);
      if y.None? then None
      else if b.None? then Some((y.value.0, y.value.1, If(x.value, y.value.2, None)))
      else
        var z := AnalyzeS(y.value.0, y.value.1, b.value);
        if z.None? then None else Some((z.value.0, z.value.1, If(x.value, y.value.2, Some(z.value.2))))
    case SFor(_, _, _, _, _) => ForIn(s, c, r)
    case SWhile(id, e, b) =>
      var y := LoopIn(s, c, id, e, b);
      if y.None? then None else Some((y.value.0, y.value.1, While(id, y.value.2, y.value.3)))
    case SDoWhile(id, e, b) =>
      var y := LoopIn(s, c, id, e, b);
      if y.None? then None else Some((y.value.0, y.value.1, DoWhile(id, y.value.2, y.value.3)))
    case SSwitch(id, e, b) =>
      var x := ExprIn(s, e);
      if x.None? || !IsArithmetic(TypeOf(x.value)) then None else
      var y := AnalyzeS(s, c.(breakable := Some(id), sw := Some(TypeOf(x.value)), cases := [], dflt := None), b);
      if y.None? then None
      else Some((y.value.0, y.value.1.(breakable := c.breakable, sw := c.sw, cases := c.cases, dflt := c.dflt),
                 Switch(id, x.value, y.value.2, y.value.1.cases, y.value.1.dflt)))
    case SCase(id, e, b) =>
      var x := CaseIn(s, c, e);
      if x.None? then None else
      var y := AnalyzeS(s, c.(cases := c.cases + [CaseRef(x.value.1, id)]), b);
      if y.None? then None else Some((y.value.0, y.value.1, Case(id, x.value.0, x.value.1, y.value.2)))
    case SDefault(id, b) =>
      if c.sw.None? || c.dflt.Some? then None else
      var y := AnalyzeS(s, c.(dflt := Some(id)), b);
      if y.None? then None else Some((y.value.0, y.value.1, Default(id, y.value.2)))
    case SLabel(id, name, b) =>
      if name in c.labels then None else
      var y := AnalyzeS(s, c.(labels := c.labels[name := id]), b);
      if y.None? then None else Some((y.value.0, y.value.1, Label(id, name, y.value.2)))
    case SBreak => if c.breakable.None? then None else Some((s, c, Break(c.breakable.value)))
    case SContinue => if c.loop.None? then None else Some((s, c, Continue(c.loop.value)))
    case SGoto(name) => Some((s, c.(gotos := c.gotos + [name]), Goto(name, 0)))
  }

  function ForIn(s: State, c: FnCtx, r: RStmt): (o: Outcome)
    requires s.scopes != [] && r.SFor?
    ensures o.Some? ==> |o.value.0.scopes| == |s.scopes| && |s.symbols| <= |o.value.0.symbols|
    decreases r, 0
  {
    if r.init.SDecl? && !ForDeclsValid(r.init.decls) then None else
    var x := AnalyzeS(Pushed(s), c, r.init);
    if x.None? then None else
    var u, v := OptionIn(x.value.0, r.test), OptionIn(x.value.0, r.post);
    if u.None? || v.None? then None else
    var y := AnalyzeS(x.value.0, x.value.1.(breakable := Some(r.id), loop := Some(r.id)), r.body);
    if y.None? then None
    else Some((Popped(y.value.0), y.value.1.(breakable := x.value.1.breakable, loop := x.value.1.loop),
               For(r.id, x.value.2, u.value, v.value, y.value.2)))
  }

  /** The condition and body of 'while' and 'do'. */
  function LoopIn(s: State, c: FnCtx, id: nat, e: Raw, b: RStmt): (o: Option<(State, FnCtx, Expr, Stmt)>)
    requires s.scopes != []
    ensures o.Some? ==> |o.value.0.scopes| == |s.scopes| && |s.symbols| <= |o.value.0.symbols|
    decreases b, 2
  {
    var x := ExprIn(Pushed(s), e);
    if x.None? then None else
    var y := AnalyzeS(Pushed(s), c.(breakable := Some(id), loop := Some(id)), b);
    if y.None? then None
    else Some((Popped(y.value.0), y.value.1.(breakable := c.breakable, loop := c.loop), x.value, y.value.2))
  }

  function AnalyzeAll(s: State, c: FnCtx, items: seq<RStmt>): (o: Option<(State, FnCtx, seq<Stmt>)>)
    requires s.scopes != []
    ensures o.Some? ==> |o.value.0.scopes| == |s.scopes| && |s.symbols| <= |o.value.0.symbols|
    decreases items, 0
  {
    if items == [] then Some((s, c, []))
    else
      var x := AnalyzeS(s, c, items[0]);
      if x.None? then None else
      var y := AnalyzeAll(x.value.0, x.value.1, items[1..]);
      if y.None? then None else Some((y.value.0, y.value.1, [x.value.2] + y.value.2))
  }

  class Analyzer {
    const table: Table
    var ctx: FnCtx

    constructor (table: Table, ret: Ty)
      ensures this.table == table && ctx == FnCtx(ret, None, None, None, [], None, map[], [])
    {
      this.table := table;
      ctx := FnCtx(ret, None, None, None, [], None, map[], []);
    }

    ghost predicate Valid()
      reads this, table
    {
      table.Valid() && |table.scopes| > 1
    }

    method AnalyzeExpr(r: Raw) returns (e: Expr)
      requires table.Valid() && Parsed(r)
      modifies table`errors
      ensures table.Valid() && table.errors >= old(table.errors)
      ensures table.errors == 0 ==> ExprFit(e, table.symbols) && Foldable(e)
      ensures old(table.errors) == 0 ==> (table.errors == 0 <==> ExprIn(table.Current(), r).Some?)
      ensures table.errors == 0 ==> ExprIn(table.Current(), r) == Some(e)
    {
      hide TableOk, InitsOk, TypesFine, ExprFit, Foldable, Analyze;
      var t := Analyze(r, ScopeOf(table.scopes, table.symbols));
      if t.None? {
        table.Error();
        return IntConst(0);
      }
      e := t.value.e;
      if table.errors == 0 { ExprAnalyzed(r, table.scopes, table.linked, table.symbols); }
    }

    /** One statement; without error, what comes out has all the properties the translation needs. */
    method AnalyzeStmt(r: RStmt) returns (s: Stmt)
      requires Valid() && StmtParsed(r)
      modifies this, table
      ensures Valid() && Evolves(old(table.symbols), table.symbols) && table.errors >= old(table.errors)
      ensures |table.scopes| == |old(table.scopes)|
      ensures table.errors == 0 ==> Analyzed(r, s, old(ctx), ctx, table.symbols)
      ensures old(table.errors) == 0 ==>
                (table.errors == 0 <==> AnalyzeS(old(table.Current()), old(ctx), r).Some?)
      ensures table.errors == 0 ==> AnalyzeS(old(table.Current()), old(ctx), r) == Some((table.Current(), ctx, s))
      ensures table.errors == 0 && (r.SNull? || r.SExpr? || r.SDecl?) ==> s.Null? || s.ExprStmt? || s.DeclStmt?
      decreases r, 3
    {
      hide TableOk, InitsOk, TypesFine, Analyzed, Evolves;
      match r
      case SNull => s := Null; EvolvesSame(table.symbols); NullAnalyzed(ctx, table.symbols);
      case SExpr(_) => s := AnalyzeExprStmt(r);
      case SDecl(_) => s := AnalyzeDeclarationList(r);
      case SBlock(_) => s := AnalyzeBlock(r);
      case SReturn(_) => s := AnalyzeReturn(r);
      case SIf(_, _, _) => s := AnalyzeIf(r);
      case SFor(_, _, _, _, _) => s := AnalyzeFor(r);
      case SWhile(_, _, _) => s := AnalyzeWhile(r);
      case SDoWhile(_, _, _) => s := AnalyzeWhile(r);
      case SSwitch(_, _, _) => s := AnalyzeSwitch(r);
      case SCase(_, _, _) => s := AnalyzeCase(r);
      case SDefault(_, _) => s := AnalyzeLabelled(r);
      case SLabel(_, _, _) => s := AnalyzeLabelled(r);
      case SBreak => s := AnalyzeJump(r);
      case SContinue => s := AnalyzeJump(r);
      case SGoto(_) => s := AnalyzeJump(r);
    }

    method AnalyzeExprStmt(r: RStmt) returns (s: Stmt)
      requires Valid() && StmtParsed(r) && r.SExpr?
      modifies this, table
      ensures Valid() && Evolves(old(table.symbols), table.symbols) && table.errors >= old(table.errors)
      ensures |table.scopes| == |old(table.scopes)|
      ensures table.errors == 0 ==> Analyzed(r, s, old(ctx), ctx, table.symbols) && s.ExprStmt?
      ensures old(table.errors) == 0 ==>
                (table.errors == 0 <==> AnalyzeS(old(table.Current()), old(ctx), r).Some?)
      ensures table.errors == 0 ==> AnalyzeS(old(table.Current()), old(ctx), r) == Some((table.Current(), ctx, s))
    {
      hide TableOk, InitsOk, TypesFine, ExprFit, Foldable;
      EvolvesSame(table.symbols);
      var e := AnalyzeExpr(r.e);
      s := ExprStmt(e);
      MovesNone(ctx);
    }

    method AnalyzeReturn(r: RStmt) returns (s: Stmt)
      requires Valid() && StmtParsed(r) && r.SReturn?
      modifies this, table
      ensures Valid() && Evolves(old(table.symbols), table.symbols) && table.errors >= old(table.errors)
      ensures |table.scopes| == |old(table.scopes)|
      ensures table.errors == 0 ==> Analyzed(r, s, old(ctx), ctx, table.symbols)
      ensures old(table.errors) == 0 ==>
                (table.errors == 0 <==> AnalyzeS(old(table.Current()), old(ctx), r).Some?)
      ensures table.errors == 0 ==> AnalyzeS(old(table.Current()), old(ctx), r) == Some((table.Current(), ctx, s))
    {
      hide TableOk, InitsOk, TypesFine, Foldable, Compatible;
      EvolvesSame(table.symbols);
      MovesNone(ctx);
      if r.result.None? {
        if !ctx.ret.Void? { table.Error(); }
        return Return(None);
      }
      var e := AnalyzeExpr(r.result.value);
      if ctx.ret.Void? || !IsArithmetic(TypeOf(e)) || !IsArithmetic(ctx.ret) {
        table.Error();
        return Return(Some(e));
      }
      var t := Typed(e, TypeOf(e), false);
      ConvertGood(t, ctx.ret, TypesOf(table.symbols), |table.symbols|);
      s := Return(Some(ConvertTo(t, ctx.ret)));
    }

    method AnalyzeIf(r: RStmt) returns (s: Stmt)
      requires Valid() && StmtParsed(r) && r.SIf?
      modifies this, table
      ensures Valid() && Evolves(old(table.symbols), table.symbols) && table.errors >= old(table.errors)
      ensures |table.scopes| == |old(table.scopes)|
      ensures table.errors == 0 ==> Analyzed(r, s, old(ctx), ctx, table.symbols)
      ensures old(table.errors) == 0 ==>
                (table.errors == 0 <==> AnalyzeS(old(table.Current()), old(ctx), r).Some?)
      ensures table.errors == 0 ==> AnalyzeS(old(table.Current()), old(ctx), r) == Some((table.Current(), ctx, s))
      decreases r, 0
    {
      hide TableOk, InitsOk, TypesFine, ExprFit, Analyzed, Foldable;
      var e := AnalyzeExpr(r.cond);
      ghost var s0, c0 := table.symbols, ctx;
      var a := AnalyzeStmt(r.thn);
      ghost var s1, c1 := table.symbols, ctx;
      var b := None;
      if r.els.Some? {
        var t := AnalyzeStmt(r.els.value);
        b := Some(t);
      }
      s := If(e, a, b);
      EvolvesSame(s1);
      EvolvesTrans(s0, s1, table.symbols);
      if table.errors == 0 { IfAnalyzed(r, s, c0, c1, ctx, s0, s1, table.symbols); }
    }

    method AnalyzeFor(r: RStmt) returns (s: Stmt)
      requires Valid() && StmtParsed(r) && r.SFor?
      modifies this, table
      ensures Valid() && Evolves(old(table.symbols), table.symbols) && table.errors >= old(table.errors)
      ensures |table.scopes| == |old(table.scopes)|
      ensures table.errors == 0 ==> Analyzed(r, s, old(ctx), ctx, table.symbols)
      ensures old(table.errors) == 0 ==>
                (table.errors == 0 <==> AnalyzeS(old(table.Current()), old(ctx), r).Some?)
      ensures table.errors == 0 ==> AnalyzeS(old(table.Current()), old(ctx), r) == Some((table.Current(), ctx, s))
      decreases r, 0
    {
      hide TableOk, InitsOk, TypesFine, ExprFit, Analyzed, Foldable, Evolves, ForDeclsValid, AnalyzeS;
      ForSpec(table.Current(), ctx, r);
      ghost var c0, s0 := ctx, table.symbols;
      table.PushScope();
      if r.init.SDecl? { ValidateForInit(r.init.decls); }
      var init := AnalyzeStmt(r.init);
      ghost var s1 := table.symbols;
      var test := AnalyzeOptional(r.test);
      var post := AnalyzeOptional(r.post);
      if table.errors == 0 { Unmoved(r.init, init, c0, ctx, s1); }
      ghost var c2;
      var body;
      body, c2 := AnalyzeLoopBody(r.id, r.body);
      table.PopScope();
      s := For(r.id, init, test, post, body);
      EvolvesTrans(s0, s1, table.symbols);
      if table.errors == 0 { ForAnalyzed(r, s, c0, c2, s1, table.symbols); }
    }

    /** The body of a loop, with the loop as target of 'break' and 'continue'. */
    method AnalyzeLoopBody(id: nat, r: RStmt) returns (s: Stmt, ghost c2: FnCtx)
      requires Valid() && StmtParsed(r)
      modifies this, table
      ensures Valid() && Evolves(old(table.symbols), table.symbols) && table.errors >= old(table.errors)
      ensures |table.scopes| == |old(table.scopes)| && ctx == c2.(breakable := old(ctx).breakable, loop := old(ctx).loop)
      ensures table.errors == 0 ==> Analyzed(r, s, old(ctx).(breakable := Some(id), loop := Some(id)), c2, table.symbols)
      ensures old(table.errors) == 0 ==>
                (table.errors == 0 <==> AnalyzeS(old(table.Current()), old(ctx).(breakable := Some(id), loop := Some(id)), r).Some?)
      ensures table.errors == 0 ==>
                AnalyzeS(old(table.Current()), old(ctx).(breakable := Some(id), loop := Some(id)), r) == Some((table.Current(), c2, s))
      decreases r, 4
    {
      hide TableOk, InitsOk, TypesFine, Analyzed, Evolves, AnalyzeS;
      var saved := ctx;
      ctx := ctx.(breakable := Some(id), loop := Some(id));
      s := AnalyzeStmt(r);
      c2 := ctx;
      ctx := ctx.(breakable := saved.breakable, loop := saved.loop);
    }

    method ValidateForInit(ds: seq<Declaration>)
      requires table.Valid()
      modifies table`errors
      ensures table.Valid() && table.errors >= old(table.errors)
      ensures table.errors == old(table.errors) <==> ForDeclsValid(ds)
    {
      hide TableOk, InitsOk, TypesFine;
      for k := 0 to |ds|
        invariant table.Valid() && table.errors >= old(table.errors)
        invariant table.errors == old(table.errors) <==> ForDeclsValid(ds[..k])
      {
        if ds[k].isFunction || ds[k].sc.ScStatic? || ds[k].sc.ScExtern? { table.Error(); }
      }
    }

    method AnalyzeOptional(r: Option<Raw>) returns (e: Option<Expr>)
      requires table.Valid() && OptParsed(r)
      modifies table`errors
      ensures table.Valid() && table.errors >= old(table.errors)
      ensures table.errors == 0 ==> OptFit(e, table.symbols)
      ensures old(table.errors) == 0 ==> (table.errors == 0 <==> OptionIn(table.Current(), r).Some?)
      ensures table.errors == 0 ==> OptionIn(table.Current(), r) == Some(e)
    {
      hide TableOk, InitsOk, TypesFine, ExprFit, Foldable;
      e := None;
      if r.Some? {
        var x := AnalyzeExpr(r.value);
        e := Some(x);
      }
    }

    method AnalyzeWhile(r: RStmt) returns (s: Stmt)
      requires Valid() && StmtParsed(r) && (r.SWhile? || r.SDoWhile?)
      modifies this, table
      ensures Valid() && Evolves(old(table.symbols), table.symbols) && table.errors >= old(table.errors)
      ensures |table.scopes| == |old(table.scopes)|
      ensures table.errors == 0 ==> Analyzed(r, s, old(ctx), ctx, table.symbols)
      ensures old(table.errors) == 0 ==>
                (table.errors == 0 <==> AnalyzeS(old(table.Current()), old(ctx), r).Some?)
      ensures table.errors == 0 ==> AnalyzeS(old(table.Current()), old(ctx), r) == Some((table.Current(), ctx, s))
      decreases r, 0
    {
      hide TableOk, InitsOk, TypesFine, ExprFit, Analyzed, Foldable, ExprIn, ForIn, CaseIn, ReturnIn, DeclsIn, AnalyzeAll;
      ghost var c0, s0 := ctx, table.symbols;
      table.PushScope();
      var e := AnalyzeExpr(r.cond);
      ghost var c2;
      var body;
      body, c2 := AnalyzeLoopBody(r.id, r.body);
      table.PopScope();
      s := if r.SWhile? then While(r.id, e, body) else DoWhile(r.id, e, body);
      if table.errors == 0 { WhileAnalyzed(r, s, c0, c2, s0, table.symbols); }
    }

    method AnalyzeSwitch(r: RStmt) returns (s: Stmt)
      requires Valid() && StmtParsed(r) && r.SSwitch?
      modifies this, table
      ensures Valid() && Evolves(old(table.symbols), table.symbols) && table.errors >= old(table.errors)
      ensures |table.scopes| == |old(table.scopes)|
      ensures table.errors == 0 ==> Analyzed(r, s, old(ctx), ctx, table.symbols)
      ensures old(table.errors) == 0 ==>
                (table.errors == 0 <==> AnalyzeS(old(table.Current()), old(ctx), r).Some?)
      ensures table.errors == 0 ==> AnalyzeS(old(table.Current()), old(ctx), r) == Some((table.Current(), ctx, s))
      decreases r, 0
    {
      hide TableOk, InitsOk, TypesFine, ExprFit, Analyzed, Foldable;
      ghost var s0 := table.symbols;
      var e := AnalyzeExpr(r.cond);
      if !IsArithmetic(TypeOf(e)) { table.Error(); }
      var saved := ctx;
      ctx := ctx.(breakable := Some(r.id), sw := Some(TypeOf(e)), cases := [], dflt := None);
      var body := AnalyzeStmt(r.body);
      ghost var c2 := ctx;
      s := Switch(r.id, e, body, ctx.cases, ctx.dflt);
      ctx := ctx.(breakable := saved.breakable, sw := saved.sw, cases := saved.cases, dflt := saved.dflt);
      if table.errors == 0 { SwitchAnalyzed(r, s, old(ctx), c2, s0, table.symbols); }
    }

    /** A case belongs to the innermost switch; its value is folded and must be new. */
    method AnalyzeCase(r: RStmt) returns (s: Stmt)
      requires Valid() && StmtParsed(r) && r.SCase?
      modifies this, table
      ensures Valid() && Evolves(old(table.symbols), table.symbols) && table.errors >= old(table.errors)
      ensures |table.scopes| == |old(table.scopes)|
      ensures table.errors == 0 ==> Analyzed(r, s, old(ctx), ctx, table.symbols)
      ensures old(table.errors) == 0 ==>
                (table.errors == 0 <==> AnalyzeS(old(table.Current()), old(ctx), r).Some?)
      ensures table.errors == 0 ==> AnalyzeS(old(table.Current()), old(ctx), r) == Some((table.Current(), ctx, s))
      decreases r, 0
    {
      hide TableOk, InitsOk, TypesFine, ExprFit, Analyzed, Foldable, Fold, Compatible, ConvertTo;
      var e := AnalyzeExpr(r.e);
      var value := 0;
      if ctx.sw.None? || !IsArithmetic(TypeOf(e)) {
        table.Error();
      } else {
        var t := Typed(e, TypeOf(e), false);
        e := ConvertTo(t, ctx.sw.value);
        var v := Fold(e);
        if v.None? {
          table.Error();
        } else {
          var duplicate := HasCase(v.value);
          if duplicate {
            table.Error();
          } else {
            value := v.value;
            if table.errors == 0 { CaseFits(t, ctx.sw.value); }
            ctx := ctx.(cases := ctx.cases + [CaseRef(value, r.id)]);
          }
        }
      }
      var body := AnalyzeStmt(r.stmt);
      s := Case(r.id, e, value, body);
      if table.errors == 0 { CaseAnalyzed(r, s, old(ctx), ctx, table.symbols); }
    }

    method HasCase(v: int) returns (found: bool)
      ensures found <==> exists k :: 0 <= k < |ctx.cases| && ctx.cases[k].value == v
    {
      found := false;
      for k := 0 to |ctx.cases|
        invariant found <==> exists j :: 0 <= j < k && ctx.cases[j].value == v
      {
        if ctx.cases[k].value == v { found := true; }
      }
    }

    method AnalyzeLabelled(r: RStmt) returns (s: Stmt)
      requires Valid() && StmtParsed(r) && (r.SDefault? || r.SLabel?)
      modifies this, table
      ensures Valid() && Evolves(old(table.symbols), table.symbols) && table.errors >= old(table.errors)
      ensures |table.scopes| == |old(table.scopes)|
      ensures table.errors == 0 ==> Analyzed(r, s, old(ctx), ctx, table.symbols)
      ensures old(table.errors) == 0 ==>
                (table.errors == 0 <==> AnalyzeS(old(table.Current()), old(ctx), r).Some?)
      ensures table.errors == 0 ==> AnalyzeS(old(table.Current()), old(ctx), r) == Some((table.Current(), ctx, s))
      decreases r, 0
    {
      hide TableOk, InitsOk, TypesFine, Analyzed;
      if r.SDefault? {
        if ctx.sw.None? || ctx.dflt.Some? { table.Error(); } else { ctx := ctx.(dflt := Some(r.id)); }
        var body := AnalyzeStmt(r.stmt);
        s := Default(r.id, body);
        if table.errors == 0 { DefaultAnalyzed(r, s, old(ctx), ctx, table.symbols); }
      } else {
        if r.name in ctx.labels { table.Error(); } else { ctx := ctx.(labels := ctx.labels[r.name := r.id]); }
        var body := AnalyzeStmt(r.stmt);
        s := Label(r.id, r.name, body);
        if table.errors == 0 { LabelAnalyzed(r, s, old(ctx), ctx, table.symbols); }
      }
    }

    method AnalyzeJump(r: RStmt) returns (s: Stmt)
      requires Valid() && (r.SBreak? || r.SContinue? || r.SGoto?)
      modifies this, table
      ensures Valid() && Evolves(old(table.symbols), table.symbols) && table.errors >= old(table.errors)
      ensures |table.scopes| == |old(table.scopes)|
      ensures table.errors == 0 ==> Analyzed(r, s, old(ctx), ctx, table.symbols)
      ensures old(table.errors) == 0 ==>
                (table.errors == 0 <==> AnalyzeS(old(table.Current()), old(ctx), r).Some?)
      ensures table.errors == 0 ==> AnalyzeS(old(table.Current()), old(ctx), r) == Some((table.Current(), ctx, s))
    {
      hide TableOk, InitsOk, TypesFine, Evolves, Analyzed;
      EvolvesSame(table.symbols);
      if r.SGoto? {
        GotoAnalyzed(r, ctx, table.symbols);
        ctx := ctx.(gotos := ctx.gotos + [r.name]);
        return Goto(r.name, 0);
      }
      var target := if r.SBreak? then ctx.breakable else ctx.loop;
      if target.None? {
        table.Error();
        return Null;
      }
      s := if r.SBreak? then Break(target.value) else Continue(target.value);
      LeaveAnalyzed(r, s, ctx, table.symbols);
    }

    method AnalyzeDeclarationList(r: RStmt) returns (s: Stmt)
      requires Valid() && StmtParsed(r) && r.SDecl?
      modifies this, table
      ensures Valid() && Evolves(old(table.symbols), table.symbols) && table.errors >= old(table.errors)
      ensures |table.scopes| == |old(table.scopes)|
      ensures table.errors == 0 ==> Analyzed(r, s, old(ctx), ctx, table.symbols) && s.DeclStmt?
      ensures old(table.errors) == 0 ==>
                (table.errors == 0 <==> AnalyzeS(old(table.Current()), old(ctx), r).Some?)
      ensures table.errors == 0 ==> AnalyzeS(old(table.Current()), old(ctx), r) == Some((table.Current(), ctx, s))
    {
      hide TableOk, InitsOk, TypesFine, DeclFit, InitFine, Declared, DeclsFrom, Accounts;
      EvolvesSame(table.symbols);
      var ds: seq<Decl> := [];
      ghost var goal := DeclsIn(table.Current(), r.decls);
      NoDeclsYet(table.Current(), r.decls);
      assert r.decls[0..] == r.decls;
      for k := 0 to |r.decls|
        invariant Valid() && Evolves(old(table.symbols), table.symbols) && table.errors >= old(table.errors)
        invariant |table.scopes| == |old(table.scopes)| && ctx == old(ctx) && |ds| == k
        invariant table.errors == 0 ==> forall j :: 0 <= j < |ds| ==> DeclFit(ds[j], table.symbols)
        invariant old(table.errors) == 0 ==>
                    if table.errors == 0 then DeclsFrom(ds, table.Current(), r.decls[k..]) == goal else goal.None?
      {
        DeclsNext(ds, table.Current(), r.decls[k..]);
        assert r.decls[k..][1..] == r.decls[k + 1..];
        ghost var before, was := table.symbols, ds;
        var d := r.decls[k];
        var sym, init := table.Declare(d);
        var y := table.symbols[sym];
        ds := ds + [DeclOf(d, sym, y, init)];
        EvolvesTrans(old(table.symbols), before, table.symbols);
        if table.errors == 0 {
          forall j | 0 <= j < |ds| ensures DeclFit(ds[j], table.symbols) {
            if j < |was| { DeclStays(was[j], before, table.symbols); } else { DeclAnalyzed(d, sym, init, table.symbols); }
          }
        }
      }
      s := DeclStmt(ds);
      assert r.decls[|r.decls|..] == [];
      if table.errors == 0 { DeclsDone(ds, table.Current()); }
      MovesNone(ctx);
    }

    method AnalyzeBlock(r: RStmt) returns (s: Stmt)
      requires Valid() && StmtParsed(r) && r.SBlock?
      modifies this, table
      ensures Valid() && Evolves(old(table.symbols), table.symbols) && table.errors >= old(table.errors)
      ensures |table.scopes| == |old(table.scopes)|
      ensures table.errors == 0 ==> Analyzed(r, s, old(ctx), ctx, table.symbols)
      ensures old(table.errors) == 0 ==>
                (table.errors == 0 <==> AnalyzeS(old(table.Current()), old(ctx), r).Some?)
      ensures table.errors == 0 ==> AnalyzeS(old(table.Current()), old(ctx), r) == Some((table.Current(), ctx, s))
      decreases r, 0
    {
      hide TableOk, InitsOk, TypesFine, ItemsAnalyzed;
      table.PushScope();
      var items := AnalyzeItems(r.items);
      table.PopScope();
      s := Block(items);
      if table.errors == 0 { BlockAnalyzed(r, s, old(ctx), ctx, table.symbols); }
    }

    method AnalyzeItems(rs: seq<RStmt>) returns (ss: seq<Stmt>)
      requires Valid() && ItemsParsed(rs)
      modifies this, table
      ensures Valid() && Evolves(old(table.symbols), table.symbols) && table.errors >= old(table.errors)
      ensures |table.scopes| == |old(table.scopes)|
      ensures table.errors == 0 ==> ItemsAnalyzed(rs, ss, old(ctx), ctx, table.symbols)
      ensures old(table.errors) == 0 ==>
                (table.errors == 0 <==> AnalyzeAll(old(table.Current()), old(ctx), rs).Some?)
      ensures table.errors == 0 ==> AnalyzeAll(old(table.Current()), old(ctx), rs) == Some((table.Current(), ctx, ss))
      decreases rs, 0
    {
      hide TableOk, InitsOk, TypesFine, Analyzed, ItemsAnalyzed;
      ghost var s0 := table.symbols;
      EvolvesSame(s0);
      if rs == [] {
        NoItems(ctx, table.symbols);
        return [];
      }
      var s := AnalyzeStmt(rs[0]);
      ghost var c1, s1 := ctx, table.symbols;
      var rest := AnalyzeItems(rs[1..]);
      ss := [s] + rest;
      EvolvesTrans(s0, s1, table.symbols);
      if table.errors == 0 {
        ItemsCons(rs[0], rs[1..], s, rest, old(ctx), c1, ctx, s1, table.symbols);
        assert [rs[0]] + rs[1..] == rs;
      }
    }
  }

  lemma ForSpec(s: State, c: FnCtx, r: RStmt)
    requires s.scopes != [] && r.SFor?
    ensures AnalyzeS(s, c, r) == ForIn(s, c, r)
  {
    hide ForIn;
  }

  lemma GotoAnalyzed(r: RStmt, c: FnCtx, syms: seq<Sym>)
    requires r.SGoto?
    ensures Analyzed(r, Goto(r.name, 0), c, c.(gotos := c.gotos + [r.name]), syms)
  {
    assert c.cases + [] == c.cases;
  }

  lemma LeaveAnalyzed(r: RStmt, s: Stmt, c: FnCtx, syms: seq<Sym>)
    requires (r.SBreak? && s.Break? && c.breakable == Some(s.target)) || (r.SContinue? && s.Continue? && c.loop == Some(s.target))
    ensures Analyzed(r, s, c, c, syms)
  {
    MovesNone(c);
  }

  lemma EvolvesSame(a: seq<Sym>)
    ensures Evolves(a, a)
  {
  }

  lemma NullAnalyzed(c: FnCtx, syms: seq<Sym>)
    ensures Analyzed(SNull, Null, c, c, syms)
  {
    MovesNone(c);
  }

  lemma NoItems(c: FnCtx, syms: seq<Sym>)
    ensures ItemsAnalyzed([], [], c, c, syms)
  {
    MovesNone(c);
  }

  lemma BlockAnalyzed(r: RStmt, s: Stmt, c: FnCtx, c2: FnCtx, syms: seq<Sym>)
    requires r.SBlock? && s.Block? && ItemsAnalyzed(r.items, s.items, c, c2, syms)
    ensures Analyzed(r, s, c, c2, syms)
  {
    hide Moves;
    forall id ensures IdCount(s, id) == RawIds(r, id) { assert IdCountItems(s.items, id) == RawItemIds(r.items, id); }
    assert Shape(s, c.breakable, c.loop) && Fit(s, c.ret, syms);
  }

  lemma DeclAnalyzed(d: Declaration, sym: nat, init: Option<Expr>, syms: seq<Sym>)
    requires sym < |syms| && syms[sym].ty == d.ty && TypeFine(d.ty) && d.isFunction == d.ty.Function?
    requires init.Some? ==> InitFine(init.value, d.ty, syms)
    ensures DeclFit(Decl(!d.isFunction, syms[sym].duration.Automatic?, Symbol(sym, syms[sym].ty, syms[sym].duration.Static?), init), syms)
  {
    hide InitFine;
  }

  lemma CaseFits(t: Typed, ty: Ty)
    requires Foldable(t.e) && TypeOf(t.e) == t.ty && Fold(ConvertTo(t, ty)).Some?
    ensures Fits(Fold(ConvertTo(t, ty)).value, ty)
  {
    ConvertFoldable(t, ty);
    FoldInRange(ConvertTo(t, ty));
  }

  lemma ForAnalyzed(r: RStmt, s: Stmt, c: FnCtx, c2: FnCtx, s1: seq<Sym>, syms: seq<Sym>)
    requires r.SFor? && s.For? && s.id == r.id && Analyzed(r.init, s.init, c, c, s1) && Shape(s.init, None, None)
    requires (forall id :: IdCount(s.init, id) == RawIds(r.init, id)) && OptFit(s.test, s1) && OptFit(s.post, s1) && Evolves(s1, syms)
    requires Analyzed(r.body, s.body, c.(breakable := Some(r.id), loop := Some(r.id)), c2, syms)
    ensures Analyzed(r, s, c, c2.(breakable := c.breakable, loop := c.loop), syms)
  {
    hide ExprFit, Evolves, Moves;
    LoopAnalyzed(r.body, s.body, r.id, c, c2, syms);
    FitStays(s.init, c.ret, s1, syms);
    if s.test.Some? { ExprStays(s.test.value, s1, syms); }
    if s.post.Some? { ExprStays(s.post.value, s1, syms); }
    forall id ensures IdCount(s, id) == RawIds(r, id) {
      assert IdCount(s.init, id) == RawIds(r.init, id) && IdCount(s.body, id) == RawIds(r.body, id);
    }
    assert Shape(s, c.breakable, c.loop) && Fit(s, c.ret, syms);
    assert GotosIn(s) == GotosIn(s.body) by { GotosStay(c, s.init); assert [] + GotosIn(s.body) == GotosIn(s.body); }
  }

  lemma GotosStay(c: FnCtx, i: Stmt)
    requires Moves(c, c, CaseList(i), DefaultOf(i), LabelsIn(i), GotosIn(i))
    ensures GotosIn(i) == []
  {
    assert |c.gotos + GotosIn(i)| == |c.gotos|;
  }

  lemma WhileAnalyzed(r: RStmt, s: Stmt, c: FnCtx, c2: FnCtx, s0: seq<Sym>, syms: seq<Sym>)
    requires (if r.SWhile? then s.While? else r.SDoWhile? && s.DoWhile?) && s.id == r.id && ExprFit(s.cond, s0) && Evolves(s0, syms)
    requires Analyzed(r.body, s.body, c.(breakable := Some(r.id), loop := Some(r.id)), c2, syms)
    ensures Analyzed(r, s, c, c2.(breakable := c.breakable, loop := c.loop), syms)
  {
    hide ExprFit, Evolves, Moves;
    LoopAnalyzed(r.body, s.body, r.id, c, c2, syms);
    ExprStays(s.cond, s0, syms);
    forall id ensures IdCount(s, id) == RawIds(r, id) { assert IdCount(s.body, id) == RawIds(r.body, id); }
  }

  lemma ExprAnalyzed(r: Raw, scopes: seq<Names>, linked: Names, symbols: seq<Sym>)
    requires TableOk(scopes, linked, symbols) && TypesFine(symbols) && Parsed(r) && Analyze(r, ScopeOf(scopes, symbols)).Some?
    ensures var e := Analyze(r, ScopeOf(scopes, symbols)).value.e; ExprFit(e, symbols) && Foldable(e)
  {
    hide TableOk, TypesFine, Analyze, TypesOf, ScopeOk, WellTyped, ExprTyped, VarsBelow, UsesOk;
    ScopeFine(scopes, linked, symbols);
    AnalyzeSound(r, ScopeOf(scopes, symbols), TypesOf(symbols), |symbols|);
    AnalyzeFoldable(r, ScopeOf(scopes, symbols));
  }
}
