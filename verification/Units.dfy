/** Function definitions and translation units: analysis without errors yields a program that the rest
    of the compiler translates correctly. */
module Units {
  import opened Arith
  import opened Ast
  import opened Syntax
  import opened Frames
  import opened Typing
  import opened StmtParts
  import opened Labels
  import opened Program
  import opened Compiler
  import D = Declarations
  import A = StmtAnalysis
  import opened Resolution

  /** What the parser guarantees. */
  predicate ItemParsed(i: Item) {
    D.DeclarationOk(i.decl) && !i.decl.isParameter && (i.decl.isFunction && i.decl.hasBody ==> A.ItemsParsed(i.body))
  }

  /** A parameter: an automatic object of the declared type. */
  predicate ParamFine(p: Symbol, ty: Ty, syms: seq<D.Sym>) {
    && p.id < |syms| && p.ty == ty && !p.isStatic && IsArithmetic(ty)
    && syms[p.id].ty == ty && syms[p.id].duration.Automatic?
  }

  predicate ParamsFine(ps: seq<Symbol>, tys: seq<Ty>, syms: seq<D.Sym>) {
    |ps| == |tys| && forall k :: 0 <= k < |ps| ==> ParamFine(ps[k], tys[k], syms)
  }

  /** A body resolved from an analysed one, whose gotos all have a label. */
  ghost predicate BodyFrom(body: Stmt, s: Stmt, m: A.LabelMap, ret: Ty, syms: seq<D.Sym>) {
    && body == Resolve(s, m) && A.Fit(s, ret, syms) && A.Shape(s, None, None) && Resolves(m, body)
    && Known(A.GotosIn(s), m)
  }

  ghost predicate BodyFine(body: Stmt, ret: Ty, syms: seq<D.Sym>) {
    exists s, m :: BodyFrom(body, s, m, ret, syms)
  }

  ghost predicate Numbered(body: Stmt, raw: seq<RStmt>) {
    forall id :: IdCount(body, id) == A.RawItemIds(raw, id)
  }

  predicate SignatureFine(f: Fn, syms: seq<D.Sym>) {
    && f.id < |syms| && syms[f.id].ty.Function? && syms[f.id].ty.ret == f.ret && (IsArithmetic(f.ret) || f.ret.Void?)
    && ParamsFine(f.params, syms[f.id].ty.params, syms) && Distinct(f.params)
  }

  /** The outcome of analysing a function definition without error. */
  ghost predicate FnFine(f: Fn, raw: seq<RStmt>, syms: seq<D.Sym>) {
    SignatureFine(f, syms) && BodyFine(f.body, f.ret, syms) && Numbered(f.body, raw)
  }

  lemma ParamsStay(ps: seq<Symbol>, tys: seq<Ty>, a: seq<D.Sym>, b: seq<D.Sym>)
    requires ParamsFine(ps, tys, a) && D.Evolves(a, b)
    ensures ParamsFine(ps, tys, b)
  {
    forall k | 0 <= k < |ps| ensures ParamFine(ps[k], tys[k], b) {
      assert ParamFine(ps[k], tys[k], a) && D.Later(a[ps[k].id], b[ps[k].id]);
    }
  }

  lemma FnStays(f: Fn, raw: seq<RStmt>, a: seq<D.Sym>, b: seq<D.Sym>)
    requires FnFine(f, raw, a) && D.Evolves(a, b)
    ensures FnFine(f, raw, b)
  {
    hide A.Fit, A.Shape, Resolves, ParamsFine, Numbered, Distinct;
    ParamsStay(f.params, a[f.id].ty.params, a, b);
    assert D.Later(a[f.id], b[f.id]);
    var s, m :| BodyFrom(f.body, s, m, f.ret, a);
    A.FitStays(s, f.ret, a, b);
    assert BodyFrom(f.body, s, m, f.ret, b);
  }

  /** The first 'n' parameters bound; None is an error. */
  function ParamsIn(s: D.State, params: seq<Declaration>, n: nat): (r: Option<(D.State, seq<Symbol>)>)
    requires s.scopes != [] && n <= |params|
    ensures r.Some? ==> |r.value.0.scopes| == |s.scopes| && |s.symbols| <= |r.value.0.symbols|
  {
    if n == 0 then Some((s, [])) else
    var before := ParamsIn(s, params, n - 1);
    var p := params[n - 1];
    if before.None? || p.name == "" then None else
    var b := D.Bound(before.value.0, p);
    if b.None? then None
    else Some((b.value.0, before.value.1 + [Symbol(b.value.1, p.ty, b.value.0.symbols[b.value.1].duration.Static?)]))
  }

  /** The context a function body starts with. */
  function NewCtx(ret: Ty): A.FnCtx {
    A.FnCtx(ret, None, None, None, [], None, map[], [])
  }

  /** Analysing a function definition; None is an error. */
  function FunctionIn(s: D.State, i: Item): (r: Option<(D.State, Fn)>)
    requires s.scopes != []
    ensures r.Some? ==> |r.value.0.scopes| == |s.scopes| && |s.symbols| <= |r.value.0.symbols|
  {
    if !i.decl.ty.Function? then None else
    var d := D.Declared(s, i.decl);
    if d.None? then None else
    var ps := ParamsIn(A.Pushed(d.value.0), i.decl.params, |i.decl.params|);
    if ps.None? then None else
    var b := A.AnalyzeAll(ps.value.0, NewCtx(i.decl.ty.ret), i.body);
    if b.None? || !Known(b.value.1.gotos, b.value.1.labels) then None
    else Some((A.Popped(b.value.0), Fn(d.value.1, ps.value.1, i.decl.ty.ret, Resolve(Block(b.value.2), b.value.1.labels))))
  }

  /** The first 'n' declarations of a unit; None is an error. */
  function UnitIn(items: seq<Item>, n: nat): (r: Option<(D.State, seq<Fn>)>)
    requires n <= |items|
    ensures r.Some? ==> r.value.0.scopes != []
  {
    if n == 0 then Some((D.State([map[]], map[], []), [])) else
    var before := UnitIn(items, n - 1);
    var i := items[n - 1];
    if before.None? then None
    else if i.decl.isFunction && i.decl.hasBody then
      var f := FunctionIn(before.value.0, i);
      if f.None? then None else Some((f.value.0, before.value.1 + [f.value.1]))
    else
      var d := D.Declared(before.value.0, i.decl);
      if d.None? then None else Some((d.value.0, before.value.1))
  }

  /** Parameters are the first names of the function's scope, each a new object. */
  method BindParams(table: D.Table, params: seq<Declaration>) returns (ps: seq<Symbol>)
    requires table.Valid() && |table.scopes| > 1 && forall k :: 0 <= k < |params| ==> D.ParamParsed(params[k], params[k].ty)
    requires table.errors == 0 ==> forall k :: 0 <= k < |params| ==> D.ParamValid(params[k])
    modifies table
    ensures table.Valid() && |table.scopes| == |old(table.scopes)| && table.errors >= old(table.errors)
    ensures D.Evolves(old(table.symbols), table.symbols)
    ensures old(table.errors) == 0 ==> (table.errors == 0 <==> ParamsIn(old(table.Current()), params, |params|).Some?)
    ensures table.errors == 0 ==> ParamsIn(old(table.Current()), params, |params|) == Some((table.Current(), ps))
    ensures table.errors == 0 ==> Distinct(ps) && |ps| == |params| && forall k :: 0 <= k < |ps| ==> ParamFine(ps[k], params[k].ty, table.symbols)
  {
    hide D.TableOk, D.InitsOk, D.TypesFine, D.Evolves, D.Bound;
    A.EvolvesSame(table.symbols);
    ps := [];
    for k := 0 to |params|
      invariant table.Valid() && |table.scopes| == |old(table.scopes)| && table.errors >= old(table.errors)
      invariant D.Evolves(old(table.symbols), table.symbols)
      invariant old(table.errors) == 0 ==> (table.errors == 0 <==> ParamsIn(old(table.Current()), params, k).Some?)
      invariant table.errors == 0 ==> ParamsIn(old(table.Current()), params, k) == Some((table.Current(), ps))
      invariant table.errors == 0 ==> |ps| == k && Distinct(ps) && forall j :: 0 <= j < k ==> ParamFine(ps[j], params[j].ty, table.symbols)
    {
      if params[k].name == "" {
        table.Error();
      } else {
        ghost var before, was := table.symbols, ps;
        var sym := table.BindDeclaration(params[k]);
        D.EvolvesTrans(old(table.symbols), before, table.symbols);
        ps := ps + [Symbol(sym, params[k].ty, table.symbols[sym].duration.Static?)];
        if table.errors == 0 {
          forall j | 0 <= j < |was| ensures ParamFine(ps[j], params[j].ty, table.symbols) { ParamStays(was[j], params[j].ty, before, table.symbols); }
        }
      }
    }
  }

  lemma ParamStays(p: Symbol, ty: Ty, a: seq<D.Sym>, b: seq<D.Sym>)
    requires ParamFine(p, ty, a) && D.Evolves(a, b)
    ensures ParamFine(p, ty, b)
  {
    assert D.Later(a[p.id], b[p.id]);
  }

  method ResolveGotos(table: D.Table, gotos: seq<string>, labels: A.LabelMap)
    requires table.Valid()
    modifies table`errors
    ensures table.Valid() && table.errors >= old(table.errors)
    ensures table.errors == old(table.errors) <==> Known(gotos, labels)
    ensures table.Current() == old(table.Current())
  {
    hide D.TableOk, D.InitsOk, D.TypesFine;
    for k := 0 to |gotos|
      invariant table.Valid() && table.errors >= old(table.errors)
      invariant table.errors == old(table.errors) <==> forall j :: 0 <= j < k ==> gotos[j] in labels
    {
      if gotos[k] !in labels { table.Error(); }
    }
  }

  lemma BlockReads(items: seq<Stmt>, ret: Ty, syms: seq<D.Sym>, id: nat)
    ensures var s := Block(items);
            && A.LabelsIn(s) == A.LabelsInItems(items) && A.GotosIn(s) == A.GotosInItems(items)
            && (A.Fit(s, ret, syms) <==> A.ItemsFit(items, ret, syms))
            && (A.Shape(s, None, None) <==> A.ItemsShape(items, None, None))
            && IdCount(s, id) == IdCountItems(items, id)
  {
    hide A.LabelsInItems, A.GotosInItems, A.ItemsFit, A.ItemsShape, IdCountItems;
  }

  lemma BodyAnalyzed(raw: seq<RStmt>, items: seq<Stmt>, c2: A.FnCtx, ret: Ty, syms: seq<D.Sym>)
    requires A.ItemsAnalyzed(raw, items, A.FnCtx(ret, None, None, None, [], None, map[], []), c2, syms)
    requires forall k :: 0 <= k < |c2.gotos| ==> c2.gotos[k] in c2.labels
    ensures BodyFine(Resolve(Block(items), c2.labels), ret, syms) && Numbered(Resolve(Block(items), c2.labels), raw)
  {
    hide Resolve, Resolves, A.FreshLabels, A.AddLabels, CasesFit, A.DistinctCases, CaseListItems,
      DefaultOfItems, A.Fit, A.Shape, A.ItemsFit, A.ItemsShape, IdCount, IdCountItems, A.LabelsIn, A.LabelsInItems,
      A.GotosIn, A.GotosInItems, A.RawItemIds;
    var s, m := Block(items), c2.labels;
    var body := Resolve(s, m);
    BlockReads(items, ret, syms, 0);
    SameParts(s, m);
    LabelsResolve(m, body);
    assert c2.gotos == A.GotosIn(s);
    assert BodyFrom(body, s, m, ret, syms);
    forall id ensures IdCount(body, id) == A.RawItemIds(raw, id) {
      SameIds(s, m, id);
      BlockReads(items, ret, syms, id);
    }
  }

  /** One function definition. Parameters share the scope of the body. */
  method AnalyzeFunction(table: D.Table, i: Item) returns (f: Fn)
    requires table.Valid() && |table.scopes| == 1 && ItemParsed(i) && i.decl.isFunction && i.decl.hasBody
    modifies table
    ensures table.Valid() && |table.scopes| == 1 && table.errors >= old(table.errors)
    ensures D.Evolves(old(table.symbols), table.symbols)
    ensures old(table.errors) == 0 ==> (table.errors == 0 <==> FunctionIn(old(table.Current()), i).Some?)
    ensures table.errors == 0 ==> FunctionIn(old(table.Current()), i) == Some((table.Current(), f))
    ensures table.errors == 0 ==> FnFine(f, i.body, table.symbols) && table.symbols[f.id].defined
    ensures table.errors == 0 && f.id < |old(table.symbols)| ==> !old(table.symbols)[f.id].defined
  {
    hide D.TableOk, D.InitsOk, D.TypesFine, A.ItemsAnalyzed, Distinct, ParamFine, D.Declared, ParamsIn, A.AnalyzeAll;
    var sym, _ := table.Declare(i.decl);
    ghost var s1 := table.symbols;
    table.PushScope();
    var ps := BindParams(table, i.decl.params);
    ghost var s2 := table.symbols;
    var a := new A.Analyzer(table, i.decl.ty.ret);
    var items := a.AnalyzeItems(i.body);
    ghost var c2 := a.ctx;
    ResolveGotos(table, a.ctx.gotos, a.ctx.labels);
    table.PopScope();
    f := Fn(sym, ps, i.decl.ty.ret, Resolve(Block(items), a.ctx.labels));
    D.EvolvesTrans(s1, s2, table.symbols);
    D.EvolvesTrans(old(table.symbols), s1, table.symbols);
    if table.errors == 0 {
      BodyAnalyzed(i.body, items, c2, f.ret, table.symbols);
      assert ParamsFine(ps, i.decl.ty.params, s2);
      ParamsStay(ps, i.decl.ty.params, s2, table.symbols);
      assert D.Later(s1[sym], table.symbols[sym]);
    }
  }

  /** Bodies of the function definitions, in source order. */
  function Bodies(items: seq<Item>): seq<seq<RStmt>> {
    if items == [] then []
    else
      var last := items[|items| - 1];
      Bodies(items[..|items| - 1]) + if last.decl.isFunction && last.decl.hasBody then [last.body] else []
  }

  /** All function definitions of the unit, each of a function of its own. */
  ghost predicate UnitFine(prog: seq<Fn>, raws: seq<seq<RStmt>>, syms: seq<D.Sym>) {
    && |prog| == |raws|
    && (forall k :: 0 <= k < |prog| ==> FnFine(prog[k], raws[k], syms) && syms[prog[k].id].defined)
    && forall j, k :: 0 <= j < k < |prog| ==> prog[j].id != prog[k].id
  }

  lemma UnitStays(prog: seq<Fn>, raws: seq<seq<RStmt>>, a: seq<D.Sym>, b: seq<D.Sym>)
    requires UnitFine(prog, raws, a) && D.Evolves(a, b)
    ensures UnitFine(prog, raws, b)
  {
    hide FnFine;
    forall k | 0 <= k < |prog| ensures FnFine(prog[k], raws[k], b) && prog[k].id < |b| && b[prog[k].id].defined {
      FnStays(prog[k], raws[k], a, b);
      assert prog[k].id < |a| && prog[k].id < |b| by { FnId(prog[k], raws[k], a); }
      assert D.Later(a[prog[k].id], b[prog[k].id]);
    }
  }

  lemma FnId(f: Fn, raw: seq<RStmt>, syms: seq<D.Sym>)
    requires FnFine(f, raw, syms)
    ensures f.id < |syms|
  {
  }

  lemma UnitMore(prog: seq<Fn>, raws: seq<seq<RStmt>>, f: Fn, raw: seq<RStmt>, a: seq<D.Sym>, b: seq<D.Sym>)
    requires UnitFine(prog, raws, a) && D.Evolves(a, b) && FnFine(f, raw, b) && b[f.id].defined && (f.id < |a| ==> !a[f.id].defined)
    ensures UnitFine(prog + [f], raws + [raw], b)
  {
    hide FnFine, D.Evolves;
    UnitStays(prog, raws, a, b);
    forall k | 0 <= k < |prog| ensures prog[k].id != f.id { FnId(prog[k], raws[k], a); }
  }

  /** A translation unit without errors: each function is defined once and fit for translation, and every
      static object ends at its only initialiser, at 0 if it was only defined tentatively, or undefined. */
  method AnalyzeUnit(items: seq<Item>) returns (table: D.Table, prog: seq<Fn>)
    requires forall k :: 0 <= k < |items| ==> ItemParsed(items[k])
    ensures table.errors == 0 ==> UnitFine(prog, Bodies(items), table.symbols)
    ensures table.errors == 0 <==> UnitIn(items, |items|).Some?
    ensures table.errors == 0 ==>
              var (s, fns) := UnitIn(items, |items|).value;
              prog == fns && |table.symbols| == |s.symbols| && forall k :: 0 <= k < |s.symbols| ==> table.symbols[k] == D.Defined(s.symbols[k])
    ensures table.errors == 0 ==> forall i :: 0 <= i < |table.symbols| ==> D.EndsAt(table.log, i, table.symbols[i].init)
    ensures D.TableOk(table.scopes, table.linked, table.symbols)
  {
    hide D.TableOk, D.InitsOk, D.TypesFine, D.EndsAt, FnFine, UnitFine, D.Evolves, D.Declared, FunctionIn;
    table := new D.Table();
    prog := [];
    assert UnitFine(prog, Bodies(items[..0]), table.symbols) by { NoFunctions(table.symbols); }
    for k := 0 to |items|
      invariant fresh(table) && table.Valid() && |table.scopes| == 1
      invariant table.errors == 0 ==> UnitFine(prog, Bodies(items[..k]), table.symbols)
      invariant table.errors == 0 <==> UnitIn(items, k).Some?
      invariant table.errors == 0 ==> UnitIn(items, k) == Some((table.Current(), prog))
    {
      ghost var before, raws := table.symbols, Bodies(items[..k]);
      BodiesNext(items, k);
      if items[k].decl.isFunction && items[k].decl.hasBody {
        var f := AnalyzeFunction(table, items[k]);
        if table.errors == 0 { UnitMore(prog, raws, f, items[k].body, before, table.symbols); }
        prog := prog + [f];
        assert Bodies(items[..k + 1]) == raws + [items[k].body];
      } else {
        var _, _ := table.Declare(items[k].decl);
        if table.errors == 0 { UnitStays(prog, raws, before, table.symbols); }
        assert Bodies(items[..k + 1]) == raws;
      }
    }
    assert items[..|items|] == items;
    ghost var before := table.symbols;
    table.FinishTentativeDeclarations();
    if table.errors == 0 {
      UnitStays(prog, Bodies(items), before, table.symbols);
    }
  }

  lemma BodiesNext(items: seq<Item>, k: nat)
    requires k < |items|
    ensures Bodies(items[..k + 1]) == Bodies(items[..k]) + if items[k].decl.isFunction && items[k].decl.hasBody then [items[k].body] else []
  {
    assert items[..k + 1][..k] == items[..k];
  }

  lemma NoFunctions(syms: seq<D.Sym>)
    ensures UnitFine([], Bodies([]), syms)
  {
  }

  /** Statements of the first 'n' bodies numbered 'id'. */
  function RawTotal(raws: seq<seq<RStmt>>, n: nat, id: nat): nat
    requires n <= |raws|
  {
    if n == 0 then 0 else RawTotal(raws, n - 1, id) + A.RawItemIds(raws[n - 1], id)
  }

  lemma {:induction false} TotalPart(raws: seq<seq<RStmt>>, n: nat, k: nat, id: nat)
    requires k < n <= |raws|
    ensures A.RawItemIds(raws[k], id) <= RawTotal(raws, n, id)
  {
    if k < n - 1 { TotalPart(raws, n - 1, k, id); }
  }

  lemma {:induction false} SameTotal(prog: seq<Fn>, raws: seq<seq<RStmt>>, syms: seq<D.Sym>, n: nat, id: nat)
    requires UnitFine(prog, raws, syms) && n <= |prog|
    ensures IdTotal(prog, n, id) == RawTotal(raws, n, id)
  {
    hide IdCount, A.RawItemIds, BodyFine, SignatureFine;
    if n > 0 {
      SameTotal(prog, raws, syms, n - 1, id);
      assert FnFine(prog[n - 1], raws[n - 1], syms);
    }
  }

  /** What analysis leaves to the programmer: conditions and cast operands are arithmetic. And the parser
      numbers statements from one counter. */
  ghost predicate Restricted(prog: seq<Fn>, raws: seq<seq<RStmt>>) {
    && (forall k :: 0 <= k < |prog| ==> A.StmtUses(prog[k].body))
    && forall id :: RawTotal(raws, |raws|, id) <= 1
  }

  lemma FunctionOk(f: Fn, raw: seq<RStmt>, syms: seq<D.Sym>, bound: nat)
    requires FnFine(f, raw, syms) && A.StmtUses(f.body) && |syms| <= bound && forall id :: A.RawItemIds(raw, id) <= 1
    ensures BodyOk(f.body, bound) && FnTyped(D.TypesOf(syms), f)
  {
    hide A.Fit, A.Shape, Resolves, Resolve, StmtOk, StmtTyped, A.StmtUses, Distinct;
    var g := D.TypesOf(syms);
    var s, m :| BodyFrom(f.body, s, m, f.ret, syms);
    SameUses(s, m);
    Resolved(s, m, Jumps(None, None, f.body), f.ret, syms, bound);
    forall id ensures IdCount(f.body, id) <= 1 { assert IdCount(f.body, id) == A.RawItemIds(raw, id); }
    forall k | 0 <= k < |f.params| ensures ParamTyped(g, f.params[k], g.params[f.id][k]) {
      assert ParamFine(f.params[k], syms[f.id].ty.params[k], syms);
    }
  }

  lemma FunctionRestricted(f: Fn, raw: seq<RStmt>, syms: seq<D.Sym>, bound: nat, g: Types)
    requires FnFine(f, raw, syms) && BodyOk(f.body, bound) && FnTyped(g, f)
    ensures A.StmtUses(f.body)
  {
    hide BodyFine, StmtOk, StmtTyped, A.StmtUses;
    TypedUses(f.body, g, f.ret);
  }

  /** A unit analysed without errors is what the proof of the compiler starts from, exactly under the
      restrictions that analysis does not check. */
  lemma UnitOk(prog: seq<Fn>, raws: seq<seq<RStmt>>, syms: seq<D.Sym>, nl: nat)
    requires UnitFine(prog, raws, syms) && ObjectsApart(prog, |syms|)
    ensures SourceOk(prog, |syms|, nl, D.TypesOf(syms)) <==> Restricted(prog, raws)
  {
    if Restricted(prog, raws) { UnitSufficient(prog, raws, syms, nl); }
    if SourceOk(prog, |syms|, nl, D.TypesOf(syms)) { UnitNecessary(prog, raws, syms, nl); }
  }

  lemma UnitNecessary(prog: seq<Fn>, raws: seq<seq<RStmt>>, syms: seq<D.Sym>, nl: nat)
    requires UnitFine(prog, raws, syms) && SourceOk(prog, |syms|, nl, D.TypesOf(syms))
    ensures Restricted(prog, raws)
  {
    hide FnFine, BodyOk, FnTyped, StartOf, A.StmtUses, RawTotal, IdTotal;
    forall id ensures RawTotal(raws, |raws|, id) <= 1 {
      assert IdTotal(prog, |prog|, id) <= 1;
      SameTotal(prog, raws, syms, |prog|, id);
    }
    forall k | 0 <= k < |prog| ensures A.StmtUses(prog[k].body) {
      FunctionRestricted(prog[k], raws[k], syms, StartOf(prog, k, |syms|, nl).0, D.TypesOf(syms));
    }
  }

  lemma UnitSufficient(prog: seq<Fn>, raws: seq<seq<RStmt>>, syms: seq<D.Sym>, nl: nat)
    requires UnitFine(prog, raws, syms) && ObjectsApart(prog, |syms|) && Restricted(prog, raws)
    ensures SourceOk(prog, |syms|, nl, D.TypesOf(syms))
  {
    hide FnFine, BodyOk, FnTyped, StartOf, A.StmtUses, RawTotal, IdTotal, ObjectsApart;
    forall id ensures IdTotal(prog, |prog|, id) <= 1 {
      assert RawTotal(raws, |raws|, id) <= 1;
      SameTotal(prog, raws, syms, |prog|, id);
    }
    forall i | 0 <= i < |prog| ensures BodyOk(prog[i].body, StartOf(prog, i, |syms|, nl).0) && FnTyped(D.TypesOf(syms), prog[i]) {
      CountersGrow(prog, i, i, |syms|, nl);
      forall id ensures A.RawItemIds(raws[i], id) <= 1 {
        assert RawTotal(raws, |raws|, id) <= 1;
        TotalPart(raws, |raws|, i, id);
      }
      FunctionOk(prog[i], raws[i], syms, StartOf(prog, i, |syms|, nl).0);
    }
  }

  /** Every unit analysed without errors has an image; the compiler is correct for it. */
  lemma UnitCompiles(prog: seq<Fn>, raws: seq<seq<RStmt>>, syms: seq<D.Sym>, nl: nat, data: map<nat, int>) returns (im: Image)
    requires UnitFine(prog, raws, syms) && ObjectsApart(prog, |syms|) && Restricted(prog, raws)
    ensures ImageOk(im) && im.prog == prog && im.np == |syms| && im.nl == nl && im.g == D.TypesOf(syms) && im.data == data
  {
    hide UnitFine, Restricted, SourceOk, Compiler.TableOk;
    UnitOk(prog, raws, syms, nl);
    var ts := TablesExist(prog, |syms|, nl, D.TypesOf(syms), |prog|);
    im := Image(prog, |syms|, nl, D.TypesOf(syms), ts, data);
  }
}
