/** Every program that analysis accepts is elaborated: by induction over what analysis does. */
module ElaborationProof {
  import opened Arith
  import opened Ast
  import opened Syntax
  import opened Folding
  import opened Analysis
  import opened Program
  import opened StmtParts
  import opened Elaboration
  import D = Declarations
  import A = StmtAnalysis
  import R = Resolution
  import U = Units

  function LinkOf(s: D.State, d: Declaration): D.Linkage {
    D.DetermineLinkage(d, D.SymAt(s, D.Find(s.scopes, d.name)), |s.scopes| == 1)
  }

  /** A declaration binds its name, and the symbol is a new one unless it has linkage. */
  ghost predicate BoundTo(s: D.State, s': D.State, d: Declaration, i: nat) {
    && Onward(s, s') && EnvOf(s'.scopes) == With(EnvOf(s.scopes), d.name, i)
    && i <= |s.symbols| && |s'.symbols| == (if i < |s.symbols| then |s.symbols| else i + 1)
    && (s'.symbols[i].linkage.NoLinkage? ==> i == |s.symbols|)
    && (d.name in EnvOf(s.scopes).here ==> EnvOf(s.scopes).here[d.name] == i && !s'.symbols[i].linkage.NoLinkage?)
  }

  /** The symbol a declaration was bound to. */
  predicate SymbolFrom(d: Declaration, y: D.Sym, link: D.Linkage, global: bool) {
    && y.name == d.name && y.ty == d.ty && y.isFunction == d.isFunction && y.linkage == link
    && y.duration == D.DetermineDuration(d, global) && (d.isFunction && d.hasBody ==> y.defined)
    && (D.IsTentative(d, global) ==> !y.init.InitNone?)
  }

  lemma MergedBinds(s: D.State, d: Declaration, link: D.Linkage, i: nat, install: bool)
    requires Sound(s) && s.scopes != [] && D.Merged(s, d, link, i, install).Some? && !link.NoLinkage? && s.symbols[i].name == d.name
    requires d.isFunction == d.ty.Function? && D.DetermineDuration(d, |s.scopes| == 1).Static?
    requires var top := s.scopes[|s.scopes| - 1]; if install then d.name !in top else d.name in top && top[d.name] == i
    ensures var s' := D.Merged(s, d, link, i, install).value.0;
            D.Merged(s, d, link, i, install).value.1 == i && BoundTo(s, s', d, i) && SymbolFrom(d, s'.symbols[i], link, |s.scopes| == 1)
  {
    hide D.TableOk, D.Install;
    var s' := D.Merged(s, d, link, i, install).value.0;
    assert D.SymOk(s.symbols[i]) by { D.TableAt(s.scopes, s.linked, s.symbols, i); }
    D.OneLater(s.symbols, i, s'.symbols[i]);
    D.TableEvolves(s.scopes, s.linked, s.symbols, s'.symbols);
    if install {
      D.TableInstall(s.scopes, s.linked, s'.symbols, d.name, i);
      EnvInstall(s.scopes, d.name, i);
      InstallOuter(s.scopes, d.name, i);
    } else {
      EnvAlready(s.scopes, d.name);
    }
  }

  lemma InstallOuter(scopes: seq<D.Names>, name: string, i: nat)
    requires scopes != []
    ensures var r := D.Install(scopes, name, i); |r| == |scopes| && r[..|scopes| - 1] == scopes[..|scopes| - 1]
  {
  }

  lemma EnvAlready(scopes: seq<D.Names>, name: string)
    requires scopes != [] && name in scopes[|scopes| - 1]
    ensures With(EnvOf(scopes), name, scopes[|scopes| - 1][name]) == EnvOf(scopes)
  {
  }

  lemma AddedBinds(s: D.State, d: Declaration, link: D.Linkage)
    requires Sound(s) && s.scopes != [] && IsIdentifier(d.name) && d.isFunction == d.ty.Function? && d.name !in s.scopes[|s.scopes| - 1]
    requires !link.NoLinkage? ==> d.name !in s.linked && D.DetermineDuration(d, |s.scopes| == 1).Static?
    requires d.isFunction ==> D.DetermineDuration(d, |s.scopes| == 1).Static?
    ensures var (s', i) := D.Added(s, d, link);
            BoundTo(s, s', d, i) && SymbolFrom(d, s'.symbols[i], link, |s.scopes| == 1)
  {
    hide D.TableOk, D.Install, IsIdentifier;
    var (s', i) := D.Added(s, d, link);
    assert s'.symbols == s.symbols + [s'.symbols[i]];
    D.TableAdd(s.scopes, s.linked, s.symbols, s'.symbols[i]);
    EnvInstall(s.scopes, d.name, i);
    InstallOuter(s.scopes, d.name, i);
  }

  lemma BoundBinds(s: D.State, d: Declaration)
    requires Sound(s) && s.scopes != [] && IsIdentifier(d.name) && d.isFunction == d.ty.Function? && D.Bound(s, d).Some?
    ensures var (s', i) := D.Bound(s, d).value;
            BoundTo(s, s', d, i) && SymbolFrom(d, s'.symbols[i], LinkOf(s, d), |s.scopes| == 1)
  {
    hide D.TableOk, D.Merged, D.Added, IsIdentifier, BoundTo, SymbolFrom, D.DetermineLinkage;
    var top, link := s.scopes[|s.scopes| - 1], LinkOf(s, d);
    D.TableFind(s.scopes, s.linked, s.symbols, d.name);
    D.LinkageIsStatic(d, D.SymAt(s, D.Find(s.scopes, d.name)), |s.scopes| == 1);
    if d.name in top { MergedBinds(s, d, link, top[d.name], false); }
    else if !link.NoLinkage? && d.name in s.linked { MergedBinds(s, d, link, s.linked[d.name], true); }
    else { AddedBinds(s, d, link); }
  }

  /** The checks of analysis are the constraints of the standard. */
  lemma ChecksAllow(d: Declaration, global: bool)
    requires if d.isParameter then !global && D.ParamValid(d) && !d.isFunction else D.ValidDeclaration(d, global)
    requires d.isFunction ==> D.ParamsValid(d.params)
    ensures Allowed(d, global)
  {
    if d.isFunction {
      forall k | 0 <= k < |d.params| ensures ParamAllowed(d.params[k]) { assert D.ParamValid(d.params[k]); }
    }
  }

  /** What a declaration says of its symbol stays true. */
  lemma SymbolStays(s: D.State, s': D.State, d: Declaration, i: nat, final: seq<D.Sym>)
    requires Sound(s) && BoundTo(s, s', d, i) && D.Evolves(s'.symbols, final)
    requires SymbolFrom(d, s'.symbols[i], LinkOf(s, d), |s.scopes| == 1)
    requires d.init.Some? && D.DetermineDuration(d, |s.scopes| == 1).Static? ==> !final[i].init.InitNone?
    requires d.isParameter || D.ValidDeclaration(d, |s.scopes| == 1)
    requires d.isParameter ==> |s.scopes| != 1 && D.ParamValid(d) && !d.isFunction
    requires d.isFunction ==> D.ParamsValid(d.params)
    ensures Declares(d, i, EnvOf(s.scopes), |s.scopes| == 1, final)
  {
    hide D.TableOk, Allowed, D.ParamsValid, D.ValidDeclaration;
    ChecksAllow(d, |s.scopes| == 1);
    FlatFind(s.scopes, d.name);
    EnvNames(s.scopes);
    D.TableFind(s.scopes, s.linked, s.symbols, d.name);
    var p := D.Find(s.scopes, d.name);
    if p.Some? { assert D.Later(s.symbols[p.value], s'.symbols[p.value]) && D.Later(s'.symbols[p.value], final[p.value]); }
    assert D.Later(s'.symbols[i], final[i]);
  }

  lemma InitialisedBinds(s: D.State, d: Declaration, i: nat, final: seq<D.Sym>)
    requires Sound(s) && s.scopes != [] && i < |s.symbols| && d.init.Some? && D.Initialised(s, d, i).Some?
    requires s.symbols[i].duration == D.DetermineDuration(d, |s.scopes| == 1)
    requires D.Evolves(D.Initialised(s, d, i).value.0.symbols, final)
    ensures var (s', e) := D.Initialised(s, d, i).value;
            && Onward(s, s') && s'.scopes == s.scopes && |s'.symbols| == |s.symbols|
            && InitFrom(d, i, EnvOf(s.scopes), final) && InitOf(d, EnvOf(s.scopes), final) == Some(e)
  {
    hide D.TableOk, Analyze, Fold, ConvertTo, D.DetermineDuration;
    var s' := D.Initialised(s, d, i).value.0;
    D.OneLater(s.symbols, i, s'.symbols[i]);
    assert s'.symbols == s.symbols[i := s'.symbols[i]];
    D.TableEvolves(s.scopes, s.linked, s.symbols, s'.symbols);
    D.EvolvesTrans(s.symbols, s'.symbols, final);
    LaterAgree(s.symbols, final);
    ExprElaborated(s, d.init.value, final);
    assert D.Later(s'.symbols[i], final[i]);
  }

  lemma DeclaredBinds(s: D.State, d: Declaration, final: seq<D.Sym>)
    requires Sound(s) && s.scopes != [] && D.DeclarationOk(d) && !d.isParameter && D.Declared(s, d).Some?
    requires D.Evolves(D.Declared(s, d).value.0.symbols, final)
    ensures var (s', i, e) := D.Declared(s, d).value;
            && BoundTo(s, s', d, i) && Declares(d, i, EnvOf(s.scopes), |s.scopes| == 1, final)
            && InitFrom(d, i, EnvOf(s'.scopes), final) && e == InitOf(d, EnvOf(s'.scopes), final)
  {
    hide Sound, D.Bound, D.Initialised, D.Evolves, D.ParamsValid, D.ParamsParsed, Analyze, Fold, IsIdentifier, D.ValidDeclaration, Declares;
    var (s1, i) := D.Bound(s, d).value;
    var s' := D.Declared(s, d).value.0;
    BoundBinds(s, d);
    if d.init.Some? {
      InitialisedBinds(s1, d, i, final);
      D.EvolvesTrans(s.symbols, s1.symbols, s'.symbols);
      D.EvolvesTrans(s1.symbols, s'.symbols, final);
      LinkageStays(s1.symbols, s'.symbols, i);
      LinkageStays(s1.symbols, final, i);
    }
    SymbolStays(s, s1, d, i, final);
  }

  lemma LinkageStays(a: seq<D.Sym>, b: seq<D.Sym>, i: nat)
    requires D.Evolves(a, b) && i < |a|
    ensures i < |b| && b[i].linkage == a[i].linkage && b[i].duration == a[i].duration && D.SymbolAt(b, i) == D.SymbolAt(a, i)
  {
    assert D.Later(a[i], b[i]);
  }

  lemma {:induction false} DeclsElaborated(s: D.State, ds: seq<Declaration>, final: seq<D.Sym>)
    requires Sound(s) && |s.scopes| > 1 && A.DeclsParsed(ds) && A.DeclsIn(s, ds).Some?
    requires D.Evolves(A.DeclsIn(s, ds).value.0.symbols, final)
    ensures var (s', xs) := A.DeclsIn(s, ds).value;
            && Onward(s, s') && EnvOf(s'.scopes) == After(EnvOf(s.scopes), ds, xs)
            && DeclsFrom(ds, xs, EnvOf(s.scopes), final)
            && Ordered(IdsOf(xs), |s.symbols|, final) && Count(IdsOf(xs), |s.symbols|) == |s'.symbols|
    decreases |ds|
  {
    hide Sound, D.Declared, D.Evolves, D.DeclarationOk, DeclFrom, EnvOf;
    if ds == [] {
      OnwardSame(s);
    } else {
      var d := D.Declared(s, ds[0]).value;
      var (s2, ys) := A.DeclsIn(d.0, ds[1..]).value;
      A.EvolvesSame(d.0.symbols);
      DeclaredBinds(s, ds[0], d.0.symbols);
      DeclsElaborated(d.0, ds[1..], final);
      D.EvolvesTrans(d.0.symbols, s2.symbols, final);
      DeclElaborated(s, ds[0], final);
      OnwardTrans(s, d.0, s2);
      var x := A.DeclOf(ds[0], d.1, d.0.symbols[d.1], d.2);
      var xs := A.DeclsIn(s, ds).value.1;
      assert xs == [x] + ys && xs[1..] == ys;
      assert IdsOf(xs)[0] == d.1 && IdsOf(xs)[1..] == IdsOf(ys);
    }
  }

  lemma DeclElaborated(s: D.State, d: Declaration, final: seq<D.Sym>)
    requires Sound(s) && |s.scopes| > 1 && D.DeclarationOk(d) && !d.isParameter && D.Declared(s, d).Some?
    requires D.Evolves(D.Declared(s, d).value.0.symbols, final)
    ensures var (s', i, e) := D.Declared(s, d).value;
            var x := A.DeclOf(d, i, s'.symbols[i], e);
            && Onward(s, s') && EnvOf(s'.scopes) == With(EnvOf(s.scopes), d.name, i) && x.sym.id == i
            && DeclFrom(d, x, EnvOf(s.scopes), final)
            && i <= |s.symbols| && |s'.symbols| == (if i < |s.symbols| then |s.symbols| else i + 1)
            && (i < |s.symbols| ==> i < |final| && !final[i].linkage.NoLinkage?)
  {
    hide Sound, D.Declared, D.DeclarationOk, Declares, InitFrom, InitOf, D.Evolves;
    var (s', i, e) := D.Declared(s, d).value;
    DeclaredBinds(s, d, final);
    LinkageStays(s'.symbols, final, i);
  }

  /** What a statement adds to the switch and the function around it: cases, defaults, labels and gotos. */
  datatype Parts = Parts(cases: seq<CaseRef>, dflts: seq<nat>, labels: seq<(string, nat)>, gotos: seq<string>)

  const NOTHING := Parts([], [], [], [])

  function PartsOf(x: Stmt): Parts {
    Parts(CaseList(x), DefaultsIn(x), A.LabelsIn(x), A.GotosIn(x))
  }

  function ItemParts(xs: seq<Stmt>): Parts {
    Parts(CaseListItems(xs), DefaultsInItems(xs), A.LabelsInItems(xs), A.GotosInItems(xs))
  }

  function Join(p: Parts, q: Parts): Parts {
    Parts(p.cases + q.cases, p.dflts + q.dflts, p.labels + q.labels, p.gotos + q.gotos)
  }

  /** The context after a statement with these parts. */
  function Moved(c: A.FnCtx, p: Parts): A.FnCtx {
    c.(cases := c.cases + p.cases, dflt := if c.dflt.None? && p.dflts != [] then Some(p.dflts[0]) else c.dflt,
       labels := A.AddLabels(c.labels, p.labels), gotos := c.gotos + p.gotos)
  }

  predicate FreshCases(prior: seq<CaseRef>, cs: seq<CaseRef>) {
    && (forall j, k :: 0 <= j < k < |cs| ==> cs[j].value != cs[k].value)
    && forall j, k :: 0 <= j < |prior| && 0 <= k < |cs| ==> prior[j].value != cs[k].value
  }

  /** They are all new. */
  predicate Room(c: A.FnCtx, p: Parts) {
    && FreshCases(c.cases, p.cases) && |p.dflts| + (if c.dflt.Some? then 1 else 0) <= 1
    && A.FreshLabels(c.labels, p.labels)
  }

  lemma CasesJoin(prior: seq<CaseRef>, a: seq<CaseRef>, b: seq<CaseRef>)
    ensures FreshCases(prior, a + b) <==> FreshCases(prior, a) && FreshCases(prior + a, b)
  {
    var ab := a + b;
    if FreshCases(prior, ab) {
      assert forall k :: 0 <= k < |a| ==> a[k] == ab[k];
      assert forall k :: 0 <= k < |b| ==> b[k] == ab[|a| + k];
    }
    if FreshCases(prior, a) && FreshCases(prior + a, b) {
      assert forall k :: 0 <= k < |a| ==> (prior + a)[|prior| + k] == a[k];
      assert forall k :: 0 <= k < |prior| ==> (prior + a)[k] == prior[k];
    }
  }

  /** One statement after another. */
  lemma Joined(c: A.FnCtx, p: Parts, q: Parts)
    ensures Moved(Moved(c, p), q) == Moved(c, Join(p, q))
    ensures Room(c, Join(p, q)) <==> Room(c, p) && Room(Moved(c, p), q)
  {
    hide FreshCases, A.FreshLabels, A.AddLabels;
    CasesJoin(c.cases, p.cases, q.cases);
    A.LabelsJoin(c.labels, p.labels, q.labels);
    assert c.cases + p.cases + q.cases == c.cases + (p.cases + q.cases) && c.gotos + p.gotos + q.gotos == c.gotos + (p.gotos + q.gotos);
  }

  lemma NothingMoves(c: A.FnCtx)
    ensures Moved(c, NOTHING) == c && Room(c, NOTHING)
  {
    assert c.cases + [] == c.cases && c.gotos + [] == c.gotos;
  }

  lemma NothingJoins(p: Parts)
    ensures Join(NOTHING, p) == p && Join(p, NOTHING) == p
  {
    assert [] + p.cases == p.cases && [] + p.dflts == p.dflts && [] + p.labels == p.labels && [] + p.gotos == p.gotos;
  }

  /** The statements that 'break' and 'continue' leave do not count. */
  lemma MovedWithin(c: A.FnCtx, id: nat, p: Parts)
    ensures var b := c.(breakable := Some(id), loop := Some(id));
            && (Room(b, p) <==> Room(c, p)) && Moved(c, p) == Moved(b, p).(breakable := c.breakable, loop := c.loop)
  {
  }

  function PlaceOf(c: A.FnCtx): Place {
    Place(c.ret, c.sw, c.breakable, c.loop)
  }

  /** What analysing a statement comes to. */
  ghost predicate Elaborated(s: D.State, c: A.FnCtx, r: RStmt, s': D.State, c': A.FnCtx, x: Stmt, final: seq<D.Sym>) {
    && Onward(s, s') && c' == Moved(c, PartsOf(x)) && Room(c, PartsOf(x))
    && EnvOf(s'.scopes) == EnvAfter(r, x, EnvOf(s.scopes)) && (!r.SDecl? ==> s'.scopes == s.scopes)
    && StmtFrom(r, x, EnvOf(s.scopes), final, PlaceOf(c))
    && Ordered(IdsIn(x), |s.symbols|, final) && Count(IdsIn(x), |s.symbols|) == |s'.symbols|
  }

  ghost predicate ItemsElaborated(s: D.State, c: A.FnCtx, rs: seq<RStmt>, s': D.State, c': A.FnCtx, xs: seq<Stmt>, final: seq<D.Sym>) {
    && Onward(s, s') && c' == Moved(c, ItemParts(xs)) && Room(c, ItemParts(xs))
    && AllFrom(rs, xs, EnvOf(s.scopes), final, PlaceOf(c))
    && Ordered(IdsInItems(xs), |s.symbols|, final) && Count(IdsInItems(xs), |s.symbols|) == |s'.symbols|
  }

  lemma ElaboratedIs(s: D.State, c: A.FnCtx, r: RStmt, s': D.State, c': A.FnCtx, x: Stmt, final: seq<D.Sym>)
    requires Elaborated(s, c, r, s', c', x, final) && !r.SDecl?
    ensures Onward(s, s') && s'.scopes == s.scopes && c' == Moved(c, PartsOf(x)) && Room(c, PartsOf(x))
    ensures StmtFrom(r, x, EnvOf(s.scopes), final, PlaceOf(c))
    ensures Ordered(IdsIn(x), |s.symbols|, final) && Count(IdsIn(x), |s.symbols|) == |s'.symbols|
  {
  }

  /** Elaboration of statements: every part is there, in its place, under its own number. */
  lemma {:induction false} StmtElaborated(s: D.State, c: A.FnCtx, r: RStmt, final: seq<D.Sym>)
    requires Sound(s) && |s.scopes| > 1 && A.StmtParsed(r) && A.AnalyzeS(s, c, r).Some?
    requires D.Evolves(A.AnalyzeS(s, c, r).value.0.symbols, final)
    ensures var o := A.AnalyzeS(s, c, r).value; Elaborated(s, c, r, o.0, o.1, o.2, final)
    decreases r, 1
  {
    hide Elaborated, Sound, D.Evolves, A.AnalyzeS, Analysis.Parsed, A.StmtParsed;
    match r
    case SDecl(ds) => DeclStmtElaborated(s, c, r, final);
    case SBlock(_) => BlockElaborated(s, c, r, final);
    case SIf(_, _, _) => IfElaborated(s, c, r, final);
    case SFor(_, _, _, _, _) => ForElaborated(s, c, r, final);
    case SWhile(_, _, _) => LoopElaborated(s, c, r, final);
    case SDoWhile(_, _, _) => LoopElaborated(s, c, r, final);
    case SSwitch(_, _, _) => SwitchElaborated(s, c, r, final);
    case SCase(_, _, _) => CaseElaborated(s, c, r, final);
    case SDefault(_, _) => LabelledElaborated(s, c, r, final);
    case SLabel(_, _, _) => LabelledElaborated(s, c, r, final);
    case _ => LeafElaborated(s, c, r, final);
  }

  lemma LeafElaborated(s: D.State, c: A.FnCtx, r: RStmt, final: seq<D.Sym>)
    requires r.SNull? || r.SExpr? || r.SReturn? || r.SBreak? || r.SContinue? || r.SGoto?
    requires Sound(s) && A.AnalyzeS(s, c, r).Some? && s.scopes != []
    requires D.Evolves(A.AnalyzeS(s, c, r).value.0.symbols, final)
    ensures var o := A.AnalyzeS(s, c, r).value; Elaborated(s, c, r, o.0, o.1, o.2, final)
  {
    hide Sound, D.Evolves, A.ExprIn, Onward, EnvOf, ExprFrom, ConvertedFrom, A.Converted, Room, Agree;
    OnwardSame(s);
    NothingMoves(c);
    LaterAgree(s.symbols, final);
    if r.SExpr? { ExprElaborated(s, r.e, final); }
    if r.SReturn? && r.result.Some? { ExprElaborated(s, r.result.value, final); }
    if r.SGoto? { assert c.cases + [] == c.cases && Room(c, Parts([], [], [], [r.name])) by { GotoRoom(c, r.name); } }
  }

  lemma GotoRoom(c: A.FnCtx, name: string)
    ensures Room(c, Parts([], [], [], [name]))
  {
  }

  lemma DeclStmtElaborated(s: D.State, c: A.FnCtx, r: RStmt, final: seq<D.Sym>)
    requires r.SDecl? && Sound(s) && |s.scopes| > 1 && A.StmtParsed(r) && A.AnalyzeS(s, c, r).Some?
    requires D.Evolves(A.AnalyzeS(s, c, r).value.0.symbols, final)
    ensures var o := A.AnalyzeS(s, c, r).value; Elaborated(s, c, r, o.0, o.1, o.2, final)
  {
    hide Sound, D.Evolves, Onward, EnvOf, Room, DeclsFrom, A.DeclsIn, A.DeclsParsed, After, IdsOf, Ordered, Count;
    DeclsElaborated(s, r.decls, final);
    NothingMoves(c);
  }

  lemma {:induction false} BlockElaborated(s: D.State, c: A.FnCtx, r: RStmt, final: seq<D.Sym>)
    requires r.SBlock? && Sound(s) && |s.scopes| > 1 && A.StmtParsed(r) && A.AnalyzeS(s, c, r).Some?
    requires D.Evolves(A.AnalyzeS(s, c, r).value.0.symbols, final)
    ensures var o := A.AnalyzeS(s, c, r).value; Elaborated(s, c, r, o.0, o.1, o.2, final)
    decreases r, 0
  {
    hide Sound, D.Evolves, Onward, EnvOf, Room, Moved, AllFrom, A.AnalyzeAll, Ordered, Count;
    var o := A.AnalyzeAll(A.Pushed(s), c, r.items).value;
    PushSound(s);
    EnvPush(s);
    AllElaborated(A.Pushed(s), c, r.items, final);
    PopOnward(s, o.0);
  }

  lemma {:induction false} IfElaborated(s: D.State, c: A.FnCtx, r: RStmt, final: seq<D.Sym>)
    requires r.SIf? && Sound(s) && |s.scopes| > 1 && A.StmtParsed(r) && A.AnalyzeS(s, c, r).Some?
    requires D.Evolves(A.AnalyzeS(s, c, r).value.0.symbols, final)
    ensures var o := A.AnalyzeS(s, c, r).value; Elaborated(s, c, r, o.0, o.1, o.2, final)
    decreases r, 0
  {
    hide Sound, D.Evolves, EnvOf, A.ExprIn, ExprFrom, Elaborated, Room, Moved, Ordered, Count, Agree, Onward;
    var y := A.AnalyzeS(s, c, r.thn).value;
    A.EvolvesSame(y.0.symbols);
    StmtElaborated(s, c, r.thn, y.0.symbols);
    ElaboratedIs(s, c, r.thn, y.0, y.1, y.2, y.0.symbols);
    OnwardIs(s, y.0);
    var o := A.AnalyzeS(s, c, r).value;
    if r.els.Some? {
      var z := A.AnalyzeS(y.0, y.1, r.els.value).value;
      StmtElaborated(y.0, y.1, r.els.value, final);
      ElaboratedIs(y.0, y.1, r.els.value, z.0, z.1, z.2, final);
      OnwardIs(y.0, z.0);
      D.EvolvesTrans(y.0.symbols, z.0.symbols, final);
      OnwardTrans(s, y.0, z.0);
    }
    StmtElaborated(s, c, r.thn, final);
    ElaboratedIs(s, c, r.thn, y.0, y.1, y.2, final);
    D.EvolvesTrans(s.symbols, y.0.symbols, final);
    LaterAgree(s.symbols, final);
    ExprElaborated(s, r.cond, final);
    IfPut(s, c, r, y.0, y.1, o.0, o.1, o.2, final);
  }

  lemma OnwardIs(s: D.State, s': D.State)
    requires Onward(s, s')
    ensures Sound(s') && D.Evolves(s.symbols, s'.symbols) && |s'.scopes| == |s.scopes|
  {
    hide Sound;
  }

  lemma IfPut(s: D.State, c: A.FnCtx, r: RStmt, mid: D.State, m: A.FnCtx, s': D.State, c': A.FnCtx, x: Stmt, final: seq<D.Sym>)
    requires r.SIf? && x.If? && ExprFrom(r.cond, x.cond, EnvOf(s.scopes), final) && (r.els.None? <==> x.els.None?)
    requires StmtFrom(r.thn, x.thn, EnvOf(s.scopes), final, PlaceOf(c)) && m == Moved(c, PartsOf(x.thn)) && Room(c, PartsOf(x.thn))
    requires Ordered(IdsIn(x.thn), |s.symbols|, final) && Count(IdsIn(x.thn), |s.symbols|) == |mid.symbols|
    requires r.els.Some? ==>
               && StmtFrom(r.els.value, x.els.value, EnvOf(s.scopes), final, PlaceOf(m))
               && c' == Moved(m, PartsOf(x.els.value)) && Room(m, PartsOf(x.els.value))
               && Ordered(IdsIn(x.els.value), |mid.symbols|, final) && Count(IdsIn(x.els.value), |mid.symbols|) == |s'.symbols|
    requires r.els.None? ==> s' == mid && c' == m
    requires Onward(s, s') && s'.scopes == s.scopes
    ensures Elaborated(s, c, r, s', c', x, final)
  {
    hide Onward, EnvOf, ExprFrom, Room, Ordered, Count;
    var b := if x.els.Some? then PartsOf(x.els.value) else NOTHING;
    Joined(c, PartsOf(x.thn), b);
    NothingMoves(m);
    assert PartsOf(x) == Join(PartsOf(x.thn), b) by { NothingJoins(PartsOf(x.thn)); }
    OrderJoin(IdsIn(x.thn), if x.els.Some? then IdsIn(x.els.value) else [], |s.symbols|, final);
    NoIds(|mid.symbols|, final);
  }

  lemma NoIds(n: nat, syms: seq<D.Sym>)
    ensures Ordered([], n, syms) && Count([], n) == n
  {
  }

  lemma {:induction false} ForElaborated(s: D.State, c: A.FnCtx, r: RStmt, final: seq<D.Sym>)
    requires r.SFor? && Sound(s) && |s.scopes| > 1 && A.StmtParsed(r) && A.AnalyzeS(s, c, r).Some?
    requires D.Evolves(A.AnalyzeS(s, c, r).value.0.symbols, final)
    ensures var o := A.AnalyzeS(s, c, r).value; Elaborated(s, c, r, o.0, o.1, o.2, final)
    decreases r, 0
  {
    hide Sound, D.Evolves, EnvOf, A.ExprIn, ExprFrom, AllFrom, A.ForDeclsValid, ForObjects, StmtFrom, A.AnalyzeS, Entered, With, Room, Moved, Ordered, Count,
      Agree, PartsOf, IdsIn, EnvAfter;
    A.ForSpec(s, c, r);
    var p := A.Pushed(s);
    var x := A.AnalyzeS(p, c, r.init).value;
    var c2 := x.1.(breakable := Some(r.id), loop := Some(r.id));
    var y := A.AnalyzeS(x.0, c2, r.body).value;
    PushSound(s);
    EnvPush(s);
    A.EvolvesSame(x.0.symbols);
    StmtElaborated(p, c, r.init, x.0.symbols);
    StmtElaborated(x.0, c2, r.body, final);
    D.EvolvesTrans(x.0.symbols, y.0.symbols, final);
    StmtElaborated(p, c, r.init, final);
    LaterAgree(x.0.symbols, final);
    if r.test.Some? { ExprElaborated(x.0, r.test.value, final); }
    if r.post.Some? { ExprElaborated(x.0, r.post.value, final); }
    OnwardTrans(p, x.0, y.0);
    PopOnward(s, y.0);
    if r.init.SDecl? { ForAllowed(r.init.decls); }
    var o := A.AnalyzeS(s, c, r).value;
    HeadNothing(r.init, x.2, Entered(EnvOf(s.scopes)), final, PlaceOf(c));
    NothingMoves(c);
    MovedWithin(c, r.id, PartsOf(y.2));
    OrderJoin(IdsIn(x.2), IdsIn(y.2), |s.symbols|, final);
    ForPut(r, o.2, EnvOf(s.scopes), final, PlaceOf(c));
  }

  /** The head of a 'for' holds no label and no jump. */
  lemma HeadNothing(r: RStmt, x: Stmt, env: Env, syms: seq<D.Sym>, k: Place)
    requires (r.SNull? || r.SExpr? || r.SDecl?) && StmtFrom(r, x, env, syms, k)
    ensures PartsOf(x) == NOTHING && (x.Null? || x.ExprStmt? || x.DeclStmt?)
  {
    hide ExprFrom, DeclsFrom;
  }

  lemma ForPut(r: RStmt, x: Stmt, env: Env, syms: seq<D.Sym>, k: Place)
    requires r.SFor? && x.For? && x.id == r.id && StmtFrom(r.init, x.init, Entered(env), syms, k)
    requires r.init.SDecl? ==> ForObjects(r.init.decls)
    requires PartsOf(x.init) == NOTHING
    requires var inner := EnvAfter(r.init, x.init, Entered(env));
             OptFrom(r.test, x.test, inner, syms) && OptFrom(r.post, x.post, inner, syms) && StmtFrom(r.body, x.body, inner, syms, InLoop(k, r.id))
    ensures StmtFrom(r, x, env, syms, k) && EnvAfter(r, x, env) == env
    ensures PartsOf(x) == PartsOf(x.body) && IdsIn(x) == IdsIn(x.init) + IdsIn(x.body)
  {
    hide ExprFrom, AllFrom;
    assert A.GotosIn(x) == [] + A.GotosIn(x.body) == A.GotosIn(x.body);
  }

  lemma ForAllowed(ds: seq<Declaration>)
    requires A.ForDeclsValid(ds)
    ensures ForObjects(ds)
  {
  }

  lemma {:induction false} LoopElaborated(s: D.State, c: A.FnCtx, r: RStmt, final: seq<D.Sym>)
    requires (r.SWhile? || r.SDoWhile?) && Sound(s) && |s.scopes| > 1 && A.StmtParsed(r) && A.AnalyzeS(s, c, r).Some?
    requires D.Evolves(A.AnalyzeS(s, c, r).value.0.symbols, final)
    ensures var o := A.AnalyzeS(s, c, r).value; Elaborated(s, c, r, o.0, o.1, o.2, final)
    decreases r, 0
  {
    hide Sound, D.Evolves, EnvOf, A.ExprIn, ExprFrom, AllFrom, Room, Moved, Ordered, Count, Agree;
    var p := A.Pushed(s);
    var c2 := c.(breakable := Some(r.id), loop := Some(r.id));
    var y := A.AnalyzeS(p, c2, r.body).value;
    PushSound(s);
    EnvPush(s);
    StmtElaborated(p, c2, r.body, final);
    D.EvolvesTrans(p.symbols, y.0.symbols, final);
    LaterAgree(p.symbols, final);
    ExprElaborated(p, r.cond, final);
    MovedWithin(c, r.id, PartsOf(y.2));
    PopOnward(s, y.0);
  }

  lemma {:induction false} SwitchElaborated(s: D.State, c: A.FnCtx, r: RStmt, final: seq<D.Sym>)
    requires r.SSwitch? && Sound(s) && |s.scopes| > 1 && A.StmtParsed(r) && A.AnalyzeS(s, c, r).Some?
    requires D.Evolves(A.AnalyzeS(s, c, r).value.0.symbols, final)
    ensures var o := A.AnalyzeS(s, c, r).value; Elaborated(s, c, r, o.0, o.1, o.2, final)
    decreases r, 0
  {
    hide Sound, D.Evolves, EnvOf, A.ExprIn, ExprFrom, AllFrom, Room, Moved, Ordered, Count, Agree, SwitchFrom;
    var x := A.ExprIn(s, r.cond).value;
    var c2 := c.(breakable := Some(r.id), sw := Some(TypeOf(x)), cases := [], dflt := None);
    var y := A.AnalyzeS(s, c2, r.body).value;
    StmtElaborated(s, c2, r.body, final);
    D.EvolvesTrans(s.symbols, y.0.symbols, final);
    LaterAgree(s.symbols, final);
    ExprElaborated(s, r.cond, final);
    SwitchPut(c, r.id, x, y.1, A.AnalyzeS(s, c, r).value.2);
  }

  /** The switch keeps its cases and default to itself. */
  lemma SwitchPut(c: A.FnCtx, id: nat, cond: Expr, c2: A.FnCtx, x: Stmt)
    requires x.Switch? && x.cond == cond && IsArithmetic(TypeOf(cond)) && x.cases == c2.cases && x.dflt == c2.dflt
    requires var b := c.(breakable := Some(id), sw := Some(TypeOf(cond)), cases := [], dflt := None);
             c2 == Moved(b, PartsOf(x.body)) && Room(b, PartsOf(x.body))
    ensures SwitchFrom(x) && Room(c, PartsOf(x))
    ensures Moved(c, PartsOf(x)) == c2.(breakable := c.breakable, sw := c.sw, cases := c.cases, dflt := c.dflt)
  {
    hide CaseList, DefaultsIn, A.LabelsIn, A.GotosIn, A.FreshLabels, A.AddLabels;
    SwitchParts(x);
    assert [] + CaseList(x.body) == CaseList(x.body) && c.cases + [] == c.cases;
  }

  lemma SwitchParts(x: Stmt)
    requires x.Switch?
    ensures PartsOf(x) == Parts([], [], A.LabelsIn(x.body), A.GotosIn(x.body))
  {
  }

  lemma {:induction false} CaseElaborated(s: D.State, c: A.FnCtx, r: RStmt, final: seq<D.Sym>)
    requires r.SCase? && Sound(s) && |s.scopes| > 1 && A.StmtParsed(r) && A.AnalyzeS(s, c, r).Some?
    requires D.Evolves(A.AnalyzeS(s, c, r).value.0.symbols, final)
    ensures var o := A.AnalyzeS(s, c, r).value; Elaborated(s, c, r, o.0, o.1, o.2, final)
    decreases r, 0
  {
    hide Sound, D.Evolves, EnvOf, A.ExprIn, ConvertedFrom, ExprFrom, AllFrom, A.Converted, Fold, Room, Ordered, Count, Agree, Onward, A.HasCaseValue;
    var v := A.CaseIn(s, c, r.e).value;
    var c2 := c.(cases := c.cases + [CaseRef(v.1, r.id)]);
    var y := A.AnalyzeS(s, c2, r.stmt).value;
    StmtElaborated(s, c2, r.stmt, final);
    OnwardIs(s, y.0);
    D.EvolvesTrans(s.symbols, y.0.symbols, final);
    LaterAgree(s.symbols, final);
    ExprElaborated(s, r.e, final);
    CaseRoom(c, CaseRef(v.1, r.id));
    LabelledPut(c, Parts([CaseRef(v.1, r.id)], [], [], []), y.2, A.AnalyzeS(s, c, r).value.2);
  }

  lemma CaseRoom(c: A.FnCtx, v: CaseRef)
    ensures Room(c, Parts([v], [], [], [])) <==> !A.HasCaseValue(c.cases, v.value)
    ensures Moved(c, Parts([v], [], [], [])) == c.(cases := c.cases + [v])
  {
    assert c.gotos + [] == c.gotos && [v][0] == v;
    if A.HasCaseValue(c.cases, v.value) { assert !FreshCases(c.cases, [v]); }
  }

  /** A labelled statement. */
  lemma LabelledPut(c: A.FnCtx, p: Parts, b: Stmt, x: Stmt)
    requires if x.Case? then x.stmt == b && p == Parts([CaseRef(x.value, x.id)], [], [], [])
             else if x.Default? then x.stmt == b && p == Parts([], [x.id], [], [])
             else x.Label? && x.stmt == b && p == Parts([], [], [(x.name, x.id)], [])
    ensures PartsOf(x) == Join(p, PartsOf(b)) && Moved(Moved(c, p), PartsOf(b)) == Moved(c, PartsOf(x))
    ensures Room(c, PartsOf(x)) <==> Room(c, p) && Room(Moved(c, p), PartsOf(b))
  {
    hide Room, Moved;
    Joined(c, p, PartsOf(b));
    assert [] + A.LabelsIn(b) == A.LabelsIn(b) && [] + A.GotosIn(b) == A.GotosIn(b) && [] + CaseList(b) == CaseList(b)
           && [] + DefaultsIn(b) == DefaultsIn(b);
  }

  lemma {:induction false} LabelledElaborated(s: D.State, c: A.FnCtx, r: RStmt, final: seq<D.Sym>)
    requires (r.SDefault? || r.SLabel?) && Sound(s) && |s.scopes| > 1 && A.StmtParsed(r) && A.AnalyzeS(s, c, r).Some?
    requires D.Evolves(A.AnalyzeS(s, c, r).value.0.symbols, final)
    ensures var o := A.AnalyzeS(s, c, r).value; Elaborated(s, c, r, o.0, o.1, o.2, final)
    decreases r, 0
  {
    hide Sound, D.Evolves, EnvOf, AllFrom, Onward, Room, Moved, Ordered, Count;
    if r.SDefault? {
      var c2 := c.(dflt := Some(r.id));
      StmtElaborated(s, c2, r.stmt, final);
      DefaultRoom(c, r.id);
      LabelledPut(c, Parts([], [r.id], [], []), A.AnalyzeS(s, c2, r.stmt).value.2, A.AnalyzeS(s, c, r).value.2);
    } else {
      var c2 := c.(labels := c.labels[r.name := r.id]);
      StmtElaborated(s, c2, r.stmt, final);
      LabelRoom(c, r.name, r.id);
      LabelledPut(c, Parts([], [], [(r.name, r.id)], []), A.AnalyzeS(s, c2, r.stmt).value.2, A.AnalyzeS(s, c, r).value.2);
    }
  }

  lemma DefaultRoom(c: A.FnCtx, id: nat)
    ensures Room(c, Parts([], [id], [], [])) <==> c.dflt.None?
    ensures c.dflt.None? ==> Moved(c, Parts([], [id], [], [])) == c.(dflt := Some(id))
  {
    assert c.cases + [] == c.cases && c.gotos + [] == c.gotos;
  }

  lemma LabelRoom(c: A.FnCtx, name: string, id: nat)
    ensures Room(c, Parts([], [], [(name, id)], [])) <==> name !in c.labels
    ensures Moved(c, Parts([], [], [(name, id)], [])) == c.(labels := c.labels[name := id])
  {
    var l := [(name, id)];
    assert c.cases + [] == c.cases && c.gotos + [] == c.gotos && l[1..] == [];
    assert A.FreshLabels(c.labels, l) <==> name !in c.labels && A.FreshLabels(c.labels[name := id], l[1..]);
    assert A.AddLabels(c.labels, l) == A.AddLabels(c.labels[name := id], l[1..]);
  }

  lemma {:induction false} AllElaborated(s: D.State, c: A.FnCtx, rs: seq<RStmt>, final: seq<D.Sym>)
    requires Sound(s) && |s.scopes| > 1 && A.ItemsParsed(rs) && A.AnalyzeAll(s, c, rs).Some?
    requires D.Evolves(A.AnalyzeAll(s, c, rs).value.0.symbols, final)
    ensures var o := A.AnalyzeAll(s, c, rs).value; ItemsElaborated(s, c, rs, o.0, o.1, o.2, final)
    decreases rs, 0
  {
    hide Sound, D.Evolves, EnvOf, A.AnalyzeS, StmtFrom, A.StmtParsed, EnvAfter, IdsIn, Ordered, Count, Room, Moved;
    if rs == [] {
      OnwardSame(s);
      NothingMoves(c);
      NoIds(|s.symbols|, final);
    } else {
      var x := A.AnalyzeS(s, c, rs[0]).value;
      var y := A.AnalyzeAll(x.0, x.1, rs[1..]).value;
      A.EvolvesSame(x.0.symbols);
      StmtElaborated(s, c, rs[0], x.0.symbols);
      AllElaborated(x.0, x.1, rs[1..], final);
      D.EvolvesTrans(x.0.symbols, y.0.symbols, final);
      StmtElaborated(s, c, rs[0], final);
      OnwardTrans(s, x.0, y.0);
      ItemsPut(c, x.2, y.2, |s.symbols|, final);
      assert PlaceOf(x.1) == PlaceOf(c) by { SamePlace(c, PartsOf(x.2)); }
    }
  }

  lemma SamePlace(c: A.FnCtx, p: Parts)
    ensures PlaceOf(Moved(c, p)) == PlaceOf(c)
  {
  }

  lemma ItemsPut(c: A.FnCtx, x: Stmt, xs: seq<Stmt>, n: nat, syms: seq<D.Sym>)
    ensures ([x] + xs)[1..] == xs
    ensures ItemParts([x] + xs) == Join(PartsOf(x), ItemParts(xs)) && IdsInItems([x] + xs) == IdsIn(x) + IdsInItems(xs)
    ensures Moved(Moved(c, PartsOf(x)), ItemParts(xs)) == Moved(c, ItemParts([x] + xs))
    ensures Room(c, ItemParts([x] + xs)) <==> Room(c, PartsOf(x)) && Room(Moved(c, PartsOf(x)), ItemParts(xs))
    ensures Count(IdsInItems([x] + xs), n) == Count(IdsInItems(xs), Count(IdsIn(x), n))
    ensures Ordered(IdsInItems([x] + xs), n, syms) <==> Ordered(IdsIn(x), n, syms) && Ordered(IdsInItems(xs), Count(IdsIn(x), n), syms)
  {
    hide Room, Moved, Ordered, Count, CaseList, DefaultsIn, A.LabelsIn, A.GotosIn, IdsIn;
    var all := [x] + xs;
    assert all[0] == x && all[1..] == xs;
    Joined(c, PartsOf(x), ItemParts(xs));
    OrderJoin(IdsIn(x), IdsInItems(xs), n, syms);
  }

  lemma ResolveEnv(r: RStmt, s: Stmt, m: A.LabelMap, env: Env)
    ensures EnvAfter(r, R.Resolve(s, m), env) == EnvAfter(r, s, env)
  {
    hide After, R.ResolveItems;
  }

  /** Resolving jumps changes no declaration and no default. */
  lemma {:induction false} ResolveParts(s: Stmt, m: A.LabelMap)
    ensures DefaultsIn(R.Resolve(s, m)) == DefaultsIn(s) && IdsIn(R.Resolve(s, m)) == IdsIn(s)
    decreases s, 1
  {
    match s
    case Block(items) => ResolveItemParts(items, m);
    case If(_, a, b) => ResolveParts(a, m); if b.Some? { ResolveParts(b.value, m); }
    case For(_, i, _, _, b) => ResolveParts(i, m); ResolveParts(b, m);
    case While(_, _, b) => ResolveParts(b, m);
    case DoWhile(_, _, b) => ResolveParts(b, m);
    case Switch(_, _, b, _, _) => ResolveParts(b, m);
    case Case(_, _, _, b) => ResolveParts(b, m);
    case Default(_, b) => ResolveParts(b, m);
    case Label(_, _, b) => ResolveParts(b, m);
    case _ =>
  }

  lemma {:induction false} ResolveItemParts(items: seq<Stmt>, m: A.LabelMap)
    ensures var r := R.ResolveItems(items, m); DefaultsInItems(r) == DefaultsInItems(items) && IdsInItems(r) == IdsInItems(items)
    decreases items, 0
  {
    if items != [] {
      ResolveParts(items[0], m);
      ResolveItemParts(items[1..], m);
      var r := R.ResolveItems(items, m);
      assert r[0] == R.Resolve(items[0], m) && r[1..] == R.ResolveItems(items[1..], m);
    }
  }

  /** Resolving jumps moves nothing. */
  lemma {:induction false} ResolveFrom(r: RStmt, s: Stmt, m: A.LabelMap, env: Env, syms: seq<D.Sym>, k: Place)
    requires StmtFrom(r, s, env, syms, k)
    ensures StmtFrom(r, R.Resolve(s, m), env, syms, k)
    decreases r, 1
  {
    hide StmtFrom, R.Resolve;
    match r
    case SBlock(_) => ResolveBlockFrom(r, s, m, env, syms, k);
    case SIf(_, _, _) => ResolveIfFrom(r, s, m, env, syms, k);
    case SFor(_, _, _, _, _) => ResolveForFrom(r, s, m, env, syms, k);
    case SWhile(_, _, _) => ResolveLoopFrom(r, s, m, env, syms, k);
    case SDoWhile(_, _, _) => ResolveLoopFrom(r, s, m, env, syms, k);
    case SSwitch(_, _, _) => ResolveSwitchFrom(r, s, m, env, syms, k);
    case SCase(_, _, _) => ResolveLabelledFrom(r, s, m, env, syms, k);
    case SDefault(_, _) => ResolveLabelledFrom(r, s, m, env, syms, k);
    case SLabel(_, _, _) => ResolveLabelledFrom(r, s, m, env, syms, k);
    case _ => ResolveLeafFrom(r, s, m, env, syms, k);
  }

  lemma ResolveLeafFrom(r: RStmt, s: Stmt, m: A.LabelMap, env: Env, syms: seq<D.Sym>, k: Place)
    requires r.SNull? || r.SExpr? || r.SDecl? || r.SReturn? || r.SBreak? || r.SContinue? || r.SGoto?
    requires StmtFrom(r, s, env, syms, k)
    ensures StmtFrom(r, R.Resolve(s, m), env, syms, k)
  {
    hide ExprFrom, ConvertedFrom, DeclsFrom, AllFrom, R.ResolveItems;
  }

  lemma {:induction false} ResolveBlockFrom(r: RStmt, s: Stmt, m: A.LabelMap, env: Env, syms: seq<D.Sym>, k: Place)
    requires r.SBlock? && StmtFrom(r, s, env, syms, k)
    ensures StmtFrom(r, R.Resolve(s, m), env, syms, k)
    decreases r, 0
  {
    hide AllFrom, R.ResolveItems;
    ResolveAllFrom(r.items, s.items, m, Entered(env), syms, k);
  }

  lemma {:induction false} ResolveLoopFrom(r: RStmt, s: Stmt, m: A.LabelMap, env: Env, syms: seq<D.Sym>, k: Place)
    requires (r.SWhile? || r.SDoWhile?) && StmtFrom(r, s, env, syms, k)
    ensures StmtFrom(r, R.Resolve(s, m), env, syms, k)
    decreases r, 0
  {
    hide ExprFrom, AllFrom, R.ResolveItems;
    ResolveFrom(r.body, s.body, m, Entered(env), syms, InLoop(k, r.id));
  }

  lemma {:induction false} ResolveSwitchFrom(r: RStmt, s: Stmt, m: A.LabelMap, env: Env, syms: seq<D.Sym>, k: Place)
    requires r.SSwitch? && StmtFrom(r, s, env, syms, k)
    ensures StmtFrom(r, R.Resolve(s, m), env, syms, k)
    decreases r, 0
  {
    hide ExprFrom, AllFrom, R.ResolveItems, CaseList, DefaultsIn, A.DistinctCases;
    ResolveFrom(r.body, s.body, m, env, syms, InSwitch(k, r.id, TypeOf(s.cond)));
    R.SameParts(s.body, m);
    ResolveParts(s.body, m);
  }

  lemma {:induction false} ResolveLabelledFrom(r: RStmt, s: Stmt, m: A.LabelMap, env: Env, syms: seq<D.Sym>, k: Place)
    requires (r.SCase? || r.SDefault? || r.SLabel?) && StmtFrom(r, s, env, syms, k)
    ensures StmtFrom(r, R.Resolve(s, m), env, syms, k)
    decreases r, 0
  {
    hide ConvertedFrom, AllFrom, R.ResolveItems, Fold;
    ResolveFrom(r.stmt, s.stmt, m, env, syms, k);
  }

  lemma {:induction false} ResolveIfFrom(r: RStmt, s: Stmt, m: A.LabelMap, env: Env, syms: seq<D.Sym>, k: Place)
    requires r.SIf? && StmtFrom(r, s, env, syms, k)
    ensures StmtFrom(r, R.Resolve(s, m), env, syms, k)
    decreases r, 0
  {
    hide ExprFrom, AllFrom, EnvAfter, R.ResolveItems;
    ResolveFrom(r.thn, s.thn, m, env, syms, k);
    if r.els.Some? { ResolveFrom(r.els.value, s.els.value, m, env, syms, k); }
  }

  lemma {:induction false} ResolveForFrom(r: RStmt, s: Stmt, m: A.LabelMap, env: Env, syms: seq<D.Sym>, k: Place)
    requires r.SFor? && StmtFrom(r, s, env, syms, k)
    ensures StmtFrom(r, R.Resolve(s, m), env, syms, k)
    decreases r, 0
  {
    hide ExprFrom, OptFrom, AllFrom, EnvAfter, R.ResolveItems;
    ResolveEnv(r.init, s.init, m, Entered(env));
    ResolveFrom(r.init, s.init, m, Entered(env), syms, k);
    ResolveFrom(r.body, s.body, m, EnvAfter(r.init, s.init, Entered(env)), syms, InLoop(k, r.id));
  }

  lemma {:induction false} ResolveAllFrom(rs: seq<RStmt>, ss: seq<Stmt>, m: A.LabelMap, env: Env, syms: seq<D.Sym>, k: Place)
    requires AllFrom(rs, ss, env, syms, k)
    ensures AllFrom(rs, R.ResolveItems(ss, m), env, syms, k)
    decreases rs, 0
  {
    hide StmtFrom, EnvAfter, R.Resolve;
    if rs != [] {
      ResolveEnv(rs[0], ss[0], m, env);
      ResolveFrom(rs[0], ss[0], m, env, syms, k);
      ResolveAllFrom(rs[1..], ss[1..], m, EnvAfter(rs[0], ss[0], env), syms, k);
      var xs := R.ResolveItems(ss, m);
      assert xs[0] == R.Resolve(ss[0], m) && xs[1..] == R.ResolveItems(ss[1..], m);
    }
  }

  predicate ParamsReady(params: seq<Declaration>) {
    forall k :: 0 <= k < |params| ==> ParamReady(params[k])
  }

  /** A parameter as analysis accepts it. */
  predicate ParamReady(p: Declaration) {
    && p.isParameter && (p.name == "" || IsIdentifier(p.name)) && p.init.None? && !p.isFunction && !p.ty.Function?
    && D.ParamValid(p)
  }

  lemma {:induction false} ParamsElaborated(s: D.State, params: seq<Declaration>, n: nat, final: seq<D.Sym>)
    requires Sound(s) && |s.scopes| > 1 && ParamsReady(params) && n <= |params| && U.ParamsIn(s, params, n).Some?
    requires D.Evolves(U.ParamsIn(s, params, n).value.0.symbols, final)
    ensures var (s', ps) := U.ParamsIn(s, params, n).value;
            && Onward(s, s') && |ps| == n && EnvOf(s'.scopes) == ParamEnv(EnvOf(s.scopes), params, ps)
            && ParamsFrom(params, ps, EnvOf(s.scopes), final)
            && Ordered(ParamIds(ps), |s.symbols|, final) && Count(ParamIds(ps), |s.symbols|) == |s'.symbols|
  {
    hide Sound, D.Evolves, EnvOf, D.Bound, Declares, ParamReady;
    if n == 0 {
      OnwardSame(s);
    } else {
      var (s1, qs) := U.ParamsIn(s, params, n - 1).value;
      var p := params[n - 1];
      var (s2, i) := D.Bound(s1, p).value;
      A.EvolvesSame(s1.symbols);
      ParamsElaborated(s, params, n - 1, s1.symbols);
      ParamBinds(s1, p, final);
      D.EvolvesTrans(s1.symbols, s2.symbols, final);
      ParamsElaborated(s, params, n - 1, final);
      OnwardTrans(s, s1, s2);
      var ps := U.ParamsIn(s, params, n).value.1;
      assert ps[..n - 1] == qs;
      OrderJoin(ParamIds(qs), [i], |s.symbols|, final);
      OneId(i, |s1.symbols|, final);
    }
  }

  lemma OneId(i: nat, n: nat, syms: seq<D.Sym>)
    requires i <= n && (i < n ==> i < |syms| && !syms[i].linkage.NoLinkage?)
    ensures Ordered([i], n, syms) && Count([i], n) == if i < n then n else i + 1
  {
    assert [i][1..] == [];
  }

  lemma ParamBinds(s: D.State, p: Declaration, final: seq<D.Sym>)
    requires Sound(s) && |s.scopes| > 1 && ParamReady(p) && p.name != "" && D.Bound(s, p).Some?
    requires D.Evolves(D.Bound(s, p).value.0.symbols, final)
    ensures var (s', i) := D.Bound(s, p).value;
            && Onward(s, s') && EnvOf(s'.scopes) == With(EnvOf(s.scopes), p.name, i) && i < |s'.symbols| <= |final|
            && Declares(p, i, EnvOf(s.scopes), false, final)
            && i <= |s.symbols| && |s'.symbols| == (if i < |s.symbols| then |s.symbols| else i + 1)
            && (i < |s.symbols| ==> !final[i].linkage.NoLinkage?)
            && D.SymbolAt(final, i) == Symbol(i, p.ty, s'.symbols[i].duration.Static?)
  {
    hide Sound, D.Bound, D.Evolves, EnvOf, Declares, IsIdentifier;
    var (s', i) := D.Bound(s, p).value;
    BoundBinds(s, p);
    SymbolStays(s, s', p, i, final);
    LinkageStays(s'.symbols, final, i);
    EvolvesLonger(s'.symbols, final);
  }

  lemma EvolvesLonger(a: seq<D.Sym>, b: seq<D.Sym>)
    requires D.Evolves(a, b)
    ensures |a| <= |b|
  {
  }

  /** A function definition elaborated. */
  lemma FunctionElaborated(s: D.State, i: Item, final: seq<D.Sym>)
    requires Sound(s) && |s.scopes| == 1 && U.ItemParsed(i) && Defines(i) && U.FunctionIn(s, i).Some?
    requires D.Evolves(U.FunctionIn(s, i).value.0.symbols, final)
    ensures var (s', f) := U.FunctionIn(s, i).value;
            && Onward(s, s') && EnvOf(s'.scopes) == With(EnvOf(s.scopes), i.decl.name, f.id) && FnFrom(i, f, EnvOf(s.scopes), final)
            && Ordered(FnIds(f), |s.symbols|, final) && Count(FnIds(f), |s.symbols|) == |s'.symbols|
  {
    hide Sound, D.Evolves, EnvOf, D.Declared, Declares, U.ParamsIn, A.AnalyzeAll, R.Known, AllFrom, ParamsReady, A.ItemsParsed, D.DeclarationOk,
      InitFrom, InitOf, JumpsFrom, Ordered, Count, Room, Moved, BoundTo, Onward, ParamEnv, ParamsFrom;
    var d := D.Declared(s, i.decl).value;
    var p := A.Pushed(d.0);
    var ps := U.ParamsIn(p, i.decl.params, |i.decl.params|).value;
    var b := A.AnalyzeAll(ps.0, U.NewCtx(i.decl.ty.ret), i.body).value;
    A.EvolvesSame(d.0.symbols);
    FnBinds(s, i.decl, d.0.symbols);
    PushSound(d.0);
    EnvPush(d.0);
    ParamsAccepted(s, i.decl);
    A.EvolvesSame(ps.0.symbols);
    ParamsElaborated(p, i.decl.params, |i.decl.params|, ps.0.symbols);
    OnwardIs(p, ps.0);
    AllElaborated(ps.0, U.NewCtx(i.decl.ty.ret), i.body, final);
    OnwardIs(ps.0, b.0);
    D.EvolvesTrans(ps.0.symbols, b.0.symbols, final);
    ParamsElaborated(p, i.decl.params, |i.decl.params|, final);
    D.EvolvesTrans(d.0.symbols, ps.0.symbols, final);
    FnBinds(s, i.decl, final);
    OnwardTrans(p, ps.0, b.0);
    PopOnward(d.0, b.0);
    OnwardTrans(s, d.0, A.Popped(b.0));
    var f := U.FunctionIn(s, i).value.1;
    BodyElaborated(i, f, b.2, b.1, ParamEnv(Entered(EnvOf(d.0.scopes)), i.decl.params, ps.1), final);
    FnIdsPut(f, |s.symbols|, final);
    OneId(f.id, |s.symbols|, final);
  }

  /** The symbols that a function definition declares. */
  function FnIds(f: Fn): seq<nat> {
    [f.id] + ParamIds(f.params) + IdsIn(f.body)
  }

  lemma FnIdsPut(f: Fn, n: nat, syms: seq<D.Sym>)
    ensures Count(FnIds(f), n) == Count(IdsIn(f.body), Count(ParamIds(f.params), Count([f.id], n)))
    ensures Ordered(FnIds(f), n, syms) <==>
              && Ordered([f.id], n, syms) && Ordered(ParamIds(f.params), Count([f.id], n), syms)
              && Ordered(IdsIn(f.body), Count(ParamIds(f.params), Count([f.id], n)), syms)
  {
    hide Ordered, Count;
    OrderJoin([f.id] + ParamIds(f.params), IdsIn(f.body), n, syms);
    OrderJoin([f.id], ParamIds(f.params), n, syms);
  }

  /** The declaration of the function itself. */
  lemma FnBinds(s: D.State, d: Declaration, final: seq<D.Sym>)
    requires Sound(s) && s.scopes != [] && D.DeclarationOk(d) && !d.isParameter && D.Declared(s, d).Some?
    requires D.Evolves(D.Declared(s, d).value.0.symbols, final)
    ensures var (s', i, e) := D.Declared(s, d).value;
            && Onward(s, s') && EnvOf(s'.scopes) == With(EnvOf(s.scopes), d.name, i) && Sound(s') && |s'.scopes| == |s.scopes|
            && Declares(d, i, EnvOf(s.scopes), |s.scopes| == 1, final) && InitFrom(d, i, EnvOf(s'.scopes), final)
            && i <= |s.symbols| && |s'.symbols| == (if i < |s.symbols| then |s.symbols| else i + 1)
            && (i < |s.symbols| ==> i < |final| && !final[i].linkage.NoLinkage?)
  {
    hide Sound, D.Declared, D.DeclarationOk, Declares, InitFrom, InitOf, D.Evolves;
    DeclaredBinds(s, d, final);
    var (s', i, e) := D.Declared(s, d).value;
    LinkageStays(s'.symbols, final, i);
  }

  lemma BodyElaborated(i: Item, f: Fn, items: seq<Stmt>, c: A.FnCtx, env: Env, final: seq<D.Sym>)
    requires f.body == R.Resolve(Block(items), c.labels) && AllFrom(i.body, items, env, final, Place(f.ret, None, None, None))
    requires c == Moved(U.NewCtx(f.ret), ItemParts(items)) && Room(U.NewCtx(f.ret), ItemParts(items)) && R.Known(c.gotos, c.labels)
    ensures f.body.Block? && AllFrom(i.body, f.body.items, env, final, Place(f.ret, None, None, None)) && JumpsFrom(f.body)
    ensures IdsIn(f.body) == IdsInItems(items)
  {
    hide AllFrom, IdsInItems, R.ResolveItems, R.Resolve, FreshCases, A.FreshLabels, A.AddLabels, A.LabelsInItems, A.GotosInItems, TargetsIn;
    var x := Block(items);
    assert A.LabelsIn(x) == A.LabelsInItems(items) && A.GotosIn(x) == A.GotosInItems(items) && IdsIn(x) == IdsInItems(items);
    assert [] + A.GotosIn(x) == A.GotosIn(x);
    assert f.body.Block? && f.body.items == R.ResolveItems(items, c.labels) by { BlockResolved(items, c.labels); }
    ResolveAllFrom(i.body, items, c.labels, env, final, Place(f.ret, None, None, None));
    ResolveParts(x, c.labels);
    R.SameParts(x, c.labels);
    LabelsDiffer(map[], A.LabelsIn(x));
    forall k | 0 <= k < |TargetsIn(f.body)| ensures TargetsIn(f.body)[k] in A.LabelsIn(x) {
      TargetsAre(x, c.labels);
      var n := A.GotosIn(x)[k];
      var j := R.LabelDefined(map[], A.LabelsIn(x), n);
      R.LabelEntered(map[], A.LabelsIn(x), j);
    }
  }

  lemma BlockResolved(items: seq<Stmt>, m: A.LabelMap)
    ensures R.Resolve(Block(items), m) == Block(R.ResolveItems(items, m))
  {
  }

  /** Labels are fresh exactly if they are new and different. */
  lemma {:induction false} LabelsDiffer(m: A.LabelMap, ls: seq<(string, nat)>)
    ensures A.FreshLabels(m, ls) <==>
              && (forall k :: 0 <= k < |ls| ==> ls[k].0 !in m)
              && forall j, k :: 0 <= j < k < |ls| ==> ls[j].0 != ls[k].0
    decreases |ls|
  {
    if ls != [] {
      LabelsDiffer(m[ls[0].0 := ls[0].1], ls[1..]);
      if A.FreshLabels(m, ls) {
        forall j, k | 0 <= j < k < |ls| ensures ls[j].0 != ls[k].0 && ls[k].0 !in m {
          assert ls[1..][k - 1] == ls[k];
          if j > 0 { assert ls[1..][j - 1] == ls[j]; }
        }
      }
    }
  }

  /** A resolved goto goes where the table says. */
  lemma {:induction false} TargetsAre(s: Stmt, m: A.LabelMap)
    ensures var ts, gs := TargetsIn(R.Resolve(s, m)), A.GotosIn(s);
            |ts| == |gs| && forall k :: 0 <= k < |ts| ==> ts[k] == (gs[k], if gs[k] in m then m[gs[k]] else 0)
    decreases s, 1
  {
    match s
    case Block(items) => ItemTargetsAre(items, m);
    case If(_, a, b) => TargetsAre(a, m); if b.Some? { TargetsAre(b.value, m); }
    case For(_, i, _, _, b) => TargetsAre(i, m); TargetsAre(b, m);
    case While(_, _, b) => TargetsAre(b, m);
    case DoWhile(_, _, b) => TargetsAre(b, m);
    case Switch(_, _, b, _, _) => TargetsAre(b, m);
    case Case(_, _, _, b) => TargetsAre(b, m);
    case Default(_, b) => TargetsAre(b, m);
    case Label(_, _, b) => TargetsAre(b, m);
    case _ =>
  }

  lemma {:induction false} ItemTargetsAre(items: seq<Stmt>, m: A.LabelMap)
    ensures var ts, gs := TargetsInItems(R.ResolveItems(items, m)), A.GotosInItems(items);
            |ts| == |gs| && forall k :: 0 <= k < |ts| ==> ts[k] == (gs[k], if gs[k] in m then m[gs[k]] else 0)
    decreases items, 0
  {
    if items != [] {
      TargetsAre(items[0], m);
      ItemTargetsAre(items[1..], m);
      var r := R.ResolveItems(items, m);
      assert r[0] == R.Resolve(items[0], m) && r[1..] == R.ResolveItems(items[1..], m);
    }
  }

  lemma ParamsAccepted(s: D.State, d: Declaration)
    requires s.scopes != [] && D.DeclarationOk(d) && d.isFunction && D.Declared(s, d).Some?
    ensures ParamsReady(d.params)
  {
    hide D.Bound, D.ValidDeclaration, IsIdentifier;
    assert D.ParamsValid(d.params);
    ParamsMade(d);
  }

  lemma ParamsMade(d: Declaration)
    requires D.DeclarationOk(d) && d.isFunction && D.ParamsValid(d.params)
    ensures ParamsReady(d.params)
  {
    hide IsIdentifier;
    forall k | 0 <= k < |d.params| ensures ParamReady(d.params[k]) {
      assert D.ParamParsed(d.params[k], d.ty.params[k]) && D.ParamValid(d.params[k]);
    }
  }

  lemma StartSound()
    ensures Sound(D.State([map[]], map[], [])) && EnvOf([map[]]) == Env(map[], map[])
  {
  }

  /** The symbol that a declaration of the unit declares. */
  function LastId(s: D.State, i: Item): nat
    requires s.scopes != []
  {
    if Defines(i) then
      var f := U.FunctionIn(s, i);
      if f.None? then 0 else f.value.1.id
    else
      var d := D.Declared(s, i.decl);
      if d.None? then 0 else d.value.1
  }

  /** The symbols of the first 'n' declarations of a unit. */
  function DeclIds(items: seq<Item>, n: nat): (ids: seq<nat>)
    requires n <= |items|
    ensures |ids| == n
  {
    if n == 0 then [] else
    var before := U.UnitIn(items, n - 1);
    DeclIds(items, n - 1) + [if before.None? then 0 else LastId(before.value.0, items[n - 1])]
  }

  /** Every unit that analysis accepts is elaborated. */
  lemma {:induction false} UnitElaborated(items: seq<Item>, n: nat, final: seq<D.Sym>)
    requires (forall k :: 0 <= k < |items| ==> U.ItemParsed(items[k])) && n <= |items| && U.UnitIn(items, n).Some?
    requires D.Evolves(U.UnitIn(items, n).value.0.symbols, final)
    ensures var (s, prog) := U.UnitIn(items, n).value;
            var ids := DeclIds(items, n);
            && Sound(s) && |s.scopes| == 1 && ProgramFrom(items[..n], ids, prog, final) && EnvOf(s.scopes) == FileEnv(items[..n], ids)
            && Ordered(UnitIds(items[..n], ids, prog), 0, final) && Count(UnitIds(items[..n], ids, prog), 0) == |s.symbols|
  {
    hide Sound, D.Evolves, EnvOf, D.Declared, U.FunctionIn, FnFrom, Declares, U.ItemParsed, InitFrom, Ordered, Count, ParamIds, IdsIn;
    if n == 0 {
      StartSound();
      NoIds(0, final);
    } else {
      var (s, prog) := U.UnitIn(items, n - 1).value;
      var (s', prog') := U.UnitIn(items, n).value;
      var i := items[n - 1];
      A.EvolvesSame(s.symbols);
      UnitElaborated(items, n - 1, s.symbols);
      if Defines(i) {
        FunctionElaborated(s, i, final);
        assert prog'[..|prog|] == prog;
      } else {
        ItemOk(i);
        FnBinds(s, i.decl, final);
        OneId(D.Declared(s, i.decl).value.1, |s.symbols|, final);
      }
      OnwardIs(s, s');
      D.EvolvesTrans(s.symbols, s'.symbols, final);
      UnitElaborated(items, n - 1, final);
      assert items[..n][..n - 1] == items[..n - 1];
      UnitIdsNext(items[..n], DeclIds(items, n - 1), prog, DeclIds(items, n)[n - 1], prog', final);
    }
  }

  lemma UnitIdsNext(items: seq<Item>, before: seq<nat>, prog: seq<Fn>, id: nat, prog': seq<Fn>, syms: seq<D.Sym>)
    requires items != [] && |before| == |items| - 1
    requires if Defines(items[|items| - 1]) then prog' != [] && prog'[..|prog'| - 1] == prog && prog'[|prog'| - 1].id == id else prog' == prog
    ensures var added := if Defines(items[|items| - 1]) then FnIds(prog'[|prog'| - 1]) else [id];
            var earlier := UnitIds(items[..|items| - 1], before, prog);
            && Count(UnitIds(items, before + [id], prog'), 0) == Count(added, Count(earlier, 0))
            && (Ordered(UnitIds(items, before + [id], prog'), 0, syms) <==> Ordered(earlier, 0, syms) && Ordered(added, Count(earlier, 0), syms))
  {
    hide Ordered, Count, ParamIds, IdsIn;
    var added := if Defines(items[|items| - 1]) then FnIds(prog'[|prog'| - 1]) else [id];
    assert (before + [id])[..|before|] == before;
    OrderJoin(UnitIds(items[..|items| - 1], before, prog), added, 0, syms);
  }

  lemma ItemOk(i: Item)
    requires U.ItemParsed(i)
    ensures D.DeclarationOk(i.decl) && !i.decl.isParameter
  {
  }

  /** What is defined or initialised is not defined or initialised again. */
  lemma DeclaredFirst(s: D.State, d: Declaration)
    requires |s.scopes| == 1 && D.DeclarationOk(d) && D.Declared(s, d).Some?
    ensures var i := D.Declared(s, d).value.1;
            i < |s.symbols| ==> (d.isFunction && d.hasBody ==> !s.symbols[i].defined) && (d.init.Some? ==> !s.symbols[i].init.InitConstant?)
  {
    hide D.DetermineLinkage, D.ParamsValid, D.ValidDeclaration, Analyze, Fold, IsIdentifier, D.ParamsParsed, D.Install, D.Find;
  }

  lemma DeclaresMarked(d: Declaration, i: nat, env: Env, syms: seq<D.Sym>)
    ensures Declares(d, i, env, true, syms) ==> i < |syms| && (d.isFunction && d.hasBody ==> syms[i].defined)
    ensures Declares(d, i, env, true, syms) && !d.isParameter ==> syms[i].duration.Static?
  {
  }

  lemma {:induction false} EarlierMarked(items: seq<Item>, ids: seq<nat>, prog: seq<Fn>, syms: seq<D.Sym>, j: nat)
    requires ProgramFrom(items, ids, prog, syms) && j < |items| && !items[j].decl.isParameter
    ensures ids[j] < |syms| && (Defines(items[j]) ==> syms[ids[j]].defined)
    ensures items[j].decl.init.Some? && !Defines(items[j]) ==> syms[ids[j]].init.InitConstant?
    decreases |items|
  {
    hide InitOf, Declares, AllFrom, ParamsFrom, JumpsFrom;
    var n := |items| - 1;
    DeclaresMarked(items[n].decl, ids[n], FileEnv(items[..n], ids[..n]), syms);
    if j < n {
      EarlierMarked(items[..n], ids[..n], if Defines(items[n]) then prog[..|prog| - 1] else prog, syms, j);
    }
  }

  lemma {:induction false} UnitOnce(items: seq<Item>, n: nat)
    requires (forall k :: 0 <= k < |items| ==> U.ItemParsed(items[k])) && n <= |items| && U.UnitIn(items, n).Some?
    ensures Once(items[..n], DeclIds(items, n))
  {
    hide D.Declared, U.FunctionIn, ProgramFrom, FileEnv, Sound, U.ItemParsed, Ordered, Count, UnitIds;
    if n > 0 {
      UnitOnce(items, n - 1);
      var (s, prog) := U.UnitIn(items, n - 1).value;
      var i := items[n - 1];
      A.EvolvesSame(s.symbols);
      UnitElaborated(items, n - 1, s.symbols);
      ItemOk(items[n - 1]);
      LastDeclared(s, i);
      var ids := DeclIds(items, n);
      forall j | 0 <= j < n - 1 && ((Defines(items[j]) && Defines(i)) || (items[j].decl.init.Some? && i.decl.init.Some?)) ensures ids[j] != ids[n - 1] {
        ItemOk(items[j]);
        EarlierMarked(items[..n - 1], DeclIds(items, n - 1), prog, s.symbols, j);
      }
    }
  }

  lemma LastDeclared(s: D.State, i: Item)
    requires |s.scopes| == 1 && D.DeclarationOk(i.decl) && (if Defines(i) then U.FunctionIn(s, i).Some? else D.Declared(s, i.decl).Some?)
    ensures var id := if Defines(i) then U.FunctionIn(s, i).value.1.id else D.Declared(s, i.decl).value.1;
            id < |s.symbols| ==> (Defines(i) ==> !s.symbols[id].defined) && (i.decl.init.Some? ==> !s.symbols[id].init.InitConstant?)
  {
    hide D.Declared, U.ParamsIn, A.AnalyzeAll, R.Known, D.DeclarationOk;
    DeclaredFirst(s, i.decl);
  }

  lemma LinkedOnce(s: D.State, final: seq<D.Sym>)
    requires Sound(s) && Agree(s.symbols, final) && |final| == |s.symbols|
    ensures OneLinked(final)
  {
    forall i | 0 <= i < |final| ensures Kin(s.symbols[i], final[i]) {}
  }

  /** And 'final' is its table. */
  lemma UnitSound(items: seq<Item>, final: seq<D.Sym>)
    requires (forall k :: 0 <= k < |items| ==> U.ItemParsed(items[k])) && U.UnitIn(items, |items|).Some?
    requires var s := U.UnitIn(items, |items|).value.0; D.Evolves(s.symbols, final) && |final| == |s.symbols|
    ensures ElaboratedBy(items, DeclIds(items, |items|), U.UnitIn(items, |items|).value.1, final)
  {
    hide D.Evolves, ProgramFrom, Once, OneLinked, Ordered, Count, Sound, U.ItemParsed, U.UnitIn;
    assert items[..|items|] == items;
    var s := U.UnitIn(items, |items|).value.0;
    UnitElaborated(items, |items|, final);
    UnitOnce(items, |items|);
    LaterAgree(s.symbols, final);
    LinkedOnce(s, final);
  }
}
