/** Every unit that has an elaboration is accepted, and becomes what it elaborates to. */
module Acceptance {
  import opened Arith
  import opened Ast
  import opened Syntax
  import opened Folding
  import opened Analysis
  import opened Program
  import opened StmtParts
  import opened Elaboration
  import opened ElaborationProof
  import D = Declarations
  import A = StmtAnalysis
  import R = Resolution
  import U = Units

  /** The symbols so far are those of the final table. */
  predicate Ready(s: D.State, final: seq<D.Sym>) {
    Agree(s.symbols, final) && OneLinked(final)
  }

  /** The next symbol, or one of the earlier ones that have linkage. */
  predicate NextId(i: nat, n: nat, final: seq<D.Sym>) {
    i <= n && (i < n ==> i < |final| && !final[i].linkage.NoLinkage?)
  }

  /** Of the symbols with linkage, none but 'i' has been defined or initialised between the two tables. */
  predicate CalmBut(a: seq<D.Sym>, b: seq<D.Sym>, final: seq<D.Sym>, i: nat, body: bool, init: bool) {
    forall j :: 0 <= j < |b| && j < |final| && !final[j].linkage.NoLinkage? ==>
      && (b[j].defined ==> (j < |a| && a[j].defined) || (j == i && body))
      && (b[j].init.InitConstant? ==> (j < |a| && a[j].init.InitConstant?) || (j == i && init))
  }

  predicate Calm(a: seq<D.Sym>, b: seq<D.Sym>, final: seq<D.Sym>) {
    CalmBut(a, b, final, 0, false, false)
  }

  lemma CalmTrans(a: seq<D.Sym>, b: seq<D.Sym>, c: seq<D.Sym>, final: seq<D.Sym>, i: nat, body: bool, init: bool)
    requires CalmBut(a, b, final, i, body, init) && Calm(b, c, final)
    ensures CalmBut(a, c, final, i, body, init)
  {
  }

  lemma CalmNone(a: seq<D.Sym>, b: seq<D.Sym>, final: seq<D.Sym>, i: nat)
    requires CalmBut(a, b, final, i, false, false)
    ensures Calm(a, b, final)
  {
  }

  /** What the standard constrains is all that analysis checks. */
  lemma AllowedChecked(d: Declaration, global: bool)
    requires Allowed(d, global) && D.DeclarationOk(d) && !d.isParameter
    ensures D.ValidDeclaration(d, global) && (d.isFunction ==> D.ParamsValid(d.params))
  {
    hide IsIdentifier;
    if d.isFunction {
      forall k | 0 <= k < |d.params| ensures !d.params[k].isFunction && D.ParamValid(d.params[k]) {
        assert D.ParamParsed(d.params[k], d.ty.params[k]) && ParamAllowed(d.params[k]);
      }
    }
  }

  lemma PriorIs(s: D.State, name: string, final: seq<D.Sym>)
    requires Sound(s) && Agree(s.symbols, final)
    ensures var p := D.SymAt(s, D.Find(s.scopes, name));
            PriorLinkage(name, EnvOf(s.scopes), final) == if p.Some? then p.value.linkage else D.NoLinkage
  {
    hide D.TableOk;
    FlatFind(s.scopes, name);
    EnvNames(s.scopes);
    D.TableFind(s.scopes, s.linked, s.symbols, name);
    var i := D.Find(s.scopes, name);
    if i.Some? { assert Kin(s.symbols[i.value], final[i.value]); }
  }

  /** Linkage and storage duration follow from the rules of the standard. */
  lemma LinkageIs(s: D.State, d: Declaration, i: nat, final: seq<D.Sym>)
    requires Sound(s) && Agree(s.symbols, final) && Declares(d, i, EnvOf(s.scopes), |s.scopes| == 1, final)
    requires d.isParameter ==> |s.scopes| != 1 && !d.isFunction
    ensures LinkOf(s, d) == final[i].linkage && D.DetermineDuration(d, |s.scopes| == 1) == final[i].duration
  {
    hide Sound, D.Find, EnvOf, Agree, ParamsAllowed, PriorLinkage, D.SymAt;
    PriorIs(s, d.name, final);
  }

  /** The symbol is found, or it is the next one. */
  lemma TopIs(s: D.State, d: Declaration, i: nat, final: seq<D.Sym>)
    requires Sound(s) && s.scopes != [] && Ready(s, final) && Declares(d, i, EnvOf(s.scopes), |s.scopes| == 1, final) && NextId(i, |s.symbols|, final)
    ensures var top := s.scopes[|s.scopes| - 1];
            && i < |final|
            && (d.name in top ==> top[d.name] == i && i < |s.symbols| && !final[i].linkage.NoLinkage?)
            && (!final[i].linkage.NoLinkage? && d.name in s.linked ==> s.linked[d.name] == i && i < |s.symbols|)
            && (final[i].linkage.NoLinkage? || d.name !in s.linked ==> d.name !in top ==> i == |s.symbols|)
  {
    hide Allowed, LinkageFrom;
    var top := s.scopes[|s.scopes| - 1];
    assert EnvOf(s.scopes).here == top;
    if d.name in top { assert D.NamesOk(top, s.symbols); }
    if !final[i].linkage.NoLinkage? && d.name in s.linked {
      var j := s.linked[d.name];
      assert Kin(s.symbols[j], final[j]);
      assert final[j].name == final[i].name;
    }
    if i < |s.symbols| { assert Kin(s.symbols[i], final[i]); }
  }

  lemma KinPut(a: seq<D.Sym>, i: nat, y: D.Sym, final: seq<D.Sym>)
    requires Agree(a, final) && i < |final| && i <= |a| && Kin(y, final[i])
    ensures if i < |a| then Agree(a[i := y], final) else Agree(a + [y], final)
  {
  }

  lemma BoundAccepted(s: D.State, d: Declaration, i: nat, final: seq<D.Sym>)
    requires Sound(s) && s.scopes != [] && Ready(s, final) && Declares(d, i, EnvOf(s.scopes), |s.scopes| == 1, final) && NextId(i, |s.symbols|, final)
    requires d.isParameter ==> |s.scopes| != 1 && !d.isFunction
    requires d.isFunction && d.hasBody && i < |s.symbols| ==> !s.symbols[i].defined
    ensures D.Bound(s, d).Some?
    ensures var (s', j) := D.Bound(s, d).value;
            && j == i && Agree(s'.symbols, final) && |s'.symbols| == (if i < |s.symbols| then |s.symbols| else i + 1)
            && CalmBut(s.symbols, s'.symbols, final, i, d.isFunction && d.hasBody, false)
            && (s'.symbols[i].init.InitConstant? ==> i < |s.symbols| && s.symbols[i].init.InitConstant?)
  {
    hide Sound, Agree, EnvOf, Allowed, LinkageFrom, D.DetermineLinkage, D.DetermineDuration, OneLinked, D.Install, D.IsTentative;
    TopIs(s, d, i, final);
    LinkageIs(s, d, i, final);
    MakeBound(s, d, i, final);
    var s' := D.Bound(s, d).value.0;
    KinPut(s.symbols, i, s'.symbols[i], final);
  }

  /** Binding, with the table it leaves. */
  lemma MakeBound(s: D.State, d: Declaration, i: nat, final: seq<D.Sym>)
    requires s.scopes != [] && Agree(s.symbols, final) && i <= |s.symbols| && i < |final|
    requires final[i].name == d.name && final[i].ty == d.ty && final[i].isFunction == d.isFunction
    requires LinkOf(s, d) == final[i].linkage && D.DetermineDuration(d, |s.scopes| == 1) == final[i].duration
    requires var top := s.scopes[|s.scopes| - 1];
             && (d.name in top ==> top[d.name] == i && i < |s.symbols| && !final[i].linkage.NoLinkage?)
             && (!final[i].linkage.NoLinkage? && d.name in s.linked ==> s.linked[d.name] == i && i < |s.symbols|)
             && (final[i].linkage.NoLinkage? || d.name !in s.linked ==> d.name !in top ==> i == |s.symbols|)
    requires d.isFunction && d.hasBody && i < |s.symbols| ==> !s.symbols[i].defined
    ensures D.Bound(s, d).Some?
    ensures var (s', j) := D.Bound(s, d).value;
            && j == i && i < |s'.symbols| && Kin(s'.symbols[i], final[i])
            && s'.symbols == (if i < |s.symbols| then s.symbols[i := s'.symbols[i]] else s.symbols + [s'.symbols[i]])
            && (s'.symbols[i].defined ==> (i < |s.symbols| && s.symbols[i].defined) || (d.isFunction && d.hasBody))
            && (s'.symbols[i].init.InitConstant? ==> i < |s.symbols| && s.symbols[i].init.InitConstant?)
  {
    hide D.DetermineLinkage, D.DetermineDuration, D.Install, D.IsTentative, D.Find;
    if i < |s.symbols| { assert Kin(s.symbols[i], final[i]); }
  }

  /** An initialiser that may stand there is accepted and has the value it should. */
  lemma InitAccepted(s: D.State, d: Declaration, i: nat, final: seq<D.Sym>)
    requires Sound(s) && s.scopes != [] && Agree(s.symbols, final) && i < |s.symbols|
    requires d.init.Some? && IsArithmetic(d.ty) && InitFrom(d, i, EnvOf(s.scopes), final)
    requires final[i].duration == D.DetermineDuration(d, |s.scopes| == 1)
    requires final[i].duration.Static? ==> !s.symbols[i].init.InitConstant?
    ensures D.Initialised(s, d, i).Some?
    ensures var (s', e) := D.Initialised(s, d, i).value;
            && InitOf(d, EnvOf(s.scopes), final) == Some(e) && Agree(s'.symbols, final) && |s'.symbols| == |s.symbols|
            && CalmBut(s.symbols, s'.symbols, final, i, false, true)
  {
    hide Sound, Agree, Analyze, Fold, ConvertTo, EnvOf, D.DetermineDuration;
    ExprElaborated(s, d.init.value, final);
    var y := D.Initialised(s, d, i).value.0.symbols[i];
    assert Kin(s.symbols[i], final[i]) by { KinAt(s.symbols, final, i); }
    KinPut(s.symbols, i, y, final);
  }

  lemma KinAt(a: seq<D.Sym>, b: seq<D.Sym>, i: nat)
    requires Agree(a, b) && i < |a|
    ensures i < |b| && Kin(a[i], b[i])
  {
  }

  /** A declaration that may stand there is accepted and binds its symbol. */
  lemma DeclaredAccepted(s: D.State, d: Declaration, i: nat, final: seq<D.Sym>)
    requires Sound(s) && s.scopes != [] && Ready(s, final) && D.DeclarationOk(d) && !d.isParameter
    requires Declares(d, i, EnvOf(s.scopes), |s.scopes| == 1, final) && NextId(i, |s.symbols|, final)
    requires InitFrom(d, i, With(EnvOf(s.scopes), d.name, i), final)
    requires i < |s.symbols| ==> (d.isFunction && d.hasBody ==> !s.symbols[i].defined) && (d.init.Some? ==> !s.symbols[i].init.InitConstant?)
    ensures D.Declared(s, d).Some?
    ensures var (s', j, e) := D.Declared(s, d).value;
            && j == i && e == InitOf(d, With(EnvOf(s.scopes), d.name, i), final) && Agree(s'.symbols, final)
            && |s'.symbols| == (if i < |s.symbols| then |s.symbols| else i + 1)
            && CalmBut(s.symbols, s'.symbols, final, i, d.isFunction && d.hasBody, d.init.Some?)
  {
    hide Sound, Agree, EnvOf, Declares, D.Bound, D.Initialised, InitFrom, InitOf, D.ParamsValid, D.ValidDeclaration, With, D.ParamsParsed, IsIdentifier,
      LinkOf, SymbolFrom;
    DeclaresAllowed(d, i, EnvOf(s.scopes), |s.scopes| == 1, final);
    AllowedChecked(d, |s.scopes| == 1);
    BoundAccepted(s, d, i, final);
    BoundBinds(s, d);
    var s1 := D.Bound(s, d).value.0;
    LinkageIs(s, d, i, final);
    NewInit(s, s1, d, i);
    if d.init.Some? { InitAccepted(s1, d, i, final); }
    else { NoInit(d, With(EnvOf(s.scopes), d.name, i), final); }
  }

  lemma NewInit(s: D.State, s1: D.State, d: Declaration, i: nat)
    requires BoundTo(s, s1, d, i)
    ensures Sound(s1) && |s1.scopes| == |s.scopes| && EnvOf(s1.scopes) == With(EnvOf(s.scopes), d.name, i)
  {
    hide Sound, EnvOf, D.Evolves;
  }

  lemma NoInit(d: Declaration, env: Env, syms: seq<D.Sym>)
    requires d.init.None?
    ensures InitOf(d, env, syms) == None
  {
  }

  lemma DeclaresAllowed(d: Declaration, i: nat, env: Env, global: bool, syms: seq<D.Sym>)
    requires Declares(d, i, env, global, syms)
    ensures Allowed(d, global) && i < |syms| && (!d.isFunction ==> !d.ty.Void?)
  {
  }

  /** One declarator of a block. */
  lemma DeclAccepted(s: D.State, d: Declaration, x: Decl, final: seq<D.Sym>)
    requires Sound(s) && |s.scopes| > 1 && Ready(s, final) && D.DeclarationOk(d) && !d.isParameter && !d.hasBody
    requires DeclFrom(d, x, EnvOf(s.scopes), final) && NextId(x.sym.id, |s.symbols|, final)
    ensures D.Declared(s, d).Some?
    ensures var (s', i, e) := D.Declared(s, d).value;
            && x == A.DeclOf(d, i, s'.symbols[i], e) && Agree(s'.symbols, final) && Calm(s.symbols, s'.symbols, final)
            && |s'.symbols| == (if i < |s.symbols| then |s.symbols| else i + 1)
            && Sound(s') && |s'.scopes| == |s.scopes| && EnvOf(s'.scopes) == With(EnvOf(s.scopes), d.name, i)
  {
    hide Sound, Agree, EnvOf, Declares, D.Declared, InitFrom, InitOf, With, D.DeclarationOk, CalmBut, OneLinked, D.Evolves;
    var i := x.sym.id;
    FreshObject(s, d, i, final);
    DeclaredAccepted(s, d, i, final);
    var (s', j, e) := D.Declared(s, d).value;
    A.EvolvesSame(s'.symbols);
    DeclaredBinds(s, d, s'.symbols);
    NewInit(s, s', d, i);
    KinAt(s'.symbols, final, i);
    CalmObject(s.symbols, s'.symbols, final, i, d);
    assert D.SymbolAt(final, i) == D.SymbolAt(s'.symbols, i) by { assert Kin(s'.symbols[i], final[i]); }
  }

  /** An object of a block that has an initialiser is new. */
  lemma FreshObject(s: D.State, d: Declaration, i: nat, final: seq<D.Sym>)
    requires Declares(d, i, EnvOf(s.scopes), false, final) && NextId(i, |s.symbols|, final) && D.DeclarationOk(d)
    ensures d.init.Some? ==> final[i].linkage.NoLinkage? && i == |s.symbols|
  {
    hide ParamsAllowed, EnvOf;
  }

  lemma CalmObject(a: seq<D.Sym>, b: seq<D.Sym>, final: seq<D.Sym>, i: nat, d: Declaration)
    requires !d.hasBody && CalmBut(a, b, final, i, d.isFunction && d.hasBody, d.init.Some?)
    requires d.init.Some? ==> i < |final| && final[i].linkage.NoLinkage?
    ensures Calm(a, b, final)
  {
  }

  lemma {:induction false} DeclsAccepted(s: D.State, ds: seq<Declaration>, xs: seq<Decl>, final: seq<D.Sym>)
    requires Sound(s) && |s.scopes| > 1 && Ready(s, final) && A.DeclsParsed(ds)
    requires DeclsFrom(ds, xs, EnvOf(s.scopes), final) && Ordered(IdsOf(xs), |s.symbols|, final)
    ensures A.DeclsIn(s, ds).Some?
    ensures var (s', ys) := A.DeclsIn(s, ds).value;
            ys == xs && Agree(s'.symbols, final) && Calm(s.symbols, s'.symbols, final) && |s'.symbols| == Count(IdsOf(xs), |s.symbols|)
    decreases |ds|
  {
    hide Sound, Agree, EnvOf, D.Declared, DeclFrom, With, D.DeclarationOk, CalmBut, OneLinked;
    if ds == [] { CalmSame(s.symbols, final); }
    else {
      DeclAccepted(s, ds[0], xs[0], final);
      var s1 := D.Declared(s, ds[0]).value.0;
      assert xs == [xs[0]] + xs[1..];
      DeclsAccepted(s1, ds[1..], xs[1..], final);
      CalmTrans(s.symbols, s1.symbols, A.DeclsIn(s1, ds[1..]).value.0.symbols, final, 0, false, false);
    }
  }

  lemma CalmSame(a: seq<D.Sym>, final: seq<D.Sym>)
    ensures Calm(a, a, final)
  {
  }

  /** Analysis accepts 'r' and makes 'x' of it, its gotos still open. */
  ghost predicate Accepted(s: D.State, c: A.FnCtx, r: RStmt, x: Stmt, final: seq<D.Sym>)
    requires s.scopes != []
  {
    var o := A.AnalyzeS(s, c, r);
    && o.Some? && o.value.2 == R.Resolve(x, map[])
    && Agree(o.value.0.symbols, final) && Calm(s.symbols, o.value.0.symbols, final) && |o.value.0.symbols| == Count(IdsIn(x), |s.symbols|)
  }

  /** The table and the context afterwards. */
  ghost predicate Arrived(s: D.State, c: A.FnCtx, r: RStmt, x: Stmt, s': D.State, c': A.FnCtx) {
    && Sound(s') && |s'.scopes| == |s.scopes| && EnvOf(s'.scopes) == EnvAfter(r, x, EnvOf(s.scopes)) && (!r.SDecl? ==> s'.scopes == s.scopes)
    && c' == Moved(c, PartsOf(x))
  }

  lemma Arrives(s: D.State, c: A.FnCtx, r: RStmt, x: Stmt, final: seq<D.Sym>)
    requires Sound(s) && |s.scopes| > 1 && A.StmtParsed(r) && Accepted(s, c, r, x, final)
    ensures var o := A.AnalyzeS(s, c, r).value; Arrived(s, c, r, x, o.0, o.1)
  {
    hide Sound, D.Evolves, EnvOf, EnvAfter, A.AnalyzeS, A.StmtParsed, StmtFrom, Moved, Room, Ordered, Count, R.Resolve, CaseList, DefaultsIn,
      A.LabelsIn, A.GotosIn, IdsIn, Agree, CalmBut;
    var o := A.AnalyzeS(s, c, r).value;
    A.EvolvesSame(o.0.symbols);
    StmtElaborated(s, c, r, o.0.symbols);
    ResolveEnv(r, x, map[], EnvOf(s.scopes));
    R.SameParts(x, map[]);
    ResolveParts(x, map[]);
  }

  /** What is asked of a statement: it stands there with that elaboration, and repeats no case, default or label. */
  ghost predicate Asked(s: D.State, c: A.FnCtx, r: RStmt, x: Stmt, final: seq<D.Sym>) {
    && Sound(s) && |s.scopes| > 1 && A.StmtParsed(r) && Ready(s, final)
    && StmtFrom(r, x, EnvOf(s.scopes), final, PlaceOf(c)) && Ordered(IdsIn(x), |s.symbols|, final) && Room(c, PartsOf(x))
  }

  lemma {:induction false} StmtAccepted(s: D.State, c: A.FnCtx, r: RStmt, x: Stmt, final: seq<D.Sym>)
    requires Asked(s, c, r, x, final)
    ensures Accepted(s, c, r, x, final) && var o := A.AnalyzeS(s, c, r).value; Arrived(s, c, r, x, o.0, o.1)
    decreases r, 1
  {
    assert Sound(s) && |s.scopes| > 1 && A.StmtParsed(r);
    hide Asked, Accepted, Arrived, Sound, A.StmtParsed;
    match r {
      case SDecl(_) => DeclStmtAccepted(s, c, r, x, final);
      case SBlock(_) => BlockAccepted(s, c, r, x, final);
      case SIf(_, _, _) => IfAccepted(s, c, r, x, final);
      case SFor(_, _, _, _, _) => ForAccepted(s, c, r, x, final);
      case SWhile(_, _, _) => LoopAccepted(s, c, r, x, final);
      case SDoWhile(_, _, _) => LoopAccepted(s, c, r, x, final);
      case SSwitch(_, _, _) => SwitchAccepted(s, c, r, x, final);
      case SCase(_, _, _) => CaseAccepted(s, c, r, x, final);
      case SDefault(_, _) => LabelledAccepted(s, c, r, x, final);
      case SLabel(_, _, _) => LabelledAccepted(s, c, r, x, final);
      case _ => LeafAccepted(s, c, r, x, final);
    }
    Arrives(s, c, r, x, final);
  }

  lemma LeafAccepted(s: D.State, c: A.FnCtx, r: RStmt, x: Stmt, final: seq<D.Sym>)
    requires r.SNull? || r.SExpr? || r.SReturn? || r.SBreak? || r.SContinue? || r.SGoto?
    requires Asked(s, c, r, x, final)
    ensures Accepted(s, c, r, x, final)
  {
    hide Sound, A.ExprIn, EnvOf, ExprFrom, ConvertedFrom, A.Converted, Room, Agree, CalmBut;
    CalmSame(s.symbols, final);
    if r.SExpr? { ExprElaborated(s, r.e, final); }
    if r.SReturn? && r.result.Some? { ExprElaborated(s, r.result.value, final); }
  }

  lemma DeclStmtAccepted(s: D.State, c: A.FnCtx, r: RStmt, x: Stmt, final: seq<D.Sym>)
    requires r.SDecl? && Asked(s, c, r, x, final)
    ensures Accepted(s, c, r, x, final)
  {
    hide Sound, EnvOf, Room, Agree, CalmBut, A.DeclsIn, DeclsFrom, A.DeclsParsed, Ordered, Count, IdsOf, OneLinked;
    DeclsAccepted(s, r.decls, x.decls, final);
  }

  lemma {:induction false} BlockAccepted(s: D.State, c: A.FnCtx, r: RStmt, x: Stmt, final: seq<D.Sym>)
    requires r.SBlock? && Asked(s, c, r, x, final)
    ensures Accepted(s, c, r, x, final)
    decreases r, 0
  {
    hide Sound, EnvOf, Room, Agree, CalmBut, A.AnalyzeAll, AllFrom, A.ItemsParsed, Ordered, Count, OneLinked, CaseListItems, DefaultsInItems,
      A.LabelsInItems, A.GotosInItems, IdsInItems, R.ResolveItems;
    PushSound(s);
    EnvPush(s);
    AllAccepted(A.Pushed(s), c, r.items, x.items, final);
  }

  lemma {:induction false} AllAccepted(s: D.State, c: A.FnCtx, rs: seq<RStmt>, xs: seq<Stmt>, final: seq<D.Sym>)
    requires Sound(s) && |s.scopes| > 1 && A.ItemsParsed(rs) && Ready(s, final)
    requires AllFrom(rs, xs, EnvOf(s.scopes), final, PlaceOf(c)) && Ordered(IdsInItems(xs), |s.symbols|, final) && Room(c, ItemParts(xs))
    ensures A.AnalyzeAll(s, c, rs).Some?
    ensures var (s', c', ys) := A.AnalyzeAll(s, c, rs).value;
            && ys == R.ResolveItems(xs, map[]) && c' == Moved(c, ItemParts(xs))
            && Agree(s'.symbols, final) && Calm(s.symbols, s'.symbols, final) && |s'.symbols| == Count(IdsInItems(xs), |s.symbols|)
    decreases rs, 0
  {
    hide Sound, EnvOf, Room, Moved, Agree, CalmBut, A.AnalyzeS, StmtFrom, A.StmtParsed, Ordered, Count, OneLinked, PartsOf, ItemParts, IdsIn, R.Resolve;
    if rs == [] {
      CalmSame(s.symbols, final);
      assert ItemParts(xs) == NOTHING by { NoParts(); }
      NothingMoves(c);
      NoIds(|s.symbols|, final);
    } else {
      ItemsPut(c, xs[0], xs[1..], |s.symbols|, final);
      assert xs == [xs[0]] + xs[1..];
      StmtAccepted(s, c, rs[0], xs[0], final);
      var o := A.AnalyzeS(s, c, rs[0]).value;
      SamePlace(c, PartsOf(xs[0]));
      AllAccepted(o.0, o.1, rs[1..], xs[1..], final);
      CalmTrans(s.symbols, o.0.symbols, A.AnalyzeAll(o.0, o.1, rs[1..]).value.0.symbols, final, 0, false, false);
      var r := R.ResolveItems(xs, map[]);
      assert r[0] == R.Resolve(xs[0], map[]) && r[1..] == R.ResolveItems(xs[1..], map[]);
    }
  }

  lemma NoParts()
    ensures ItemParts([]) == NOTHING
  {
  }

  lemma {:induction false} IfAccepted(s: D.State, c: A.FnCtx, r: RStmt, x: Stmt, final: seq<D.Sym>)
    requires r.SIf? && Asked(s, c, r, x, final)
    ensures Accepted(s, c, r, x, final)
    decreases r, 0
  {
    hide Sound, A.ExprIn, EnvOf, ExprFrom, Room, Moved, Agree, CalmBut, Ordered, Count, OneLinked, PartsOf;
    ExprElaborated(s, r.cond, final);
    IfParts(c, x, |s.symbols|, final);
    StmtAccepted(s, c, r.thn, x.thn, final);
    var y := A.AnalyzeS(s, c, r.thn).value;
    if r.els.Some? {
      SamePlace(c, PartsOf(x.thn));
      StmtAccepted(y.0, y.1, r.els.value, x.els.value, final);
      CalmTrans(s.symbols, y.0.symbols, A.AnalyzeS(y.0, y.1, r.els.value).value.0.symbols, final, 0, false, false);
    }
  }

  lemma IfParts(c: A.FnCtx, x: Stmt, n: nat, final: seq<D.Sym>)
    requires x.If? && Room(c, PartsOf(x)) && Ordered(IdsIn(x), n, final)
    ensures Room(c, PartsOf(x.thn)) && Ordered(IdsIn(x.thn), n, final)
    ensures x.els.Some? ==> Room(Moved(c, PartsOf(x.thn)), PartsOf(x.els.value)) && Ordered(IdsIn(x.els.value), Count(IdsIn(x.thn), n), final)
    ensures Count(IdsIn(x), n) == if x.els.Some? then Count(IdsIn(x.els.value), Count(IdsIn(x.thn), n)) else Count(IdsIn(x.thn), n)
  {
    hide Room, Moved, Ordered, Count;
    var b := if x.els.Some? then PartsOf(x.els.value) else NOTHING;
    Joined(c, PartsOf(x.thn), b);
    assert PartsOf(x) == Join(PartsOf(x.thn), b) by { NothingJoins(PartsOf(x.thn)); }
    OrderJoin(IdsIn(x.thn), if x.els.Some? then IdsIn(x.els.value) else [], n, final);
    NoIds(Count(IdsIn(x.thn), n), final);
  }

  lemma {:induction false} ForAccepted(s: D.State, c: A.FnCtx, r: RStmt, x: Stmt, final: seq<D.Sym>)
    requires r.SFor? && Asked(s, c, r, x, final)
    ensures Accepted(s, c, r, x, final)
    decreases r, 0
  {
    hide Sound, A.ExprIn, EnvOf, ExprFrom, Room, Moved, Agree, CalmBut, Ordered, Count, OneLinked, A.AnalyzeS, PartsOf, IdsIn, Entered, A.ForDeclsValid,
      ForObjects, StmtFrom, R.Resolve, A.StmtParsed;
    ForParts(r, x, EnvOf(s.scopes), final, PlaceOf(c));
    A.ForSpec(s, c, r);
    PushSound(s);
    EnvPush(s);
    if r.init.SDecl? { ObjectsValid(r.init.decls); }
    NothingMoves(c);
    OrderJoin(IdsIn(x.init), IdsIn(x.body), |s.symbols|, final);
    StmtAccepted(A.Pushed(s), c, r.init, x.init, final);
    var o := A.AnalyzeS(A.Pushed(s), c, r.init).value;
    if r.test.Some? { ExprElaborated(o.0, r.test.value, final); }
    if r.post.Some? { ExprElaborated(o.0, r.post.value, final); }
    var c2 := c.(breakable := Some(r.id), loop := Some(r.id));
    MovedWithin(c, r.id, PartsOf(x.body));
    StmtAccepted(o.0, c2, r.body, x.body, final);
    CalmTrans(s.symbols, o.0.symbols, A.AnalyzeS(o.0, c2, r.body).value.0.symbols, final, 0, false, false);
  }

  /** The parts of a 'for'. */
  lemma ForParts(r: RStmt, x: Stmt, env: Env, syms: seq<D.Sym>, k: Place)
    requires r.SFor? && A.StmtParsed(r) && StmtFrom(r, x, env, syms, k)
    ensures x.For? && x.id == r.id && (r.init.SDecl? ==> ForObjects(r.init.decls)) && StmtFrom(r.init, x.init, Entered(env), syms, k)
    ensures var inner := EnvAfter(r.init, x.init, Entered(env));
            && OptFrom(r.test, x.test, inner, syms) && OptFrom(r.post, x.post, inner, syms) && StmtFrom(r.body, x.body, inner, syms, InLoop(k, r.id))
    ensures PartsOf(x.init) == NOTHING && PartsOf(x) == PartsOf(x.body) && IdsIn(x) == IdsIn(x.init) + IdsIn(x.body)
    ensures A.StmtParsed(r.init) && A.StmtParsed(r.body)
    ensures R.Resolve(x, map[]) == For(x.id, R.Resolve(x.init, map[]), x.test, x.post, R.Resolve(x.body, map[]))
  {
    hide ExprFrom, AllFrom, EnvAfter;
    HeadNothing(r.init, x.init, Entered(env), syms, k);
    assert [] + A.GotosIn(x.body) == A.GotosIn(x.body);
  }

  lemma ObjectsValid(ds: seq<Declaration>)
    requires ForObjects(ds)
    ensures A.ForDeclsValid(ds)
  {
  }

  lemma {:induction false} LoopAccepted(s: D.State, c: A.FnCtx, r: RStmt, x: Stmt, final: seq<D.Sym>)
    requires (r.SWhile? || r.SDoWhile?) && Asked(s, c, r, x, final)
    ensures Accepted(s, c, r, x, final)
    decreases r, 0
  {
    hide Sound, A.ExprIn, EnvOf, ExprFrom, Room, Moved, Agree, CalmBut, Ordered, Count, OneLinked;
    PushSound(s);
    EnvPush(s);
    ExprElaborated(A.Pushed(s), r.cond, final);
    MovedWithin(c, r.id, PartsOf(x.body));
    var c2 := c.(breakable := Some(r.id), loop := Some(r.id));
    StmtAccepted(A.Pushed(s), c2, r.body, x.body, final);
    assert A.AnalyzeS(A.Pushed(s), c2, r.body).Some? && A.ExprIn(A.Pushed(s), r.cond) == Some(x.cond);
    var y := A.LoopIn(s, c, r.id, r.cond, r.body);
    assert y.Some? && y.value.3 == R.Resolve(x.body, map[]) && y.value.2 == x.cond;
  }

  lemma {:induction false} SwitchAccepted(s: D.State, c: A.FnCtx, r: RStmt, x: Stmt, final: seq<D.Sym>)
    requires r.SSwitch? && Asked(s, c, r, x, final)
    ensures Accepted(s, c, r, x, final)
    decreases r, 0
  {
    hide Sound, A.ExprIn, EnvOf, ExprFrom, Room, Moved, Agree, CalmBut, Ordered, Count, OneLinked, SwitchFrom;
    ExprElaborated(s, r.cond, final);
    var c2 := c.(breakable := Some(r.id), sw := Some(TypeOf(x.cond)), cases := [], dflt := None);
    SwitchRoom(c, c2, x);
    StmtAccepted(s, c2, r.body, x.body, final);
  }

  lemma SwitchRoom(c: A.FnCtx, c2: A.FnCtx, x: Stmt)
    requires x.Switch? && SwitchFrom(x) && Room(c, PartsOf(x))
    requires c2 == c.(breakable := c2.breakable, sw := c2.sw, cases := [], dflt := None)
    ensures IsArithmetic(TypeOf(x.cond)) && Room(c2, PartsOf(x.body))
    ensures Moved(c2, PartsOf(x.body)).cases == x.cases && Moved(c2, PartsOf(x.body)).dflt == x.dflt
  {
    assert [] + CaseList(x.body) == CaseList(x.body);
  }

  lemma {:induction false} CaseAccepted(s: D.State, c: A.FnCtx, r: RStmt, x: Stmt, final: seq<D.Sym>)
    requires r.SCase? && Asked(s, c, r, x, final)
    ensures Accepted(s, c, r, x, final)
    decreases r, 0
  {
    hide Sound, A.ExprIn, EnvOf, ConvertedFrom, A.Converted, Fold, Room, Moved, Agree, CalmBut, Ordered, Count, OneLinked, A.HasCaseValue;
    ExprElaborated(s, r.e, final);
    var v := CaseRef(x.value, x.id);
    LabelledPut(c, Parts([v], [], [], []), x.stmt, x);
    CaseRoom(c, v);
    StmtAccepted(s, c.(cases := c.cases + [v]), r.stmt, x.stmt, final);
  }

  lemma {:induction false} LabelledAccepted(s: D.State, c: A.FnCtx, r: RStmt, x: Stmt, final: seq<D.Sym>)
    requires (r.SDefault? || r.SLabel?) && Asked(s, c, r, x, final)
    ensures Accepted(s, c, r, x, final)
    decreases r, 0
  {
    hide Sound, EnvOf, Room, Moved, Agree, CalmBut, Ordered, Count, OneLinked;
    if r.SDefault? {
      LabelledPut(c, Parts([], [x.id], [], []), x.stmt, x);
      DefaultRoom(c, x.id);
      StmtAccepted(s, c.(dflt := Some(r.id)), r.stmt, x.stmt, final);
    } else {
      LabelledPut(c, Parts([], [], [(x.name, x.id)], []), x.stmt, x);
      LabelRoom(c, x.name, x.id);
      StmtAccepted(s, c.(labels := c.labels[r.name := r.id]), r.stmt, x.stmt, final);
    }
  }

  lemma {:induction false} ParamsTaken(s: D.State, params: seq<Declaration>, ps: seq<Symbol>, final: seq<D.Sym>)
    requires Sound(s) && |s.scopes| > 1 && Ready(s, final) && ParamsReady(params) && |ps| <= |params|
    requires ParamsFrom(params, ps, EnvOf(s.scopes), final) && Ordered(ParamIds(ps), |s.symbols|, final)
    ensures U.ParamsIn(s, params, |ps|).Some?
    ensures var (s', qs) := U.ParamsIn(s, params, |ps|).value;
            && qs == ps && Agree(s'.symbols, final) && Calm(s.symbols, s'.symbols, final) && |s'.symbols| == Count(ParamIds(ps), |s.symbols|)
            && Sound(s') && |s'.scopes| == |s.scopes| && EnvOf(s'.scopes) == ParamEnv(EnvOf(s.scopes), params, ps)
    decreases |ps|
  {
    hide Sound, EnvOf, Agree, CalmBut, D.Bound, Declares, ParamReady, With, Ordered, Count, OneLinked, D.Evolves;
    if ps == [] {
      CalmSame(s.symbols, final);
      NoIds(|s.symbols|, final);
    } else {
      var n := |ps| - 1;
      OrderJoin(ParamIds(ps[..n]), [ps[n].id], |s.symbols|, final);
      ParamsTaken(s, params, ps[..n], final);
      var s1 := U.ParamsIn(s, params, n).value.0;
      ParamTaken(s1, params[n], ps[n], final);
      var s2 := D.Bound(s1, params[n]).value.0;
      CalmTrans(s.symbols, s1.symbols, s2.symbols, final, 0, false, false);
      assert ps == ps[..n] + [ps[n]];
    }
  }

  lemma ParamTaken(s: D.State, p: Declaration, x: Symbol, final: seq<D.Sym>)
    requires Sound(s) && |s.scopes| > 1 && Ready(s, final) && ParamReady(p) && p.name != ""
    requires Declares(p, x.id, EnvOf(s.scopes), false, final) && x == D.SymbolAt(final, x.id) && Ordered([x.id], |s.symbols|, final)
    ensures D.Bound(s, p).Some?
    ensures var (s', i) := D.Bound(s, p).value;
            && x == Symbol(i, p.ty, s'.symbols[i].duration.Static?) && Agree(s'.symbols, final) && Calm(s.symbols, s'.symbols, final)
            && |s'.symbols| == Count([x.id], |s.symbols|)
            && Sound(s') && |s'.scopes| == |s.scopes| && EnvOf(s'.scopes) == With(EnvOf(s.scopes), p.name, i)
  {
    hide Sound, EnvOf, Agree, CalmBut, D.Bound, Allowed, LinkageFrom, With, OneLinked, SymbolFrom, IsIdentifier, D.ParamValid;
    OneId(x.id, |s.symbols|, final);
    BoundAccepted(s, p, x.id, final);
    BoundBinds(s, p);
    var s' := D.Bound(s, p).value.0;
    NewInit(s, s', p, x.id);
    KinAt(s'.symbols, final, x.id);
    CalmNone(s.symbols, s'.symbols, final, x.id);
  }

  /** Outside a switch there are no case and no default labels. */
  lemma {:induction false} NoCases(r: RStmt, x: Stmt, env: Env, syms: seq<D.Sym>, k: Place)
    requires StmtFrom(r, x, env, syms, k) && k.sw.None?
    ensures CaseList(x) == [] && DefaultsIn(x) == []
    decreases r, 1
  {
    hide ExprFrom, OptFrom, ReturnFrom, DeclsFrom, SwitchFrom;
    match r
    case SBlock(items) => NoCasesIn(items, x.items, Entered(env), syms, k);
    case SIf(_, a, b) => NoCases(a, x.thn, env, syms, k); if b.Some? { NoCases(b.value, x.els.value, env, syms, k); }
    case SFor(id, i, _, _, b) => NoCases(b, x.body, EnvAfter(i, x.init, Entered(env)), syms, InLoop(k, id));
    case SWhile(id, _, b) => NoCases(b, x.body, Entered(env), syms, InLoop(k, id));
    case SDoWhile(id, _, b) => NoCases(b, x.body, Entered(env), syms, InLoop(k, id));
    case SLabel(_, _, b) => NoCases(b, x.stmt, env, syms, k);
    case _ =>
  }

  lemma {:induction false} NoCasesIn(rs: seq<RStmt>, xs: seq<Stmt>, env: Env, syms: seq<D.Sym>, k: Place)
    requires AllFrom(rs, xs, env, syms, k) && k.sw.None?
    ensures CaseListItems(xs) == [] && DefaultsInItems(xs) == []
    decreases rs, 0
  {
    hide StmtFrom, EnvAfter;
    if rs != [] {
      NoCases(rs[0], xs[0], env, syms, k);
      NoCasesIn(rs[1..], xs[1..], EnvAfter(rs[0], xs[0], env), syms, k);
    }
  }

  /** The gotos are where the table says. */
  predicate Aimed(ts: seq<(string, nat)>, m: A.LabelMap) {
    forall k :: 0 <= k < |ts| ==> ts[k].0 in m && m[ts[k].0] == ts[k].1
  }

  lemma AimedJoin(a: seq<(string, nat)>, b: seq<(string, nat)>, m: A.LabelMap)
    requires Aimed(a + b, m)
    ensures Aimed(a, m) && Aimed(b, m)
  {
    forall k | 0 <= k < |a| ensures a[k].0 in m && m[a[k].0] == a[k].1 { assert (a + b)[k] == a[k]; }
    forall k | 0 <= k < |b| ensures b[k].0 in m && m[b[k].0] == b[k].1 { assert (a + b)[|a| + k] == b[k]; }
  }

  /** Gotos left open and resolved again are what they were. */
  lemma {:induction false} Reaimed(x: Stmt, m: A.LabelMap)
    requires Aimed(TargetsIn(x), m)
    ensures R.Resolve(R.Resolve(x, map[]), m) == x && R.Known(A.GotosIn(x), m)
    decreases x, 1
  {
    hide Aimed;
    match x
    case Block(items) => AllReaimed(items, m);
    case If(_, a, b) =>
      AimedJoin(TargetsIn(a), if b.Some? then TargetsIn(b.value) else [], m);
      Reaimed(a, m);
      if b.Some? { Reaimed(b.value, m); KnownBoth(A.GotosIn(a), A.GotosIn(b.value), m); } else { assert A.GotosIn(a) + [] == A.GotosIn(a); }
    case For(_, i, _, _, b) =>
      AimedJoin(TargetsIn(i), TargetsIn(b), m);
      Reaimed(i, m);
      Reaimed(b, m);
      KnownBoth(A.GotosIn(i), A.GotosIn(b), m);
    case While(_, _, b) => Reaimed(b, m);
    case DoWhile(_, _, b) => Reaimed(b, m);
    case Switch(_, _, b, _, _) => Reaimed(b, m);
    case Case(_, _, _, b) => Reaimed(b, m);
    case Default(_, b) => Reaimed(b, m);
    case Label(_, _, b) => Reaimed(b, m);
    case Goto(n, t) => AimedOne(n, t, m);
    case _ =>
  }

  lemma AimedOne(n: string, t: nat, m: A.LabelMap)
    requires Aimed([(n, t)], m)
    ensures n in m && m[n] == t && R.Known([n], m)
  {
    assert [(n, t)][0] == (n, t);
  }

  lemma KnownBoth(a: seq<string>, b: seq<string>, m: A.LabelMap)
    requires R.Known(a, m) && R.Known(b, m)
    ensures R.Known(a + b, m)
  {
  }

  lemma {:induction false} AllReaimed(xs: seq<Stmt>, m: A.LabelMap)
    requires Aimed(TargetsInItems(xs), m)
    ensures R.ResolveItems(R.ResolveItems(xs, map[]), m) == xs && R.Known(A.GotosInItems(xs), m)
    decreases xs, 0
  {
    hide Aimed, R.Resolve, TargetsIn, A.GotosIn;
    if xs != [] {
      AimedJoin(TargetsIn(xs[0]), TargetsInItems(xs[1..]), m);
      Reaimed(xs[0], m);
      AllReaimed(xs[1..], m);
      KnownBoth(A.GotosIn(xs[0]), A.GotosInItems(xs[1..]), m);
      var r := R.ResolveItems(xs, map[]);
      assert r[0] == R.Resolve(xs[0], map[]) && r[1..] == R.ResolveItems(xs[1..], map[]);
    }
  }

  /** A body whose gotos go to its labels is resolved to itself. */
  lemma BodyReaimed(body: Stmt, ret: Ty)
    requires body.Block? && JumpsFrom(body) && CaseListItems(body.items) == [] && DefaultsInItems(body.items) == []
    ensures var c := Moved(U.NewCtx(ret), ItemParts(body.items));
            && Room(U.NewCtx(ret), ItemParts(body.items)) && R.Known(c.gotos, c.labels)
            && R.Resolve(Block(R.ResolveItems(body.items, map[])), c.labels) == body
  {
    hide A.FreshLabels, A.AddLabels, A.LabelsInItems, A.GotosInItems, TargetsInItems, R.ResolveItems;
    var items := body.items;
    var ls := A.LabelsInItems(items);
    var m := A.AddLabels(map[], ls);
    assert A.LabelsIn(body) == ls && TargetsIn(body) == TargetsInItems(items);
    assert [] + A.GotosInItems(items) == A.GotosInItems(items);
    LabelsDiffer(map[], ls);
    forall k | 0 <= k < |TargetsInItems(items)| ensures TargetsInItems(items)[k].0 in m && m[TargetsInItems(items)[k].0] == TargetsInItems(items)[k].1 {
      assert TargetsIn(body)[k] in A.LabelsIn(body);
      var j :| 0 <= j < |ls| && ls[j] == TargetsInItems(items)[k];
      R.LabelEntered(map[], ls, j);
    }
    AllReaimed(items, m);
  }

  /** A function definition that has an elaboration is accepted and becomes it. */
  lemma FunctionAccepted(s: D.State, i: Item, f: Fn, final: seq<D.Sym>)
    requires Sound(s) && |s.scopes| == 1 && Ready(s, final) && U.ItemParsed(i) && Defines(i)
    requires FnFrom(i, f, EnvOf(s.scopes), final) && Ordered(FnIds(f), |s.symbols|, final)
    requires f.id < |s.symbols| ==> !s.symbols[f.id].defined
    ensures U.FunctionIn(s, i).Some?
    ensures var (s', g) := U.FunctionIn(s, i).value;
            && g == f && Agree(s'.symbols, final) && |s'.symbols| == Count(FnIds(f), |s.symbols|)
            && CalmBut(s.symbols, s'.symbols, final, f.id, true, false)
  {
    hide Sound, EnvOf, Agree, CalmBut, OneLinked, D.Declared, Declares, D.DeclarationOk, A.ItemsParsed, U.ParamsIn, A.AnalyzeAll, ParamsFrom, ParamEnv, AllFrom,
      JumpsFrom, Ordered, Count, Room, Moved, With, R.Resolve, R.Known, ItemParts;
    var d := i.decl;
    FnIdsPut(f, |s.symbols|, final);
    OneId2(f.id, |s.symbols|, final);
    HeadAccepted(s, i, f.id, final);
    var s1 := D.Declared(s, d).value.0;
    PushSound(s1);
    EnvPush(s1);
    ParamsTaken(A.Pushed(s1), d.params, f.params, final);
    var s2 := U.ParamsIn(A.Pushed(s1), d.params, |d.params|).value.0;
    NoCasesIn(i.body, f.body.items, EnvOf(s2.scopes), final, Place(f.ret, None, None, None));
    BodyReaimed(f.body, f.ret);
    assert IdsIn(f.body) == IdsInItems(f.body.items);
    AllAccepted(s2, U.NewCtx(f.ret), i.body, f.body.items, final);
    var s3 := A.AnalyzeAll(s2, U.NewCtx(f.ret), i.body).value.0;
    CalmTrans(s.symbols, s1.symbols, s2.symbols, final, f.id, true, false);
    CalmTrans(s.symbols, s2.symbols, s3.symbols, final, f.id, true, false);
  }

  lemma OneId2(i: nat, n: nat, syms: seq<D.Sym>)
    requires Ordered([i], n, syms)
    ensures NextId(i, n, syms) && Count([i], n) == if i < n then n else i + 1
  {
    assert [i][1..] == [];
  }

  /** The declaration of the function itself. */
  lemma HeadAccepted(s: D.State, i: Item, id: nat, final: seq<D.Sym>)
    requires Sound(s) && |s.scopes| == 1 && Ready(s, final) && U.ItemParsed(i) && Defines(i)
    requires Declares(i.decl, id, EnvOf(s.scopes), true, final) && NextId(id, |s.symbols|, final)
    requires id < |s.symbols| ==> !s.symbols[id].defined
    ensures D.Declared(s, i.decl).Some? && ParamsReady(i.decl.params)
    ensures var (s', j, _) := D.Declared(s, i.decl).value;
            && j == id && Sound(s') && |s'.scopes| == 1 && EnvOf(s'.scopes) == With(EnvOf(s.scopes), i.decl.name, id)
            && Agree(s'.symbols, final) && |s'.symbols| == (if id < |s.symbols| then |s.symbols| else id + 1)
            && CalmBut(s.symbols, s'.symbols, final, id, true, false)
  {
    hide Sound, EnvOf, Agree, CalmBut, OneLinked, D.Declared, Declares, With, D.ParamsValid, D.ParamsParsed, IsIdentifier, D.Evolves, A.ItemsParsed, ParamsReady;
    DeclaredAccepted(s, i.decl, id, final);
    var s' := D.Declared(s, i.decl).value.0;
    A.EvolvesSame(s'.symbols);
    FnBinds(s, i.decl, s'.symbols);
    ParamsAccepted(s, i.decl);
  }

  /** Of the symbols with linkage, those of the unit's definitions and initialised declarations are marked. */
  ghost predicate Marks(a: seq<D.Sym>, items: seq<Item>, ids: seq<nat>, final: seq<D.Sym>)
    requires |ids| == |items|
  {
    forall j :: 0 <= j < |a| && j < |final| && !final[j].linkage.NoLinkage? ==>
      && (a[j].defined ==> exists k :: 0 <= k < |items| && Defines(items[k]) && ids[k] == j)
      && (a[j].init.InitConstant? ==> exists k :: 0 <= k < |items| && items[k].decl.init.Some? && ids[k] == j)
  }

  lemma MarksNext(a: seq<D.Sym>, b: seq<D.Sym>, items: seq<Item>, ids: seq<nat>, final: seq<D.Sym>, body: bool, init: bool)
    requires |ids| == |items| > 0 && Marks(a, items[..|items| - 1], ids[..|items| - 1], final)
    requires CalmBut(a, b, final, ids[|items| - 1], body, init)
    requires (body ==> Defines(items[|items| - 1])) && (init ==> items[|items| - 1].decl.init.Some?)
    ensures Marks(b, items, ids, final)
  {
    var n := |items| - 1;
    forall j | 0 <= j < |b| && j < |final| && !final[j].linkage.NoLinkage?
      ensures b[j].defined ==> exists k :: 0 <= k < |items| && Defines(items[k]) && ids[k] == j
      ensures b[j].init.InitConstant? ==> exists k :: 0 <= k < |items| && items[k].decl.init.Some? && ids[k] == j
    {
      if j < |a| && a[j].defined {
        var k :| 0 <= k < n && Defines(items[..n][k]) && ids[..n][k] == j;
        assert Defines(items[k]) && ids[k] == j;
      }
      if j < |a| && a[j].init.InitConstant? {
        var k :| 0 <= k < n && items[..n][k].decl.init.Some? && ids[..n][k] == j;
        assert items[k].decl.init.Some? && ids[k] == j;
      }
    }
  }

  /** So what the unit defines once was not defined before. */
  lemma NotMarked(a: seq<D.Sym>, items: seq<Item>, ids: seq<nat>, final: seq<D.Sym>)
    requires |ids| == |items| > 0 && Once(items, ids) && Marks(a, items[..|items| - 1], ids[..|items| - 1], final)
    requires var i := ids[|items| - 1]; i < |final| && !final[i].linkage.NoLinkage?
    ensures var i := ids[|items| - 1];
            i < |a| ==> (Defines(items[|items| - 1]) ==> !a[i].defined) && (items[|items| - 1].decl.init.Some? ==> !a[i].init.InitConstant?)
  {
    var n := |items| - 1;
    var i := ids[n];
    if i < |a| && a[i].defined {
      var k :| 0 <= k < n && Defines(items[..n][k]) && ids[..n][k] == i;
      assert Defines(items[k]) && ids[k] == i;
    }
    if i < |a| && a[i].init.InitConstant? {
      var k :| 0 <= k < n && items[..n][k].decl.init.Some? && ids[..n][k] == i;
      assert items[k].decl.init.Some? && ids[k] == i;
    }
  }

  /** At file scope everything has linkage. */
  lemma FileLinked(d: Declaration, i: nat, env: Env, syms: seq<D.Sym>)
    requires Declares(d, i, env, true, syms) && !d.isParameter
    ensures i < |syms| && !syms[i].linkage.NoLinkage?
  {
  }

  lemma OnceBefore(items: seq<Item>, ids: seq<nat>)
    requires |ids| == |items| > 0 && Once(items, ids)
    ensures Once(items[..|items| - 1], ids[..|items| - 1])
  {
  }

  ghost predicate UnitAsked(items: seq<Item>, n: nat, ids: seq<nat>, prog: seq<Fn>, final: seq<D.Sym>) {
    && (forall k :: 0 <= k < |items| ==> U.ItemParsed(items[k])) && n <= |items|
    && ProgramFrom(items[..n], ids, prog, final) && Once(items[..n], ids) && Ordered(UnitIds(items[..n], ids, prog), 0, final) && OneLinked(final)
  }

  ghost predicate UnitReached(items: seq<Item>, n: nat, ids: seq<nat>, prog: seq<Fn>, final: seq<D.Sym>)
    requires n <= |items| && |ids| == n
  {
    && U.UnitIn(items, n).Some? && DeclIds(items, n) == ids
    && var (s, fns) := U.UnitIn(items, n).value;
       && fns == prog && Agree(s.symbols, final) && |s.symbols| == Count(UnitIds(items[..n], ids, prog), 0)
       && Marks(s.symbols, items[..n], ids, final)
  }

  lemma {:induction false} UnitAccepted(items: seq<Item>, n: nat, ids: seq<nat>, prog: seq<Fn>, final: seq<D.Sym>)
    requires UnitAsked(items, n, ids, prog, final)
    ensures |ids| == n && UnitReached(items, n, ids, prog, final)
  {
    hide ProgramFrom, Once, OneLinked, Ordered, Count, Agree, Marks, Sound, U.ItemParsed, FnFrom, Declares, InitFrom, D.Evolves, U.UnitIn, DeclIds, UnitIds,
      FileEnv, EnvOf;
    ProgramLength(items[..n], ids, prog, final);
    if n == 0 {
      NothingReached(items, ids, prog, final);
    } else {
      UnitBefore(items, n, ids, prog, final);
      var before := if Defines(items[n - 1]) then prog[..|prog| - 1] else prog;
      UnitAccepted(items, n - 1, ids[..n - 1], before, final);
      var s := U.UnitIn(items, n - 1).value.0;
      A.EvolvesSame(s.symbols);
      UnitElaborated(items, n - 1, s.symbols);
      UnitStep(items, n, ids, prog, before, final);
    }
  }

  lemma ProgramLength(items: seq<Item>, ids: seq<nat>, prog: seq<Fn>, final: seq<D.Sym>)
    requires ProgramFrom(items, ids, prog, final)
    ensures |ids| == |items|
  {
  }

  lemma NothingReached(items: seq<Item>, ids: seq<nat>, prog: seq<Fn>, final: seq<D.Sym>)
    requires ProgramFrom(items[..0], ids, prog, final) && |ids| == 0
    ensures UnitReached(items, 0, ids, prog, final)
  {
    NoIds(0, final);
  }

  /** The unit without its last declaration. */
  lemma UnitBefore(items: seq<Item>, n: nat, ids: seq<nat>, prog: seq<Fn>, final: seq<D.Sym>)
    requires UnitAsked(items, n, ids, prog, final) && n > 0 && |ids| == n
    ensures Defines(items[n - 1]) ==> prog != []
    ensures UnitAsked(items, n - 1, ids[..n - 1], if Defines(items[n - 1]) then prog[..|prog| - 1] else prog, final)
    ensures items[..n][..n - 1] == items[..n - 1]
  {
    hide Once, OneLinked, Ordered, Count, U.ItemParsed, FnFrom, Declares, InitFrom, FileEnv, ParamIds, IdsIn;
    var all := items[..n];
    assert all[..n - 1] == items[..n - 1] && all[n - 1] == items[n - 1];
    OnceBefore(all, ids);
    var before := if Defines(items[n - 1]) then prog[..|prog| - 1] else prog;
    assert ids == ids[..n - 1] + [ids[n - 1]];
    UnitIdsNext(all, ids[..n - 1], before, ids[n - 1], prog, final);
  }

  lemma UnitStep(items: seq<Item>, n: nat, ids: seq<nat>, prog: seq<Fn>, before: seq<Fn>, final: seq<D.Sym>)
    requires UnitAsked(items, n, ids, prog, final) && n > 0 && |ids| == n
    requires before == if Defines(items[n - 1]) && prog != [] then prog[..|prog| - 1] else prog
    requires UnitReached(items, n - 1, ids[..n - 1], before, final)
    requires var s := U.UnitIn(items, n - 1).value.0;
             Sound(s) && |s.scopes| == 1 && EnvOf(s.scopes) == FileEnv(items[..n - 1], ids[..n - 1])
    ensures UnitReached(items, n, ids, prog, final)
  {
    hide Once, OneLinked, Ordered, Count, Agree, Marks, Sound, U.ItemParsed, FnFrom, Declares, InitFrom, FileEnv, EnvOf, U.FunctionIn, D.Declared, CalmBut,
      ParamIds, IdsIn, UnitIds;
    var all, i, id := items[..n], items[n - 1], ids[n - 1];
    assert all[..n - 1] == items[..n - 1] && all[n - 1] == i && ids == ids[..n - 1] + [id];
    var s := U.UnitIn(items, n - 1).value.0;
    UnitIdsNext(all, ids[..n - 1], before, id, prog, final);
    ItemOk(i);
    LastLinked(i, id, if prog == [] then None else Some(prog[|prog| - 1]), FileEnv(items[..n - 1], ids[..n - 1]), final);
    NotMarked(s.symbols, all, ids, final);
    if Defines(i) {
      var f := prog[|prog| - 1];
      FunctionAccepted(s, i, f, final);
      MarksNext(s.symbols, U.FunctionIn(s, i).value.0.symbols, all, ids, final, true, false);
      assert prog == before + [f];
    } else {
      OneId2(id, |s.symbols|, final);
      DeclaredAccepted(s, i.decl, id, final);
      MarksNext(s.symbols, D.Declared(s, i.decl).value.0.symbols, all, ids, final, false, i.decl.init.Some?);
    }
  }

  lemma LastLinked(i: Item, id: nat, f: Option<Fn>, env: Env, syms: seq<D.Sym>)
    requires !i.decl.isParameter
    requires if Defines(i) then f.Some? && f.value.id == id && FnFrom(i, f.value, env, syms) else Declares(i.decl, id, env, true, syms)
    ensures id < |syms| && !syms[id].linkage.NoLinkage?
  {
    hide Declares, AllFrom, ParamsFrom, JumpsFrom;
    FileLinked(i.decl, id, env, syms);
  }

  function Finished(symbols: seq<D.Sym>): (r: seq<D.Sym>)
    ensures |r| == |symbols| && forall k :: 0 <= k < |r| ==> r[k] == D.Defined(symbols[k])
  {
    seq(|symbols|, k requires 0 <= k < |symbols| => D.Defined(symbols[k]))
  }

  ghost predicate HasElaboration(items: seq<Item>, prog: seq<Fn>) {
    exists syms :: Elaborates(items, prog, syms)
  }

  /** Analysis accepts exactly the units that have an elaboration, and that is what it makes of them. */
  lemma AcceptedExactly(items: seq<Item>, prog: seq<Fn>)
    requires forall k :: 0 <= k < |items| ==> U.ItemParsed(items[k])
    ensures HasElaboration(items, prog) <==> U.UnitIn(items, |items|).Some? && U.UnitIn(items, |items|).value.1 == prog
  {
    hide ElaboratedBy, U.UnitIn, U.ItemParsed, D.Evolves;
    assert items[..|items|] == items;
    if HasElaboration(items, prog) {
      var syms :| Elaborates(items, prog, syms);
      var ids :| ElaboratedBy(items, ids, prog, syms);
      assert UnitAsked(items, |items|, ids, prog, syms) by { UnitAskedIs(items, ids, prog, syms); }
      UnitAccepted(items, |items|, ids, prog, syms);
    }
    if U.UnitIn(items, |items|).Some? && U.UnitIn(items, |items|).value.1 == prog {
      var s := U.UnitIn(items, |items|).value.0;
      var final := Finished(s.symbols);
      FinishedEvolves(s.symbols, final);
      UnitSound(items, final);
      assert ElaboratedBy(items, DeclIds(items, |items|), prog, final);
      assert Elaborates(items, prog, final);
    }
  }

  lemma UnitAskedIs(items: seq<Item>, ids: seq<nat>, prog: seq<Fn>, syms: seq<D.Sym>)
    requires (forall k :: 0 <= k < |items| ==> U.ItemParsed(items[k])) && ElaboratedBy(items, ids, prog, syms)
    ensures UnitAsked(items, |items|, ids, prog, syms)
  {
    assert items[..|items|] == items;
  }

  lemma FinishedEvolves(a: seq<D.Sym>, b: seq<D.Sym>)
    requires |b| == |a| && forall k :: 0 <= k < |a| ==> b[k] == D.Defined(a[k])
    ensures D.Evolves(a, b) && forall k :: 0 <= k < |b| ==> !b[k].init.InitTentative?
  {
  }
}
