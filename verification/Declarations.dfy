/** Declarations: linkage, redeclaration and tentative definitions (sections 6.2.2 and 6.9.2 of
    ISO/IEC 9899:2011). */
module Declarations {
  import opened Arith
  import opened Ast
  import opened Syntax
  import opened Folding
  import opened Analysis
  import opened ExprProof
  import opened Frames
  import opened Typing

  datatype Linkage = NoLinkage | Internal | External
  datatype Duration = Automatic | Static
  datatype Init = InitNone | InitTentative | InitConstant(value: int)

  /** A symbol; its id is its position in the table. */
  datatype Sym = Sym(name: string, isFunction: bool, ty: Ty, linkage: Linkage, duration: Duration, defined: bool, init: Init)

  function InheritedLinkage(prior: Option<Sym>): Linkage {
    if prior.Some? && !prior.value.linkage.NoLinkage? then prior.value.linkage else External
  }

  function DetermineLinkage(d: Declaration, prior: Option<Sym>, global: bool): Linkage {
    if d.isParameter then NoLinkage
    else if d.isFunction then if d.sc.ScStatic? then Internal else InheritedLinkage(prior)
    else if d.sc.ScExtern? then InheritedLinkage(prior)
    else if global && d.sc.ScStatic? then Internal
    else if global && d.sc.ScNone? then External
    else NoLinkage
  }

  function DetermineDuration(d: Declaration, global: bool): Duration {
    if d.isFunction || global || d.sc.ScStatic? || d.sc.ScExtern? then Static else Automatic
  }

  predicate IsTentative(d: Declaration, global: bool) {
    !d.isFunction && d.init.None? && !d.sc.ScExtern? && DetermineDuration(d, global).Static?
  }

  /** Tentative definitions (sections 6.9.2 and 6.7.9): objects without initialiser, at file scope unless 'extern', in a
      block only if 'static'. */
  lemma TentativeIs(d: Declaration, global: bool)
    requires ValidDeclaration(d, global)
    ensures IsTentative(d, global) <==>
              !d.isFunction && d.init.None? && (d.sc.ScStatic? || (global && d.sc.ScNone?))
  {
  }

  /** Only declarations with linkage can be repeated, and they always have static duration. */
  lemma LinkageIsStatic(d: Declaration, prior: Option<Sym>, global: bool)
    ensures !DetermineLinkage(d, prior, global).NoLinkage? ==> DetermineDuration(d, global).Static?
  {
  }

  predicate ValidDeclaration(d: Declaration, global: bool) {
    && (global ==> !d.sc.ScAuto? && !d.sc.ScRegister?)
    && (if d.isFunction then
          && (global || d.sc.ScNone? || d.sc.ScExtern?)
          && (d.hasBody ==> d.sc.ScNone? || d.sc.ScExtern? || d.sc.ScStatic?)
        else
          !d.ty.Void? && (global || !d.sc.ScExtern? || d.init.None?))
  }

  /** What the parser guarantees of a declaration. */
  predicate DeclarationOk(d: Declaration) {
    && IsIdentifier(d.name) && d.isFunction == d.ty.Function? && (d.isFunction ==> d.init.None? && !d.ty.ret.Function? && ParamsParsed(d.params, d.ty.params))
    && (d.init.Some? ==> Parsed(d.init.value))
  }

  predicate ParamsParsed(ps: seq<Declaration>, tys: seq<Ty>) {
    |ps| == |tys| && forall k :: 0 <= k < |ps| ==> ParamParsed(ps[k], tys[k])
  }

  predicate ParamParsed(p: Declaration, ty: Ty) {
    p.isParameter && (p.name == "" || IsIdentifier(p.name)) && p.ty == ty && p.isFunction == p.ty.Function? && p.init.None?
  }

  /** A parameter that analysis accepts. */
  predicate ParamValid(p: Declaration) {
    IsArithmetic(p.ty) && (p.sc.ScNone? || p.sc.ScRegister?)
  }

  type Names = map<string, nat>

  function Find(scopes: seq<Names>, name: string): Option<nat> {
    if scopes == [] then None
    else if name in scopes[|scopes| - 1] then Some(scopes[|scopes| - 1][name])
    else Find(scopes[..|scopes| - 1], name)
  }

  predicate NamesOk(names: Names, symbols: seq<Sym>) {
    forall n :: n in names ==> names[n] < |symbols| && symbols[names[n]].name == n
  }

  lemma {:induction false} FindOk(scopes: seq<Names>, symbols: seq<Sym>, name: string)
    requires forall k :: 0 <= k < |scopes| ==> NamesOk(scopes[k], symbols)
    ensures Find(scopes, name).Some? ==> Find(scopes, name).value < |symbols| && symbols[Find(scopes, name).value].name == name
  {
    if scopes != [] && name !in scopes[|scopes| - 1] { FindOk(scopes[..|scopes| - 1], symbols, name); }
  }

  /** Scope 'k' declares 'name', and no scope within it does. */
  predicate Innermost(scopes: seq<Names>, name: string, k: nat) {
    k < |scopes| && name in scopes[k] && forall j :: k < j < |scopes| ==> name !in scopes[j]
  }

  /** Lexical scoping (section 6.2.1): a name stands for its innermost declaration, and for nothing only
      if no scope declares it. */
  lemma {:induction false} FindInnermost(scopes: seq<Names>, name: string)
    ensures forall i: nat :: Find(scopes, name) == Some(i) <==> exists k: nat :: Innermost(scopes, name, k) && scopes[k][name] == i
    ensures Find(scopes, name).None? <==> forall k :: 0 <= k < |scopes| ==> name !in scopes[k]
  {
    if scopes != [] {
      var n := |scopes| - 1;
      if name in scopes[n] {
        assert Innermost(scopes, name, n);
        assert forall k: nat :: Innermost(scopes, name, k) ==> k == n;
      } else {
        FindInnermost(scopes[..n], name);
        forall k: nat ensures Innermost(scopes[..n], name, k) <==> Innermost(scopes, name, k) {
          assert forall j :: 0 <= j < n ==> scopes[..n][j] == scopes[j];
        }
      }
    }
  }

  /** Symbol 'i' of the table as an expression refers to it. */
  function SymbolAt(symbols: seq<Sym>, i: nat): Symbol
    requires i < |symbols|
  {
    Symbol(i, symbols[i].ty, symbols[i].duration.Static?)
  }

  /** The names an expression sees. */
  function ScopeOf(scopes: seq<Names>, symbols: seq<Sym>): Scope {
    name =>
      var i := Find(scopes, name);
      if i.None? || i.value >= |symbols| then None else Some(SymbolAt(symbols, i.value))
  }

  /** An object's initial value moves only from none to tentative to constant. */
  predicate Forward(a: Init, b: Init) {
    a == b || a.InitNone? || (a.InitTentative? && b.InitConstant?)
  }

  predicate Later(a: Sym, b: Sym) {
    && b.name == a.name && b.ty == a.ty && b.isFunction == a.isFunction && b.linkage == a.linkage && b.duration == a.duration
    && Forward(a.init, b.init) && (a.defined ==> b.defined)
  }

  /** Symbols are never removed or changed in kind. */
  predicate Evolves(a: seq<Sym>, b: seq<Sym>) {
    |a| <= |b| && forall i :: 0 <= i < |a| ==> Later(a[i], b[i])
  }

  /** A declaration as it was processed: the symbol it declares, whether it is a tentative definition,
      and its constant initial value. */
  datatype Entry = Entry(sym: nat, tentative: bool, value: Option<int>)

  /** Entry 'k' of the log initialises symbol 'i'. */
  predicate Initialises(log: seq<Entry>, k: int, i: nat)
    requires 0 <= k < |log|
  {
    log[k].sym == i && log[k].value.Some?
  }

  predicate Tentatively(log: seq<Entry>, k: int, i: nat)
    requires 0 <= k < |log|
  {
    log[k].sym == i && log[k].tentative
  }

  /** What the declarations of symbol 'i' so far amount to. */
  ghost predicate Accounts(log: seq<Entry>, i: nat, init: Init) {
    match init
    case InitNone => forall k :: 0 <= k < |log| ==> !Initialises(log, k, i) && !Tentatively(log, k, i)
    case InitTentative =>
      (forall k :: 0 <= k < |log| ==> !Initialises(log, k, i)) && exists k :: 0 <= k < |log| && Tentatively(log, k, i)
    case InitConstant(v) =>
      exists k :: 0 <= k < |log| && Initialises(log, k, i) && log[k].value.value == v
                  && forall j :: 0 <= j < |log| && Initialises(log, j, i) ==> j == k
  }

  ghost predicate AllAccounted(log: seq<Entry>, symbols: seq<Sym>) {
    && (forall k :: 0 <= k < |log| ==> log[k].sym < |symbols|)
    && forall i :: 0 <= i < |symbols| ==> Accounts(log, i, symbols[i].init)
  }

  lemma AccountsOther(log: seq<Entry>, e: Entry, i: nat, init: Init)
    requires Accounts(log, i, init) && (e.sym != i || (!e.tentative && e.value.None?))
    ensures Accounts(log + [e], i, init)
  {
    var log' := log + [e];
    assert forall k :: 0 <= k < |log| ==> log'[k] == log[k];
    assert forall k :: 0 <= k < |log'| && Initialises(log', k, i) ==> k < |log| && Initialises(log, k, i);
    assert forall k :: 0 <= k < |log'| && Tentatively(log', k, i) ==> k < |log| && Tentatively(log, k, i);
    match init
    case InitNone =>
    case InitTentative =>
      var k :| 0 <= k < |log| && Tentatively(log, k, i);
      assert Tentatively(log', k, i);
    case InitConstant(v) =>
      var k :| 0 <= k < |log| && Initialises(log, k, i) && log[k].value.value == v
               && forall j :: 0 <= j < |log| && Initialises(log, j, i) ==> j == k;
      assert Initialises(log', k, i);
  }

  /** One more tentative definition. */
  lemma AccountsTentative(log: seq<Entry>, i: nat, init: Init)
    requires Accounts(log, i, init)
    ensures Accounts(log + [Entry(i, true, None)], i, if init.InitNone? then InitTentative else init)
  {
    var log' := log + [Entry(i, true, None)];
    assert forall k :: 0 <= k < |log| ==> log'[k] == log[k];
    assert Tentatively(log', |log|, i);
    match init
    case InitConstant(v) =>
      var k :| 0 <= k < |log| && Initialises(log, k, i) && log[k].value.value == v
               && forall j :: 0 <= j < |log| && Initialises(log, j, i) ==> j == k;
      assert Initialises(log', k, i);
      assert forall j :: 0 <= j < |log'| && Initialises(log', j, i) ==> j < |log| && Initialises(log, j, i);
    case _ => assert forall j :: 0 <= j < |log'| && Initialises(log', j, i) ==> j < |log| && Initialises(log, j, i);
  }

  /** The first initialiser. */
  lemma AccountsConstant(log: seq<Entry>, i: nat, init: Init, v: int)
    requires Accounts(log, i, init) && !init.InitConstant?
    ensures Accounts(log + [Entry(i, false, Some(v))], i, InitConstant(v))
  {
    var log' := log + [Entry(i, false, Some(v))];
    assert forall k :: 0 <= k < |log| ==> log'[k] == log[k];
    assert Initialises(log', |log|, i);
    assert forall j :: 0 <= j < |log'| && Initialises(log', j, i) ==> j == |log| || Initialises(log, j, i);
  }

  /** The scopes with 'name' bound to 'i' in the innermost. */
  function Install(scopes: seq<Names>, name: string, i: nat): seq<Names>
    requires scopes != []
  {
    var top: Names := scopes[|scopes| - 1];
    var top2: Names := top[name := i];
    scopes[..|scopes| - 1] + [top2]
  }

  predicate SymOk(y: Sym) {
    && IsIdentifier(y.name) && y.isFunction == y.ty.Function?
    && (y.isFunction || !y.linkage.NoLinkage? ==> y.duration.Static?)
  }

  /** At most one symbol with linkage exists per name, and it is the one in 'linked'. */
  predicate LinkedOk(linked: Names, symbols: seq<Sym>) {
    && NamesOk(linked, symbols) && (forall n :: n in linked ==> !symbols[linked[n]].linkage.NoLinkage?)
    && forall i :: 0 <= i < |symbols| && !symbols[i].linkage.NoLinkage? ==> symbols[i].name in linked && linked[symbols[i].name] == i
  }

  ghost predicate TableOk(scopes: seq<Names>, linked: Names, symbols: seq<Sym>) {
    && scopes != [] && (forall k :: 0 <= k < |scopes| ==> NamesOk(scopes[k], symbols))
    && LinkedOk(linked, symbols) && forall i :: 0 <= i < |symbols| ==> SymOk(symbols[i])
  }

  /** Objects are arithmetic; functions take arithmetic arguments and return an arithmetic value or none. */
  predicate TypeFine(t: Ty) {
    if t.Function? then (IsArithmetic(t.ret) || t.ret.Void?) && forall k :: 0 <= k < |t.params| ==> IsArithmetic(t.params[k])
    else IsArithmetic(t)
  }

  predicate TypesFine(symbols: seq<Sym>) {
    forall i :: 0 <= i < |symbols| ==> TypeFine(symbols[i].ty)
  }

  /** The types of all objects and functions declared so far. */
  function TypesOf(symbols: seq<Sym>): Types {
    Types(map i: nat | i < |symbols| && !symbols[i].ty.Function? && symbols[i].duration.Automatic? :: symbols[i].ty,
          map i: nat | i < |symbols| && !symbols[i].ty.Function? && symbols[i].duration.Static? :: symbols[i].ty,
          map i: nat | i < |symbols| && symbols[i].ty.Function? :: symbols[i].ty.params,
          map i: nat | i < |symbols| && symbols[i].ty.Function? :: symbols[i].ty.ret)
  }

  lemma EvolvesGrow(a: seq<Sym>, b: seq<Sym>)
    requires Evolves(a, b)
    ensures Grow(TypesOf(a), TypesOf(b))
  {
    assert forall i :: 0 <= i < |a| ==> Later(a[i], b[i]);
  }

  /** The names in scope are what expression analysis relies on: each stands for the symbol of its own name
      that the innermost scope declaring it binds. */
  lemma ScopeFine(scopes: seq<Names>, linked: Names, symbols: seq<Sym>)
    requires TableOk(scopes, linked, symbols) && TypesFine(symbols)
    ensures ScopeOk(ScopeOf(scopes, symbols), TypesOf(symbols), |symbols|)
    ensures forall n, k: nat :: Innermost(scopes, n, k) ==>
              && scopes[k][n] < |symbols| && symbols[scopes[k][n]].name == n
              && ScopeOf(scopes, symbols)(n) == Some(SymbolAt(symbols, scopes[k][n]))
    ensures forall n :: ScopeOf(scopes, symbols)(n).None? <==> forall k :: 0 <= k < |scopes| ==> n !in scopes[k]
  {
    hide TableOk;
    var sc := ScopeOf(scopes, symbols);
    forall n | sc(n).Some? ensures SymbolOk(sc(n).value, TypesOf(symbols), |symbols|) {
      var i := Find(scopes, n).value;
      assert TypeFine(symbols[i].ty) && SymOk(symbols[i]) by { TableAt(scopes, linked, symbols, i); }
    }
    ScopeBinds(scopes, linked, symbols);
  }

  lemma ScopeBinds(scopes: seq<Names>, linked: Names, symbols: seq<Sym>)
    requires TableOk(scopes, linked, symbols)
    ensures forall n, k: nat :: Innermost(scopes, n, k) ==>
              && scopes[k][n] < |symbols| && symbols[scopes[k][n]].name == n
              && ScopeOf(scopes, symbols)(n) == Some(SymbolAt(symbols, scopes[k][n]))
    ensures forall n :: ScopeOf(scopes, symbols)(n).None? <==> forall k :: 0 <= k < |scopes| ==> n !in scopes[k]
  {
    hide LinkedOk;
    forall n, k: nat | Innermost(scopes, n, k)
      ensures scopes[k][n] < |symbols| && symbols[scopes[k][n]].name == n
      ensures ScopeOf(scopes, symbols)(n) == Some(SymbolAt(symbols, scopes[k][n]))
    {
      assert NamesOk(scopes[k], symbols);
      FindInnermost(scopes, n);
    }
    forall n ensures ScopeOf(scopes, symbols)(n).None? <==> forall k :: 0 <= k < |scopes| ==> n !in scopes[k] {
      FindInnermost(scopes, n);
      TableFind(scopes, linked, symbols, n);
    }
  }

  /** Only static objects have an initial value, and the log says which. */
  ghost predicate InitsOk(log: seq<Entry>, symbols: seq<Sym>) {
    && (forall i :: 0 <= i < |symbols| && !symbols[i].init.InitNone? ==> symbols[i].duration.Static? && !symbols[i].isFunction)
    && AllAccounted(log, symbols)
  }

  lemma TableEvolves(scopes: seq<Names>, linked: Names, a: seq<Sym>, b: seq<Sym>)
    requires TableOk(scopes, linked, a) && |b| == |a| && Evolves(a, b)
    ensures TableOk(scopes, linked, b)
  {
    forall k | 0 <= k < |scopes| ensures NamesOk(scopes[k], b) { assert NamesOk(scopes[k], a); }
    forall i | 0 <= i < |b| ensures SymOk(b[i]) { assert SymOk(a[i]) && Later(a[i], b[i]); }
    forall n | n in linked ensures !b[linked[n]].linkage.NoLinkage? && b[linked[n]].name == n { assert Later(a[linked[n]], b[linked[n]]); }
    forall i | 0 <= i < |b| && !b[i].linkage.NoLinkage? ensures b[i].name in linked && linked[b[i].name] == i { assert Later(a[i], b[i]); }
  }

  lemma TableInstall(scopes: seq<Names>, linked: Names, symbols: seq<Sym>, name: string, i: nat)
    requires TableOk(scopes, linked, symbols) && i < |symbols| && symbols[i].name == name
    ensures TableOk(Install(scopes, name, i), linked, symbols)
  {
    var s := Install(scopes, name, i);
    forall k | 0 <= k < |s| ensures NamesOk(s[k], symbols) {
      assert NamesOk(scopes[k], symbols);
    }
  }

  /** A new symbol, with linkage only if its name had none. */
  lemma TableAdd(scopes: seq<Names>, linked: Names, symbols: seq<Sym>, y: Sym)
    requires TableOk(scopes, linked, symbols) && SymOk(y) && (!y.linkage.NoLinkage? ==> y.name !in linked)
    ensures var linked2: Names := if y.linkage.NoLinkage? then linked else linked[y.name := |symbols|];
            TableOk(Install(scopes, y.name, |symbols|), linked2, symbols + [y])
  {
    var more := symbols + [y];
    var linked2: Names := if y.linkage.NoLinkage? then linked else linked[y.name := |symbols|];
    forall k | 0 <= k < |scopes| ensures NamesOk(scopes[k], more) { assert NamesOk(scopes[k], symbols); }
    var s := Install(scopes, y.name, |symbols|);
    forall k | 0 <= k < |s| ensures NamesOk(s[k], more) { assert NamesOk(scopes[k], more); }
    forall i | 0 <= i < |more| ensures SymOk(more[i]) { if i < |symbols| { assert SymOk(symbols[i]); } }
    assert LinkedOk(linked2, more);
  }

  lemma LogAdd(log: seq<Entry>, symbols: seq<Sym>, y: Sym, tentative: bool)
    requires InitsOk(log, symbols) && y.init == (if tentative then InitTentative else InitNone)
    requires tentative ==> y.duration.Static? && !y.isFunction
    ensures InitsOk(log + [Entry(|symbols|, tentative, None)], symbols + [y])
  {
    hide Accounts;
    var e, more := Entry(|symbols|, tentative, None), symbols + [y];
    forall i | 0 <= i < |more| ensures Accounts(log + [e], i, more[i].init) {
      if i < |symbols| { AccountsOther(log, e, i, symbols[i].init); }
      else { NothingYet(log, symbols); if tentative { AccountsTentative(log, i, InitNone); } else { AccountsOther(log, e, i, InitNone); } }
    }
    assert forall k :: 0 <= k < |log| ==> (log + [e])[k] == log[k];
  }

  lemma NothingYet(log: seq<Entry>, symbols: seq<Sym>)
    requires AllAccounted(log, symbols)
    ensures Accounts(log, |symbols|, InitNone)
  {
  }

  /** One symbol's initial value follows the log. */
  lemma LogStep(log: seq<Entry>, symbols: seq<Sym>, e: Entry, y: Sym)
    requires InitsOk(log, symbols) && e.sym < |symbols| && Accounts(log + [e], e.sym, y.init)
    requires !y.init.InitNone? ==> y.duration.Static? && !y.isFunction
    ensures InitsOk(log + [e], symbols[e.sym := y])
  {
    hide Accounts;
    var next := symbols[e.sym := y];
    forall i | 0 <= i < |next| ensures Accounts(log + [e], i, next[i].init) {
      if i != e.sym { AccountsOther(log, e, i, symbols[i].init); }
    }
    assert forall k :: 0 <= k < |log| ==> (log + [e])[k] == log[k];
  }

  /** A tentative definition becomes one with value 0. */
  function Defined(y: Sym): Sym {
    if y.init.InitTentative? then y.(init := InitConstant(0)) else y
  }

  /** What analysis has seen so far. */
  datatype State = State(scopes: seq<Names>, linked: Names, symbols: seq<Sym>)

  /** The declaration may repeat one of 'y'. */
  predicate MayRedeclare(d: Declaration, link: Linkage, y: Sym) {
    link == y.linkage && d.ty == y.ty && !(d.isFunction && d.hasBody && y.defined)
  }

  /** 'y' after one more declaration of it. */
  function Redeclared(d: Declaration, tentative: bool, y: Sym): Sym {
    var z := if d.isFunction && d.hasBody then y.(defined := true) else y;
    if tentative && z.init.InitNone? then z.(init := InitTentative) else z
  }

  function SymAt(s: State, i: Option<nat>): Option<Sym> {
    if i.None? || i.value >= |s.symbols| then None else Some(s.symbols[i.value])
  }

  function Merged(s: State, d: Declaration, link: Linkage, i: nat, install: bool): (r: Option<(State, nat)>)
    requires s.scopes != []
    ensures r.Some? ==> |r.value.0.scopes| == |s.scopes| && r.value.1 < |r.value.0.symbols| == |s.symbols|
  {
    if i >= |s.symbols| || !MayRedeclare(d, link, s.symbols[i]) then None
    else
      var symbols := s.symbols[i := Redeclared(d, IsTentative(d, |s.scopes| == 1), s.symbols[i])];
      Some((State(if install then Install(s.scopes, d.name, i) else s.scopes, s.linked, symbols), i))
  }

  /** A symbol of its own. */
  function Added(s: State, d: Declaration, link: Linkage): (r: (State, nat))
    requires s.scopes != []
    ensures |r.0.scopes| == |s.scopes| && r.1 == |s.symbols| < |r.0.symbols|
  {
    var global, i := |s.scopes| == 1, |s.symbols|;
    var y := Sym(d.name, d.isFunction, d.ty, link, DetermineDuration(d, global), d.isFunction && d.hasBody,
                 if IsTentative(d, global) then InitTentative else InitNone);
    var linked2: Names := if link.NoLinkage? then s.linked else s.linked[d.name := i];
    (State(Install(s.scopes, d.name, i), linked2, s.symbols + [y]), i)
  }

  /** Binding a declaration; None is an error. In one scope only declarations with linkage may be repeated. */
  function Bound(s: State, d: Declaration): (r: Option<(State, nat)>)
    requires s.scopes != []
    ensures r.Some? ==> |r.value.0.scopes| == |s.scopes| && r.value.1 < |r.value.0.symbols| && |s.symbols| <= |r.value.0.symbols|
  {
    var top := s.scopes[|s.scopes| - 1];
    var link := DetermineLinkage(d, SymAt(s, Find(s.scopes, d.name)), |s.scopes| == 1);
    if d.name in top then
      if link.NoLinkage? || SymAt(s, Some(top[d.name])).None? || s.symbols[top[d.name]].linkage.NoLinkage? then None
      else Merged(s, d, link, top[d.name], false)
    else if !link.NoLinkage? && d.name in s.linked then Merged(s, d, link, s.linked[d.name], true)
    else Some(Added(s, d, link))
  }

  /** Analysing an initialiser; None is an error. */
  function Initialised(s: State, d: Declaration, i: nat): (r: Option<(State, Expr)>)
    requires d.init.Some?
    ensures r.Some? ==> |r.value.0.scopes| == |s.scopes| && |r.value.0.symbols| == |s.symbols|
  {
    var t := Analyze(d.init.value, ScopeOf(s.scopes, s.symbols));
    if t.None? || !IsArithmetic(t.value.ty) || !IsArithmetic(d.ty) || i >= |s.symbols| then None
    else
      var e := ConvertTo(t.value, d.ty);
      if !DetermineDuration(d, |s.scopes| == 1).Static? then Some((s, e))
      else if Fold(e).None? || s.symbols[i].init.InitConstant? then None
      else Some((s.(symbols := s.symbols[i := s.symbols[i].(init := InitConstant(Fold(e).value))]), e))
  }

  predicate ParamsValid(ps: seq<Declaration>) {
    && (forall k :: 0 <= k < |ps| ==> !ps[k].isFunction && ParamValid(ps[k]))
    && forall j, k :: 0 <= j < k < |ps| && ps[j].name != "" ==> ps[j].name != ps[k].name
  }

  /** One declarator; None is an error. */
  function Declared(s: State, d: Declaration): (r: Option<(State, nat, Option<Expr>)>)
    requires s.scopes != []
    ensures r.Some? ==> |r.value.0.scopes| == |s.scopes| && r.value.1 < |r.value.0.symbols| && |s.symbols| <= |r.value.0.symbols|
  {
    if (d.isFunction && !ParamsValid(d.params)) || !ValidDeclaration(d, |s.scopes| == 1) then None
    else
      var b := Bound(s, d);
      if b.None? then None
      else if d.init.None? then Some((b.value.0, b.value.1, None))
      else
        var r := Initialised(b.value.0, d, b.value.1);
        if r.None? then None else Some((r.value.0, b.value.1, Some(r.value.1)))
  }

  class Table {
    var scopes: seq<Names>
    var linked: Names
    var symbols: seq<Sym>
    var errors: nat
    /** The declarations processed so far. */
    ghost var log: seq<Entry>

    ghost predicate Valid()
      reads this
    {
      TableOk(scopes, linked, symbols) && (errors == 0 ==> InitsOk(log, symbols) && TypesFine(symbols))
    }

    function Current(): State
      reads this
    {
      State(scopes, linked, symbols)
    }

    predicate Global()
      reads this
    {
      |scopes| == 1
    }

    constructor ()
      ensures Valid() && scopes == [map[]] && linked == map[] && symbols == [] && errors == 0 && log == []
    {
      scopes, linked, symbols, errors, log := [map[]], map[], [], 0, [];
    }

    method PushScope()
      requires Valid()
      modifies `scopes
      ensures Valid() && scopes == old(scopes) + [map[]]
    {
      hide LinkedOk, InitsOk;
      scopes := scopes + [map[]];
    }

    method PopScope()
      requires Valid() && |scopes| > 1
      modifies `scopes
      ensures Valid() && scopes == old(scopes)[..|old(scopes)| - 1]
    {
      hide LinkedOk, InitsOk;
      scopes := scopes[..|scopes| - 1];
    }

    method Error()
      modifies `errors
      ensures errors == old(errors) + 1
    {
      errors := errors + 1;
    }

    /** A redeclaration must have the linkage and type of the symbol, and a function one body. */
    method CheckRedeclaration(d: Declaration, link: Linkage, y: Sym)
      modifies `errors
      ensures errors >= old(errors)
      ensures errors == old(errors) <==> MayRedeclare(d, link, y)
    {
      hide Compatible;
      CompatibleIsSame(d.ty, y.ty);
      if link != y.linkage { Error(); }
      if !Compatible(d.ty, y.ty) { Error(); }
      if d.isFunction && d.hasBody && y.defined { Error(); }
    }

    /** Another declaration of 'sym'; 'install' makes it visible in the current scope. */
    method MergeRedeclaration(d: Declaration, link: Linkage, tentative: bool, sym: nat, install: bool)
      requires Valid() && sym < |symbols| && symbols[sym].name == d.name && !symbols[sym].linkage.NoLinkage?
      requires d.isFunction == d.ty.Function? && (tentative ==> !d.isFunction)
      modifies `symbols, `errors, `scopes, `log
      ensures Valid() && Evolves(old(symbols), symbols) && |symbols| == |old(symbols)| && errors >= old(errors)
      ensures errors == old(errors) ==> link == symbols[sym].linkage && d.ty == symbols[sym].ty
      ensures errors == old(errors) && d.isFunction && d.hasBody ==> symbols[sym].defined && !old(symbols)[sym].defined
      ensures scopes == if install then Install(old(scopes), d.name, sym) else old(scopes)
      ensures log == old(log) + [Entry(sym, tentative, None)]
      ensures errors == old(errors) <==> MayRedeclare(d, link, old(symbols)[sym])
      ensures symbols == old(symbols)[sym := Redeclared(d, tentative, old(symbols)[sym])]
    {
      hide TableOk, InitsOk;
      ghost var was := symbols;
      assert SymOk(symbols[sym]) && scopes != [] by { TableAt(scopes, linked, symbols, sym); }
      var y := symbols[sym];
      CheckRedeclaration(d, link, y);
      if d.isFunction && d.hasBody { y := y.(defined := true); }
      if tentative && y.init.InitNone? { y := y.(init := InitTentative); }
      assert Evolves(was, was[sym := y]) by { OneLater(was, sym, y); }
      symbols := symbols[sym := y];
      log := log + [Entry(sym, tentative, None)];
      TableEvolves(scopes, linked, was, symbols);
      if errors == 0 {
        MergeLogged(old(log), was, sym, tentative, y);
        TypesStay(was, symbols);
      }
      if install {
        TableInstall(scopes, linked, symbols, d.name, sym);
        scopes := Install(scopes, d.name, sym);
      }
    }

    /** Binds a declaration to its symbol, new or already declared. */
    method BindDeclaration(d: Declaration) returns (sym: nat)
      requires Valid() && d.isFunction == d.ty.Function? && IsIdentifier(d.name)
      requires errors == 0 ==> TypeFine(d.ty)
      modifies this
      ensures Valid() && Evolves(old(symbols), symbols) && errors >= old(errors) && sym < |symbols| && symbols[sym].name == d.name
      ensures |scopes| == |old(scopes)|
      ensures errors == old(errors) ==>
                && log == old(log) + [Entry(sym, IsTentative(d, |old(scopes)| == 1), None)]
                && symbols[sym].ty == d.ty && symbols[sym].duration == DetermineDuration(d, |old(scopes)| == 1)
                && d.name in scopes[|scopes| - 1] && scopes[|scopes| - 1][d.name] == sym
                && (d.isParameter ==> sym == |old(symbols)|)
                && (d.hasBody && d.isFunction ==> symbols[sym].defined && (sym < |old(symbols)| ==> !old(symbols)[sym].defined))
      ensures old(scopes) != [] && (errors == old(errors) <==> Bound(old(Current()), d).Some?)
      ensures errors == old(errors) ==> Bound(old(Current()), d) == Some((Current(), sym))
    {
      hide TableOk, InitsOk, Accounts, Added, Redeclared, TypesFine, MayRedeclare, IsIdentifier;
      var global := Global();
      var prior := Find(scopes, d.name);
      TableFind(scopes, linked, symbols, d.name);
      var link := DetermineLinkage(d, if prior.None? then None else Some(symbols[prior.value]), global);
      var tentative := IsTentative(d, global);
      LinkageIsStatic(d, if prior.None? then None else Some(symbols[prior.value]), global);
      var top := scopes[|scopes| - 1];
      if d.name in top {
        sym := top[d.name];
        if link.NoLinkage? || symbols[sym].linkage.NoLinkage? {
          Error();
        } else {
          MergeRedeclaration(d, link, tentative, sym, false);
          assert SymOk(symbols[sym]) by { TableAt(scopes, linked, symbols, sym); }
        }
        return;
      }
      if !link.NoLinkage? && d.name in linked {
        sym := linked[d.name];
        MergeRedeclaration(d, link, tentative, sym, true);
        assert SymOk(symbols[sym]) by { TableAt(scopes, linked, symbols, sym); }
        return;
      }
      sym := NewSymbol(d, link);
    }

    /** A symbol of its own for the declaration. */
    method NewSymbol(d: Declaration, link: Linkage) returns (sym: nat)
      requires Valid() && IsIdentifier(d.name) && d.isFunction == d.ty.Function? && (!link.NoLinkage? ==> d.name !in linked && DetermineDuration(d, Global()).Static?)
      requires errors == 0 ==> TypeFine(d.ty)
      modifies this
      ensures Valid() && Evolves(old(symbols), symbols) && errors == old(errors) && sym == |old(symbols)| < |symbols|
      ensures symbols[sym].name == d.name && symbols[sym].ty == d.ty && symbols[sym].duration == DetermineDuration(d, |old(scopes)| == 1)
      ensures d.isFunction && d.hasBody ==> symbols[sym].defined
      ensures log == old(log) + [Entry(sym, IsTentative(d, |old(scopes)| == 1), None)]
      ensures old(scopes) != [] && (Current(), sym) == Added(old(Current()), d, link)
      ensures |scopes| == |old(scopes)| > 0 && d.name in scopes[|scopes| - 1] && scopes[|scopes| - 1][d.name] == sym
    {
      hide TableOk, InitsOk, Accounts, IsIdentifier, TypesFine;
      assert scopes != [] by { TableFind(scopes, linked, symbols, d.name); }
      var tentative := IsTentative(d, Global());
      sym := |symbols|;
      var y := Sym(d.name, d.isFunction, d.ty, link, DetermineDuration(d, Global()), d.isFunction && d.hasBody,
                   if tentative then InitTentative else InitNone);
      TableAdd(scopes, linked, symbols, y);
      if errors == 0 {
        LogAdd(log, symbols, y, tentative);
        TypesAdd(symbols, y);
      }
      log := log + [Entry(sym, tentative, None)];
      symbols := symbols + [y];
      scopes := Install(scopes, d.name, sym);
      if !link.NoLinkage? { linked := linked[d.name := sym]; }
    }

    /** Checks and converts an initialiser; one of static duration is folded and recorded. */
    method AnalyzeInitializer(d: Declaration, sym: nat) returns (init: Option<Expr>)
      requires Valid() && sym < |symbols| && d.init.Some? && !d.isFunction && Parsed(d.init.value)
      requires errors == 0 ==> symbols[sym].duration == DetermineDuration(d, Global()) && !symbols[sym].isFunction && IsArithmetic(d.ty)
      modifies `symbols, `errors, `log
      ensures Valid() && Evolves(old(symbols), symbols) && |symbols| == |old(symbols)| && errors >= old(errors)
      ensures errors == 0 ==> init.Some? && InitFine(init.value, d.ty, symbols)
      ensures errors == 0 && DetermineDuration(d, Global()).Automatic? ==> log == old(log)
      ensures errors == 0 && DetermineDuration(d, Global()).Static? ==>
                symbols[sym].init.InitConstant? && log == old(log) + [Entry(sym, false, Some(symbols[sym].init.value))]
                && Fold(init.value) == Some(symbols[sym].init.value)
      ensures old(errors) == 0 ==> (errors == 0 <==> Initialised(old(Current()), d, sym).Some?)
      ensures errors == 0 ==> init.Some? && Initialised(old(Current()), d, sym) == Some((Current(), init.value))
    {
      hide TableOk, InitsOk, Accounts, Analyze, Fold, TypesFine, InitFine;
      init := None;
      var t := Analyze(d.init.value, ScopeOf(scopes, symbols));
      if t.None? || !IsArithmetic(t.value.ty) {
        Error();
        return;
      }
      if !IsArithmetic(d.ty) { return; }
      init := Some(ConvertTo(t.value, d.ty));
      if errors == 0 { InitAnalyzed(d.init.value, d.ty, scopes, linked, symbols); }
      if !DetermineDuration(d, Global()).Static? { return; }
      var v := Fold(init.value);
      if v.None? || symbols[sym].init.InitConstant? {
        Error();
        return;
      }
      ghost var was := symbols;
      var y := symbols[sym].(init := InitConstant(v.value));
      OneLater(was, sym, y);
      symbols := symbols[sym := y];
      TableEvolves(scopes, linked, was, symbols);
      if errors == 0 {
        ConstantLogged(log, was, sym, v.value);
        TypesStay(was, symbols);
        InitStays(init.value, d.ty, was, symbols);
      }
      log := log + [Entry(sym, false, Some(v.value))];
    }

    /** Parameters are objects of arithmetic type and different names. */
    method ValidateParams(params: seq<Declaration>)
      requires Valid()
      modifies `errors
      ensures Valid() && errors >= old(errors)
      ensures errors == old(errors) <==> ParamsValid(params)
    {
      hide TableOk, InitsOk, TypesFine;
      var names: set<string> := {};
      for k := 0 to |params|
        invariant Valid() && errors >= old(errors)
        invariant errors == old(errors) ==> forall j :: 0 <= j < k ==> !params[j].isFunction && ParamValid(params[j])
        invariant errors == old(errors) ==> forall j :: 0 <= j < k && params[j].name != "" ==> params[j].name in names
        invariant errors == old(errors) ==> forall i, j :: 0 <= i < j < k && params[i].name != "" ==> params[i].name != params[j].name
        invariant forall n :: n in names ==> n != "" && exists j :: 0 <= j < k && params[j].name == n
        invariant errors > old(errors) ==> !ParamsValid(params)
      {
        var p := params[k];
        if p.isFunction || p.ty.Function? {
          Error();
        } else {
          if p.ty.Void? { Error(); }
          if !p.sc.ScNone? && !p.sc.ScRegister? { Error(); }
          if p.name != "" {
            if p.name in names { Error(); }
            names := names + {p.name};
          }
        }
      }
    }

    /** One declarator: its symbol and its converted initialiser. */
    method Declare(d: Declaration) returns (sym: nat, init: Option<Expr>)
      requires Valid() && DeclarationOk(d) && !d.isParameter
      modifies this
      ensures Valid() && Evolves(old(symbols), symbols) && errors >= old(errors) && sym < |symbols| && symbols[sym].name == d.name
      ensures |scopes| == |old(scopes)|
      ensures errors == 0 ==>
                && symbols[sym].ty == d.ty && symbols[sym].duration == DetermineDuration(d, |old(scopes)| == 1) && TypeFine(d.ty)
                && (d.isFunction ==> forall k :: 0 <= k < |d.params| ==> ParamValid(d.params[k]))
                && d.name in scopes[|scopes| - 1] && scopes[|scopes| - 1][d.name] == sym
                && (d.hasBody && d.isFunction ==> symbols[sym].defined && (sym < |old(symbols)| ==> !old(symbols)[sym].defined))
                && (d.init.Some? ==> init.Some? && InitFine(init.value, d.ty, symbols)) && (d.init.None? ==> init.None?)
      ensures old(scopes) != [] && (old(errors) == 0 ==> (errors == 0 <==> Declared(old(Current()), d).Some?))
      ensures errors == 0 ==> Declared(old(Current()), d) == Some((Current(), sym, init))
      ensures errors == 0 ==>
                var first := old(log) + [Entry(sym, IsTentative(d, |old(scopes)| == 1), None)];
                if d.init.None? || symbols[sym].duration.Automatic? then log == first
                else Fold(init.value).Some? && symbols[sym].init == InitConstant(Fold(init.value).value)
                     && log == first + [Entry(sym, false, Fold(init.value))]
    {
      hide TableOk, InitsOk, InitFine, TypesFine, Fold, Accounts;
      init := None;
      if d.isFunction { ValidateParams(d.params); }
      if !ValidDeclaration(d, Global()) { Error(); }
      sym := BindDeclaration(d);
      ghost var between := symbols;
      assert SymOk(symbols[sym]) by { TableAt(scopes, linked, symbols, sym); }
      if d.init.Some? { init := AnalyzeInitializer(d, sym); }
      EvolvesTrans(old(symbols), between, symbols);
    }

    /** At the end of the translation unit a tentative definition becomes one with value 0. */
    method FinishTentativeDeclarations()
      requires Valid()
      modifies `symbols
      ensures |symbols| == |old(symbols)| && Evolves(old(symbols), symbols) && TableOk(scopes, linked, symbols)
      ensures forall k :: 0 <= k < |symbols| ==> symbols[k] == Defined(old(symbols)[k])
      ensures errors == 0 ==> TypesFine(symbols) && forall i :: 0 <= i < |symbols| ==> EndsAt(log, i, symbols[i].init)
    {
      hide TableOk, InitsOk, EndsAt;
      var i := 0;
      while i < |symbols|
        invariant 0 <= i <= |symbols| == |old(symbols)|
        invariant forall k :: 0 <= k < i ==>
                    symbols[k] == old(symbols)[k].(init := if old(symbols)[k].init.InitTentative? then InitConstant(0) else old(symbols)[k].init)
        invariant forall k :: i <= k < |symbols| ==> symbols[k] == old(symbols)[k]
      {
        if symbols[i].init.InitTentative? { symbols := symbols[i := symbols[i].(init := InitConstant(0))]; }
        i := i + 1;
      }
      TableEvolves(scopes, linked, old(symbols), symbols);
      if errors == 0 {
        TypesStay(old(symbols), symbols);
        forall k | 0 <= k < |symbols| ensures EndsAt(log, k, symbols[k].init) { Finished(log, old(symbols), symbols, k); }
      }
    }
  }

  /** An analysed initialiser: of the object's type, and all that the back half asks if its uses are arithmetic. */
  ghost predicate InitFine(e: Expr, ty: Ty, symbols: seq<Sym>) {
    TypeOf(e) == ty && (UsesOk(e) ==> Good(e, TypesOf(symbols), |symbols|))
  }

  lemma InitAnalyzed(r: Raw, ty: Ty, scopes: seq<Names>, linked: Names, symbols: seq<Sym>)
    requires TableOk(scopes, linked, symbols) && TypesFine(symbols) && Parsed(r) && IsArithmetic(ty)
    requires Analyze(r, ScopeOf(scopes, symbols)).Some? && IsArithmetic(Analyze(r, ScopeOf(scopes, symbols)).value.ty)
    ensures InitFine(ConvertTo(Analyze(r, ScopeOf(scopes, symbols)).value, ty), ty, symbols)
  {
    hide TableOk, TypesFine, Analyze, TypesOf, ScopeOk, Compatible, WellTyped, ExprTyped, VarsBelow, UsesOk;
    ScopeFine(scopes, linked, symbols);
    AnalyzeSound(r, ScopeOf(scopes, symbols), TypesOf(symbols), |symbols|);
    ConvertGood(Analyze(r, ScopeOf(scopes, symbols)).value, ty, TypesOf(symbols), |symbols|);
  }

  lemma GoodStays(e: Expr, a: seq<Sym>, b: seq<Sym>)
    requires Evolves(a, b) && Good(e, TypesOf(a), |a|)
    ensures Good(e, TypesOf(b), |b|)
  {
    hide TypesOf, WellTyped, ExprTyped, VarsBelow;
    EvolvesGrow(a, b);
    ExtExpr(TypesOf(a), TypesOf(b), e);
    BelowMore(e, |a|, |b|);
  }

  lemma {:induction false} BelowMore(e: Expr, a: nat, b: nat)
    requires VarsBelow(e, a) && a <= b
    ensures VarsBelow(e, b)
    decreases e, 1
  {
    match e
    case Unary(_, x, _) => BelowMore(x, a, b);
    case Binary(_, x, y, _) => BelowMore(x, a, b); BelowMore(y, a, b);
    case Assign(_, x) => BelowMore(x, a, b);
    case Compound(_, _, _, x) => BelowMore(x, a, b);
    case Conditional(c, x, y, _) => BelowMore(c, a, b); BelowMore(x, a, b); BelowMore(y, a, b);
    case Call(_, _, args, _) => ArgsBelowMore(args, a, b);
    case Cast(_, x) => BelowMore(x, a, b);
    case _ =>
  }

  lemma {:induction false} ArgsBelowMore(args: seq<Expr>, a: nat, b: nat)
    requires ArgsBelow(args, a) && a <= b
    ensures ArgsBelow(args, b)
    decreases args, 0
  {
    if args != [] {
      BelowMore(args[0], a, b);
      ArgsBelowMore(args[1..], a, b);
    }
  }

  lemma InitStays(e: Expr, ty: Ty, a: seq<Sym>, b: seq<Sym>)
    requires InitFine(e, ty, a) && Evolves(a, b)
    ensures InitFine(e, ty, b)
  {
    hide TypesOf, Good;
    if UsesOk(e) { GoodStays(e, a, b); }
  }

  lemma TypesStay(a: seq<Sym>, b: seq<Sym>)
    requires TypesFine(a) && Evolves(a, b) && |a| == |b|
    ensures TypesFine(b)
  {
    forall i | 0 <= i < |b| ensures TypeFine(b[i].ty) { assert Later(a[i], b[i]) && TypeFine(a[i].ty); }
  }

  lemma TypesAdd(a: seq<Sym>, y: Sym)
    requires TypesFine(a) && TypeFine(y.ty)
    ensures TypesFine(a + [y])
  {
    forall i | 0 <= i < |a| ensures TypeFine((a + [y])[i].ty) { assert TypeFine(a[i].ty); }
  }

  lemma OneLater(a: seq<Sym>, i: nat, y: Sym)
    requires i < |a| && Later(a[i], y)
    ensures Evolves(a, a[i := y])
  {
  }

  lemma EvolvesTrans(a: seq<Sym>, b: seq<Sym>, c: seq<Sym>)
    requires Evolves(a, b) && Evolves(b, c)
    ensures Evolves(a, c)
  {
    forall i | 0 <= i < |a| ensures Later(a[i], c[i]) { assert Later(a[i], b[i]) && Later(b[i], c[i]); }
  }

  lemma TableAt(scopes: seq<Names>, linked: Names, symbols: seq<Sym>, i: nat)
    requires TableOk(scopes, linked, symbols) && i < |symbols|
    ensures SymOk(symbols[i]) && scopes != []
  {
  }

  lemma TableFind(scopes: seq<Names>, linked: Names, symbols: seq<Sym>, name: string)
    requires TableOk(scopes, linked, symbols)
    ensures scopes != [] && (Find(scopes, name).Some? ==> Find(scopes, name).value < |symbols|)
    ensures name in scopes[|scopes| - 1] ==> scopes[|scopes| - 1][name] < |symbols| && symbols[scopes[|scopes| - 1][name]].name == name
    ensures name in linked ==> linked[name] < |symbols| && symbols[linked[name]].name == name && !symbols[linked[name]].linkage.NoLinkage?
  {
    FindOk(scopes, symbols, name);
    assert NamesOk(scopes[|scopes| - 1], symbols);
  }

  lemma MergeLogged(log: seq<Entry>, symbols: seq<Sym>, i: nat, tentative: bool, y: Sym)
    requires InitsOk(log, symbols) && i < |symbols| && y.isFunction == symbols[i].isFunction && y.duration == symbols[i].duration
    requires y.init == if tentative && symbols[i].init.InitNone? then InitTentative else symbols[i].init
    requires tentative ==> !symbols[i].isFunction && symbols[i].duration.Static?
    ensures InitsOk(log + [Entry(i, tentative, None)], symbols[i := y])
  {
    hide Accounts;
    if tentative { AccountsTentative(log, i, symbols[i].init); } else { AccountsOther(log, Entry(i, false, None), i, symbols[i].init); }
    LogStep(log, symbols, Entry(i, tentative, None), y);
  }

  lemma ConstantLogged(log: seq<Entry>, symbols: seq<Sym>, i: nat, v: int)
    requires InitsOk(log, symbols) && i < |symbols| && !symbols[i].isFunction && symbols[i].duration.Static? && !symbols[i].init.InitConstant?
    ensures InitsOk(log + [Entry(i, false, Some(v))], symbols[i := symbols[i].(init := InitConstant(v))])
  {
    hide Accounts;
    AccountsConstant(log, i, symbols[i].init, v);
    LogStep(log, symbols, Entry(i, false, Some(v)), symbols[i].(init := InitConstant(v)));
  }

  /** The final value of an object: its only initialiser, or 0 if it was defined tentatively. */
  ghost predicate EndsAt(log: seq<Entry>, i: nat, init: Init) {
    match init
    case InitNone => forall k :: 0 <= k < |log| ==> !Initialises(log, k, i) && !Tentatively(log, k, i)
    case InitTentative => false
    case InitConstant(v) =>
      if exists k :: 0 <= k < |log| && Initialises(log, k, i) then
        exists k :: 0 <= k < |log| && Initialises(log, k, i) && log[k].value.value == v
                    && forall j :: 0 <= j < |log| && Initialises(log, j, i) ==> j == k
      else v == 0 && exists k :: 0 <= k < |log| && Tentatively(log, k, i)
  }

  /** Over every sequence of declarations: an object ends defined if and only if some declaration
      defined it, tentatively or with an initialiser, and then at its initialiser or 0. */
  lemma Finished(log: seq<Entry>, symbols: seq<Sym>, final: seq<Sym>, i: nat)
    requires InitsOk(log, symbols) && i < |symbols| == |final|
    requires final[i].init == if symbols[i].init.InitTentative? then InitConstant(0) else symbols[i].init
    ensures EndsAt(log, i, final[i].init)
  {
    assert Accounts(log, i, symbols[i].init);
  }
}
