/** Elaboration: what analysis makes of a program is that program, every part in its place, each name standing
    for the declaration in scope and each conversion that C makes written as a cast. */
module Elaboration {
  import opened Arith
  import opened Ast
  import opened Syntax
  import opened Folding
  import opened Analysis
  import opened Program
  import opened Semantics
  import opened StmtParts
  import C = Conversions
  import D = Declarations
  import A = StmtAnalysis
  import R = Resolution
  import U = Units

  /** The names in scope at a point of the program, with the symbols they stand for: those of the enclosing scopes and
      those declared in the innermost one, which hide them. */
  datatype Env = Env(outer: D.Names, here: D.Names)

  function Names(env: Env): D.Names {
    env.outer + env.here
  }

  /** The beginning of a scope. */
  function Entered(env: Env): Env {
    Env(Names(env), map[])
  }

  function With(env: Env, name: string, i: nat): Env {
    env.(here := env.here[name := i])
  }

  /** What an expression at that point sees. */
  function Seen(env: Env, syms: seq<D.Sym>): Scope {
    n => if n in Names(env) && Names(env)[n] < |syms| then Some(D.SymbolAt(syms, Names(env)[n])) else None
  }

  predicate ExprFrom(r: Raw, e: Expr, env: Env, syms: seq<D.Sym>) {
    var t := Analyze(r, Seen(env, syms));
    t.Some? && e == t.value.e
  }

  predicate OptFrom(r: Option<Raw>, e: Option<Expr>, env: Env, syms: seq<D.Sym>) {
    if r.None? then e.None? else e.Some? && ExprFrom(r.value, e.value, env, syms)
  }

  /** The expression, of arithmetic type, converted to 'ty' as if by assignment (section 6.5.16.1). */
  predicate ConvertedFrom(r: Raw, e: Expr, ty: Ty, env: Env, syms: seq<D.Sym>) {
    var t := Analyze(r, Seen(env, syms));
    t.Some? && IsArithmetic(t.value.ty) && e == ConvertTo(t.value, ty)
  }

  /** Linkage (section 6.2.2): 'static' at file scope makes it internal, parameters and objects of a block have
      none unless 'extern', and 'extern', like a function without storage class, takes over the linkage of the
      declaration in scope. */
  predicate LinkageFrom(d: Declaration, link: D.Linkage, prior: D.Linkage, global: bool) {
    && (d.isParameter || (!global && !d.isFunction && !d.sc.ScExtern?) ==> link.NoLinkage?)
    && (!d.isParameter && global && d.sc.ScStatic? ==> link.Internal?)
    && (!d.isParameter && global && !d.isFunction && d.sc.ScNone? ==> link.External?)
    && (!d.isParameter && (d.sc.ScExtern? || (d.isFunction && d.sc.ScNone?)) ==>
          link == if prior.NoLinkage? then D.External else prior)
  }

  function PriorLinkage(name: string, env: Env, syms: seq<D.Sym>): D.Linkage {
    if name in Names(env) && Names(env)[name] < |syms| then syms[Names(env)[name]].linkage else D.NoLinkage
  }

  /** Storage classes and types that a declaration may have: no 'auto' or 'register' at file scope (section 6.9), for a
      function in a block 'extern' or none (section 6.7.1), objects have no type 'void' (section 6.7), an 'extern' object
      of a block no initialiser (section 6.7.9), and parameters 'register' or no class (section 6.7.6.3). */
  predicate Allowed(d: Declaration, global: bool) {
    && (d.sc.ScAuto? || d.sc.ScRegister? ==> !global && !d.isFunction)
    && (d.isFunction && !global ==> d.sc.ScExtern? || d.sc.ScNone?)
    && (!d.isFunction ==> !d.ty.Void?)
    && (!d.isFunction && d.sc.ScExtern? && d.init.Some? ==> global)
    && (d.isParameter ==> (d.sc.ScRegister? || d.sc.ScNone?) && !d.isFunction)
    && (d.isFunction ==> ParamsAllowed(d.params))
  }

  /** Parameters are arithmetic and have different names. */
  predicate ParamsAllowed(ps: seq<Declaration>) {
    && (forall k :: 0 <= k < |ps| ==> ParamAllowed(ps[k]))
    && forall j, k :: 0 <= j < k < |ps| && ps[j].name != "" ==> ps[j].name != ps[k].name
  }

  predicate ParamAllowed(p: Declaration) {
    (p.sc.ScRegister? || p.sc.ScNone?) && IsArithmetic(p.ty)
  }

  /** Symbol 'i' is what 'd' declares where the names of 'env' are in scope. It has static storage duration if it has
      linkage or is declared 'static' (section 6.2.4), and without 'extern' such an object has an initial value. In one
      scope only a name with linkage may be declared again (section 6.7). */
  predicate Declares(d: Declaration, i: nat, env: Env, global: bool, syms: seq<D.Sym>) {
    && Allowed(d, global) && i < |syms| && (d.name in env.here ==> env.here[d.name] == i && !syms[i].linkage.NoLinkage?)
    && syms[i].name == d.name && syms[i].ty == d.ty && syms[i].isFunction == d.isFunction
    && LinkageFrom(d, syms[i].linkage, PriorLinkage(d.name, env, syms), global)
    && (syms[i].duration.Static? <==> !syms[i].linkage.NoLinkage? || d.sc.ScStatic?)
    && (d.isFunction && d.hasBody ==> syms[i].defined)
    && (!d.isFunction && syms[i].duration.Static? && !d.sc.ScExtern? ==> !syms[i].init.InitNone?)
  }

  /** The initialiser, converted to the type of the object; its own name is in scope. */
  function InitOf(d: Declaration, env: Env, syms: seq<D.Sym>): Option<Expr> {
    if d.init.None? then None else
    var t := Analyze(d.init.value, Seen(env, syms));
    if t.None? || !IsArithmetic(t.value.ty) then None else Some(ConvertTo(t.value, d.ty))
  }

  /** An object of static storage duration starts with the value of its constant initialiser. */
  predicate InitFrom(d: Declaration, i: nat, env: Env, syms: seq<D.Sym>) {
    d.init.Some? ==>
      && InitOf(d, env, syms).Some? && i < |syms|
      && (syms[i].duration.Static? ==>
            && Fold(InitOf(d, env, syms).value).Some?
            && syms[i].init == D.InitConstant(Fold(InitOf(d, env, syms).value).value))
  }

  predicate DeclFrom(d: Declaration, x: Decl, env: Env, syms: seq<D.Sym>) {
    && Declares(d, x.sym.id, env, false, syms) && x.sym == D.SymbolAt(syms, x.sym.id)
    && x.isObject == !d.isFunction && x.isAuto == syms[x.sym.id].duration.Automatic?
    && InitFrom(d, x.sym.id, With(env, d.name, x.sym.id), syms) && x.init == InitOf(d, With(env, d.name, x.sym.id), syms)
  }

  /** Each declarator is in scope of the next. */
  predicate DeclsFrom(ds: seq<Declaration>, xs: seq<Decl>, env: Env, syms: seq<D.Sym>)
    decreases |ds|
  {
    && |ds| == |xs|
    && (ds == [] || (DeclFrom(ds[0], xs[0], env, syms) && DeclsFrom(ds[1..], xs[1..], With(env, ds[0].name, xs[0].sym.id), syms)))
  }

  function After(env: Env, ds: seq<Declaration>, xs: seq<Decl>): Env
    decreases |ds|
  {
    if ds == [] || xs == [] then env else After(With(env, ds[0].name, xs[0].sym.id), ds[1..], xs[1..])
  }

  /** The names in scope after a block item. */
  function EnvAfter(r: RStmt, s: Stmt, env: Env): Env {
    if r.SDecl? && s.DeclStmt? then After(env, r.decls, s.decls) else env
  }

  /** The head of a 'for' declares objects of class 'auto' or 'register' only (section 6.8.5). */
  predicate ForObjects(ds: seq<Declaration>) {
    forall k :: 0 <= k < |ds| ==> !ds[k].isFunction && (ds[k].sc.ScNone? || ds[k].sc.ScAuto? || ds[k].sc.ScRegister?)
  }

  /** Where a statement stands: the type its function returns, that of the innermost switch around it, and the
      statements that 'break' and 'continue' leave. */
  datatype Place = Place(ret: Ty, sw: Option<Ty>, brk: Option<nat>, cnt: Option<nat>)

  /** The body of loop 'id'. */
  function InLoop(k: Place, id: nat): Place {
    k.(brk := Some(id), cnt := Some(id))
  }

  function InSwitch(k: Place, id: nat, ty: Ty): Place {
    k.(brk := Some(id), sw := Some(ty))
  }

  /** A value only from a function that returns one, and then always (section 6.8.6.4). */
  predicate ReturnFrom(r: Option<Raw>, e: Option<Expr>, ret: Ty, env: Env, syms: seq<D.Sym>) {
    if r.None? then ret.Void? && e.None?
    else IsArithmetic(ret) && e.Some? && ConvertedFrom(r.value, e.value, ret, env, syms)
  }

  /** A switch knows the cases of its body, of different values, and its default, of which it has one at most
      (section 6.8.4.2). */
  predicate SwitchFrom(s: Stmt)
    requires s.Switch?
  {
    && IsArithmetic(TypeOf(s.cond)) && s.cases == CaseList(s.body) && A.DistinctCases(s.cases)
    && |DefaultsIn(s.body)| <= 1 && s.dflt == if DefaultsIn(s.body) == [] then None else Some(DefaultsIn(s.body)[0])
  }

  /** 's' is statement 'r' at 'k', where the names of 'env' are in scope. */
  predicate StmtFrom(r: RStmt, s: Stmt, env: Env, syms: seq<D.Sym>, k: Place)
    decreases r, 1
  {
    match r
    case SNull => s.Null?
    case SExpr(e) => s.ExprStmt? && ExprFrom(e, s.e, env, syms)
    case SDecl(ds) => s.DeclStmt? && DeclsFrom(ds, s.decls, env, syms)
    case SBlock(items) => s.Block? && AllFrom(items, s.items, Entered(env), syms, k)
    case SReturn(e) => s.Return? && ReturnFrom(e, s.result, k.ret, env, syms)
    case SIf(c, a, b) =>
      && s.If? && ExprFrom(c, s.cond, env, syms) && StmtFrom(a, s.thn, env, syms, k)
      && if b.None? then s.els.None? else s.els.Some? && StmtFrom(b.value, s.els.value, env, syms, k)
    case SFor(id, i, t, p, b) =>
      && s.For? && s.id == id && (i.SDecl? ==> ForObjects(i.decls)) && StmtFrom(i, s.init, Entered(env), syms, k)
      && var inner := EnvAfter(i, s.init, Entered(env));
         OptFrom(t, s.test, inner, syms) && OptFrom(p, s.post, inner, syms) && StmtFrom(b, s.body, inner, syms, InLoop(k, id))
    case SWhile(id, c, b) =>
      s.While? && s.id == id && ExprFrom(c, s.cond, Entered(env), syms) && StmtFrom(b, s.body, Entered(env), syms, InLoop(k, id))
    case SDoWhile(id, c, b) =>
      s.DoWhile? && s.id == id && ExprFrom(c, s.cond, Entered(env), syms) && StmtFrom(b, s.body, Entered(env), syms, InLoop(k, id))
    case SSwitch(id, c, b) =>
      && s.Switch? && s.id == id && ExprFrom(c, s.cond, env, syms) && SwitchFrom(s)
      && StmtFrom(b, s.body, env, syms, InSwitch(k, id, TypeOf(s.cond)))
    case SCase(id, e, b) =>
      && s.Case? && s.id == id && k.sw.Some? && ConvertedFrom(e, s.expr, k.sw.value, env, syms) && Fold(s.expr) == Some(s.value)
      && StmtFrom(b, s.stmt, env, syms, k)
    case SDefault(id, b) => s.Default? && s.id == id && k.sw.Some? && StmtFrom(b, s.stmt, env, syms, k)
    case SLabel(id, n, b) => s.Label? && s.id == id && s.name == n && StmtFrom(b, s.stmt, env, syms, k)
    case SBreak => s.Break? && k.brk == Some(s.target)
    case SContinue => s.Continue? && k.cnt == Some(s.target)
    case SGoto(n) => s.Goto? && s.name == n
  }

  /** Block items; a declaration is in scope of those after it. */
  predicate AllFrom(rs: seq<RStmt>, ss: seq<Stmt>, env: Env, syms: seq<D.Sym>, k: Place)
    decreases rs, 0
  {
    && |rs| == |ss|
    && (rs == [] || (StmtFrom(rs[0], ss[0], env, syms, k) && AllFrom(rs[1..], ss[1..], EnvAfter(rs[0], ss[0], env), syms, k)))
  }

  /** The default labels of a switch body. */
  function DefaultsIn(s: Stmt): seq<nat>
    decreases s, 1
  {
    match s
    case Block(items) => DefaultsInItems(items)
    case If(_, a, b) => DefaultsIn(a) + if b.Some? then DefaultsIn(b.value) else []
    case For(_, _, _, _, b) => DefaultsIn(b)
    case While(_, _, b) => DefaultsIn(b)
    case DoWhile(_, _, b) => DefaultsIn(b)
    case Case(_, _, _, b) => DefaultsIn(b)
    case Default(id, b) => [id] + DefaultsIn(b)
    case Label(_, _, b) => DefaultsIn(b)
    case _ => []
  }

  function DefaultsInItems(items: seq<Stmt>): seq<nat>
    decreases items, 0
  {
    if items == [] then [] else DefaultsIn(items[0]) + DefaultsInItems(items[1..])
  }

  /** The gotos of a function body with the statements they go to. */
  function TargetsIn(s: Stmt): seq<(string, nat)>
    decreases s, 1
  {
    match s
    case Block(items) => TargetsInItems(items)
    case If(_, a, b) => TargetsIn(a) + if b.Some? then TargetsIn(b.value) else []
    case For(_, i, _, _, b) => TargetsIn(i) + TargetsIn(b)
    case While(_, _, b) => TargetsIn(b)
    case DoWhile(_, _, b) => TargetsIn(b)
    case Switch(_, _, b, _, _) => TargetsIn(b)
    case Case(_, _, _, b) => TargetsIn(b)
    case Default(_, b) => TargetsIn(b)
    case Label(_, _, b) => TargetsIn(b)
    case Goto(n, t) => [(n, t)]
    case _ => []
  }

  function TargetsInItems(items: seq<Stmt>): seq<(string, nat)>
    decreases items, 0
  {
    if items == [] then [] else TargetsIn(items[0]) + TargetsInItems(items[1..])
  }

  /** A function has one label of a name at most, and its gotos go to labels it has (sections 6.8.1 and 6.8.6.1). */
  predicate JumpsFrom(body: Stmt) {
    && (forall j, k :: 0 <= j < k < |A.LabelsIn(body)| ==> A.LabelsIn(body)[j].0 != A.LabelsIn(body)[k].0)
    && forall k :: 0 <= k < |TargetsIn(body)| ==> TargetsIn(body)[k] in A.LabelsIn(body)
  }

  /** The symbols that a statement declares, in order. */
  function IdsIn(s: Stmt): seq<nat>
    decreases s, 1
  {
    match s
    case DeclStmt(ds) => IdsOf(ds)
    case Block(items) => IdsInItems(items)
    case If(_, a, b) => IdsIn(a) + if b.Some? then IdsIn(b.value) else []
    case For(_, i, _, _, b) => IdsIn(i) + IdsIn(b)
    case While(_, _, b) => IdsIn(b)
    case DoWhile(_, _, b) => IdsIn(b)
    case Switch(_, _, b, _, _) => IdsIn(b)
    case Case(_, _, _, b) => IdsIn(b)
    case Default(_, b) => IdsIn(b)
    case Label(_, _, b) => IdsIn(b)
    case _ => []
  }

  function IdsInItems(items: seq<Stmt>): seq<nat>
    decreases items, 0
  {
    if items == [] then [] else IdsIn(items[0]) + IdsInItems(items[1..])
  }

  function IdsOf(ds: seq<Decl>): seq<nat> {
    if ds == [] then [] else [ds[0].sym.id] + IdsOf(ds[1..])
  }

  function ParamIds(ps: seq<Symbol>): seq<nat> {
    if ps == [] then [] else ParamIds(ps[..|ps| - 1]) + [ps[|ps| - 1].id]
  }

  /** How many symbols there are after declaring 'ids', with 'n' before. */
  function Count(ids: seq<nat>, n: nat): nat
    decreases |ids|
  {
    if ids == [] then n else Count(ids[1..], if ids[0] < n then n else ids[0] + 1)
  }

  /** Symbols are numbered as they are first declared, and only those with linkage are declared again. */
  predicate Ordered(ids: seq<nat>, n: nat, syms: seq<D.Sym>)
    decreases |ids|
  {
    ids == [] ||
    (ids[0] <= n && (ids[0] < n ==> ids[0] < |syms| && !syms[ids[0]].linkage.NoLinkage?)
     && Ordered(ids[1..], if ids[0] < n then n else ids[0] + 1, syms))
  }

  /** The names in scope after the parameters 'ps'. */
  function ParamEnv(env: Env, params: seq<Declaration>, ps: seq<Symbol>): Env
    requires |ps| <= |params|
    decreases |ps|
  {
    if ps == [] then env
    else
      var n := |ps| - 1;
      With(ParamEnv(env, params, ps[..n]), params[n].name, ps[n].id)
  }

  predicate ParamsFrom(params: seq<Declaration>, ps: seq<Symbol>, env: Env, syms: seq<D.Sym>)
    requires |ps| <= |params|
    decreases |ps|
  {
    ps == [] ||
    (var n := |ps| - 1;
     && params[n].name != "" && Declares(params[n], ps[n].id, ParamEnv(env, params, ps[..n]), false, syms) && ps[n] == D.SymbolAt(syms, ps[n].id)
     && ParamsFrom(params, ps[..n], env, syms))
  }

  /** 'f' is the function that 'i' defines: its own name is in scope of its parameters, and these of its body. */
  predicate FnFrom(i: Item, f: Fn, env: Env, syms: seq<D.Sym>) {
    var inner := Entered(With(env, i.decl.name, f.id));
    && Declares(i.decl, f.id, env, true, syms) && i.decl.ty.Function? && f.ret == i.decl.ty.ret
    && |f.params| == |i.decl.params| && ParamsFrom(i.decl.params, f.params, inner, syms)
    && f.body.Block? && AllFrom(i.body, f.body.items, ParamEnv(inner, i.decl.params, f.params), syms, Place(f.ret, None, None, None))
    && JumpsFrom(f.body)
  }

  /** The names at file scope after these declarations, of the symbols 'ids'. */
  function FileEnv(items: seq<Item>, ids: seq<nat>): Env
    requires |ids| == |items|
    decreases |items|
  {
    if items == [] then Env(map[], map[])
    else
      var n := |items| - 1;
      With(FileEnv(items[..n], ids[..n]), items[n].decl.name, ids[n])
  }

  predicate Defines(i: Item) {
    i.decl.isFunction && i.decl.hasBody
  }

  /** 'prog' is the functions that the unit defines, in order. */
  predicate ProgramFrom(items: seq<Item>, ids: seq<nat>, prog: seq<Fn>, syms: seq<D.Sym>)
    decreases |items|
  {
    && |ids| == |items|
    && if items == [] then prog == []
       else
         var n := |items| - 1;
         var i, env := items[n], FileEnv(items[..n], ids[..n]);
         if Defines(i) then
           prog != [] && prog[|prog| - 1].id == ids[n] && FnFrom(i, prog[|prog| - 1], env, syms)
           && ProgramFrom(items[..n], ids[..n], prog[..|prog| - 1], syms)
         else
           && Declares(i.decl, ids[n], env, true, syms) && InitFrom(i.decl, ids[n], With(env, i.decl.name, ids[n]), syms)
           && ProgramFrom(items[..n], ids[..n], prog, syms)
  }

  /** All symbols that the unit declares, in order. */
  function UnitIds(items: seq<Item>, ids: seq<nat>, prog: seq<Fn>): seq<nat>
    requires |ids| == |items|
    decreases |items|
  {
    if items == [] then []
    else
      var n := |items| - 1;
      if Defines(items[n]) && prog != [] then
        var f := prog[|prog| - 1];
        UnitIds(items[..n], ids[..n], prog[..|prog| - 1]) + ([ids[n]] + ParamIds(f.params) + IdsIn(f.body))
      else UnitIds(items[..n], ids[..n], prog) + [ids[n]]
  }

  /** A name with linkage denotes one object or function throughout (section 6.2.2). */
  predicate OneLinked(syms: seq<D.Sym>) {
    forall i, j :: 0 <= i < j < |syms| && !syms[i].linkage.NoLinkage? && !syms[j].linkage.NoLinkage? ==> syms[i].name != syms[j].name
  }

  /** Functions are defined and objects initialised once (section 6.9). */
  predicate Once(items: seq<Item>, ids: seq<nat>)
    requires |ids| == |items|
  {
    && (forall j, k :: 0 <= j < k < |items| && Defines(items[j]) && Defines(items[k]) ==> ids[j] != ids[k])
    && forall j, k :: 0 <= j < k < |items| && items[j].decl.init.Some? && items[k].decl.init.Some? ==> ids[j] != ids[k]
  }

  /** 'ids' are the symbols of the declarations of a unit and 'prog' its functions. */
  predicate ElaboratedBy(items: seq<Item>, ids: seq<nat>, prog: seq<Fn>, syms: seq<D.Sym>) {
    ProgramFrom(items, ids, prog, syms) && Once(items, ids) && Ordered(UnitIds(items, ids, prog), 0, syms) && OneLinked(syms)
  }

  /** 'prog' is the functions of the unit, and every object that a declaration defines has its initial value. */
  ghost predicate Elaborates(items: seq<Item>, prog: seq<Fn>, syms: seq<D.Sym>) {
    (exists ids :: ElaboratedBy(items, ids, prog, syms)) && forall i :: 0 <= i < |syms| ==> !syms[i].init.InitTentative?
  }

  lemma {:induction false} OrderJoin(a: seq<nat>, b: seq<nat>, n: nat, syms: seq<D.Sym>)
    ensures Count(a + b, n) == Count(b, Count(a, n)) && Count(a, n) >= n
    ensures Ordered(a + b, n, syms) <==> Ordered(a, n, syms) && Ordered(b, Count(a, n), syms)
    decreases |a|
  {
    if a == [] { assert a + b == b; }
    else {
      assert (a + b)[1..] == a[1..] + b;
      OrderJoin(a[1..], b, if a[0] < n then n else a[0] + 1, syms);
    }
  }

  /** So no two declarations share an object without linkage. */
  lemma {:induction false} OwnSymbols(ids: seq<nat>, n: nat, syms: seq<D.Sym>, j: nat, k: nat)
    requires Ordered(ids, n, syms) && j < k < |ids| && ids[j] == ids[k]
    ensures ids[k] < |syms| && !syms[ids[k]].linkage.NoLinkage?
    decreases |ids|
  {
    if j > 0 { OwnSymbols(ids[1..], if ids[0] < n then n else ids[0] + 1, syms, j - 1, k - 1); }
    else { OldSymbol(ids[1..], if ids[0] < n then n else ids[0] + 1, syms, k - 1); }
  }

  lemma {:induction false} OldSymbol(ids: seq<nat>, n: nat, syms: seq<D.Sym>, k: nat)
    requires Ordered(ids, n, syms) && k < |ids| && ids[k] < n
    ensures ids[k] < |syms| && !syms[ids[k]].linkage.NoLinkage?
    decreases |ids|
  {
    if k > 0 { OldSymbol(ids[1..], if ids[0] < n then n else ids[0] + 1, syms, k - 1); }
  }

  /** What an expression is made into depends on the names it sees only. */
  lemma {:induction false} SameNames(r: Raw, a: Scope, b: Scope)
    requires forall n :: a(n) == b(n)
    ensures Analyze(r, a) == Analyze(r, b)
    decreases r, 1
  {
    hide ConvertTo, AnalyzeArgs, AnalyzeStep, Assignable, Common;
    match r
    case RUnary(_, x) => SameNames(x, a, b);
    case RPre(_, x) => SameNames(x, a, b);
    case RPost(_, x) => SameNames(x, a, b);
    case RBinary(_, x, y) => SameNames(x, a, b); SameNames(y, a, b);
    case RAssign(x, y) => SameNames(x, a, b); SameNames(y, a, b);
    case RCompound(_, x, y) => SameNames(x, a, b); SameNames(y, a, b);
    case RConditional(c, x, y) => SameNames(c, a, b); SameNames(x, a, b); SameNames(y, a, b);
    case RCall(f, args) =>
      SameNames(f, a, b);
      var t := Analyze(f, a);
      if t.Some? && t.value.ty.Function? { SameArgNames(args, t.value.ty.params, a, b); }
    case RCast(_, x) => SameNames(x, a, b);
    case _ =>
  }

  lemma {:induction false} SameArgNames(args: seq<Raw>, params: seq<Ty>, a: Scope, b: Scope)
    requires forall n :: a(n) == b(n)
    ensures AnalyzeArgs(args, params, a) == AnalyzeArgs(args, params, b)
    decreases args, 0
  {
    hide ConvertTo, Analyze;
    if args != [] && |args| == |params| {
      SameNames(args[0], a, b);
      SameArgNames(args[1..], params[1..], a, b);
    }
  }

  /** An elaborated expression has the value that its source has by the rules of conversion and of scope. */
  lemma ExprMeans(r: Raw, e: Expr, env: Env, syms: seq<D.Sym>, m: Store, callees: Callees)
    requires ExprFrom(r, e, env, syms) && WellTyped(e)
    ensures C.Same(C.Meaning(r, Seen(env, syms), m, callees), Eval(e, m, true, callees))
  {
    hide Analyze, C.Meaning, Eval, WellTyped;
    C.AnalyzeMeans(r, Seen(env, syms), m, callees);
  }

  /** And a converted one that value converted. */
  lemma ConvertedMeans(r: Raw, e: Expr, ty: Ty, env: Env, syms: seq<D.Sym>, m: Store, callees: Callees)
    requires ConvertedFrom(r, e, ty, env, syms) && WellTyped(e) && IsArithmetic(ty)
    ensures var x, q := C.Meaning(r, Seen(env, syms), m, callees), Eval(e, m, true, callees);
            if q.Stuck? then x.Undefined? else x.Value? && x.st == q.st && Read(q.o, q.st) == C.As(x.v, r, ty, Seen(env, syms))
  {
    hide Analyze, C.Meaning, Eval, WellTyped, ConvertTo;
    var sc := Seen(env, syms);
    var t := Analyze(r, sc).value;
    C.TypesAgree(r, sc);
    C.AnalyzedType(r, sc);
    C.ConvertGoodParts(t, ty);
    C.AnalyzeMeans(r, sc, m, callees);
    C.ConvertMeans(t, ty, m, callees);
  }

  /** The names of nested scopes, inner declarations hiding outer ones. */
  function Flat(scopes: seq<D.Names>): D.Names {
    if scopes == [] then map[] else Flat(scopes[..|scopes| - 1]) + scopes[|scopes| - 1]
  }

  function EnvOf(scopes: seq<D.Names>): Env {
    if scopes == [] then Env(map[], map[]) else Env(Flat(scopes[..|scopes| - 1]), scopes[|scopes| - 1])
  }

  lemma {:induction false} FlatFind(scopes: seq<D.Names>, n: string)
    ensures D.Find(scopes, n) == if n in Flat(scopes) then Some(Flat(scopes)[n]) else None
  {
    if scopes != [] { FlatFind(scopes[..|scopes| - 1], n); }
  }

  lemma EnvNames(scopes: seq<D.Names>)
    ensures Names(EnvOf(scopes)) == Flat(scopes)
  {
  }

  lemma EnvInstall(scopes: seq<D.Names>, name: string, i: nat)
    requires scopes != []
    ensures EnvOf(D.Install(scopes, name, i)) == With(EnvOf(scopes), name, i)
  {
    var n := |scopes| - 1;
    assert D.Install(scopes, name, i)[..n] == scopes[..n];
  }

  lemma EnvPush(s: D.State)
    ensures EnvOf(A.Pushed(s).scopes) == Entered(EnvOf(s.scopes))
  {
    assert A.Pushed(s).scopes[..|s.scopes|] == s.scopes;
    EnvNames(s.scopes);
  }

  ghost predicate Sound(s: D.State) {
    D.TableOk(s.scopes, s.linked, s.symbols)
  }

  /** The same symbol, up to its initial value and whether it is defined. */
  predicate Kin(a: D.Sym, b: D.Sym) {
    b.name == a.name && b.ty == a.ty && b.isFunction == a.isFunction && b.linkage == a.linkage && b.duration == a.duration
  }

  predicate Agree(a: seq<D.Sym>, b: seq<D.Sym>) {
    |a| <= |b| && forall i :: 0 <= i < |a| ==> Kin(a[i], b[i])
  }

  lemma LaterAgree(a: seq<D.Sym>, b: seq<D.Sym>)
    requires D.Evolves(a, b)
    ensures Agree(a, b)
  {
    forall i | 0 <= i < |a| ensures Kin(a[i], b[i]) { assert D.Later(a[i], b[i]); }
  }

  /** The names in scope are those of the scopes, also after later declarations. */
  lemma SeenIs(s: D.State, final: seq<D.Sym>)
    requires Sound(s) && Agree(s.symbols, final)
    ensures forall n :: Seen(EnvOf(s.scopes), final)(n) == D.ScopeOf(s.scopes, s.symbols)(n)
  {
    hide D.TableOk;
    forall n ensures Seen(EnvOf(s.scopes), final)(n) == D.ScopeOf(s.scopes, s.symbols)(n) {
      FlatFind(s.scopes, n);
      EnvNames(s.scopes);
      D.TableFind(s.scopes, s.linked, s.symbols, n);
      var i := D.Find(s.scopes, n);
      if i.Some? { assert Kin(s.symbols[i.value], final[i.value]); }
    }
  }

  lemma ExprElaborated(s: D.State, r: Raw, final: seq<D.Sym>)
    requires Sound(s) && Agree(s.symbols, final)
    ensures Analyze(r, Seen(EnvOf(s.scopes), final)) == Analyze(r, D.ScopeOf(s.scopes, s.symbols))
    ensures forall e :: ExprFrom(r, e, EnvOf(s.scopes), final) <==> A.ExprIn(s, r) == Some(e)
    ensures forall e, ty :: ConvertedFrom(r, e, ty, EnvOf(s.scopes), final) <==>
              A.ExprIn(s, r).Some? && IsArithmetic(TypeOf(A.ExprIn(s, r).value)) && e == A.Converted(A.ExprIn(s, r).value, ty)
  {
    hide Sound, Analyze, Agree, Compatible;
    SeenIs(s, final);
    SameNames(r, Seen(EnvOf(s.scopes), final), D.ScopeOf(s.scopes, s.symbols));
    if A.ExprIn(s, r).Some? { C.TypesAgree(r, D.ScopeOf(s.scopes, s.symbols)); }
  }

  /** The table has only grown, and only its innermost scope has changed. */
  ghost predicate Onward(s: D.State, s': D.State) {
    && Sound(s') && D.Evolves(s.symbols, s'.symbols) && |s'.scopes| == |s.scopes| > 0
    && s'.scopes[..|s.scopes| - 1] == s.scopes[..|s.scopes| - 1]
  }

  lemma OnwardTrans(a: D.State, b: D.State, c: D.State)
    requires Onward(a, b) && Onward(b, c)
    ensures Onward(a, c)
  {
    hide D.TableOk, D.Evolves;
    D.EvolvesTrans(a.symbols, b.symbols, c.symbols);
  }

  lemma OnwardSame(s: D.State)
    requires Sound(s)
    ensures Onward(s, s)
  {
  }

  /** A block's own scope is gone after it. */
  lemma PopOnward(s: D.State, s': D.State)
    requires Sound(s) && Onward(A.Pushed(s), s')
    ensures Onward(s, A.Popped(s')) && A.Popped(s').scopes == s.scopes
  {
    hide D.LinkedOk;
    assert A.Pushed(s).scopes[..|s.scopes|] == s.scopes;
  }

  lemma PushSound(s: D.State)
    requires Sound(s)
    ensures Sound(A.Pushed(s))
  {
    hide D.LinkedOk;
  }
}
