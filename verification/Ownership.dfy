/** Whose objects are whose: the automatic objects that a function names were declared while it was analysed, so
    no two functions share one. */
module Ownership {
  import opened Arith
  import opened Ast
  import opened Syntax
  import opened Analysis
  import D = Declarations
  import A = StmtAnalysis
  import opened Mentions
  import opened Resolution
  import opened Program
  import opened Units

  /** No name of the scope stands for automatic object 'id'. */
  ghost predicate Unseen(sc: Scope, id: nat) {
    forall n :: sc(n).Some? ==> !Is(sc(n).value, id)
  }

  lemma ConvertMentions(t: Typed, ty: Ty, id: nat)
    ensures ExprMentions(ConvertTo(t, ty), id) <==> ExprMentions(t.e, id)
  {
  }

  /** Analysis adds no names. */
  lemma {:induction false} ExprOwned(r: Raw, sc: Scope, id: nat)
    requires Unseen(sc, id) && Analyze(r, sc).Some?
    ensures !ExprMentions(Analyze(r, sc).value.e, id)
    decreases r, 1
  {
    hide ConvertTo, AnalyzeArgs;
    match r
    case RInt(_) =>
    case RLong(_) =>
    case RName(_) =>
    case RUnary(_, a) => ExprOwned(a, sc, id);
    case RPre(_, a) => ExprOwned(a, sc, id);
    case RPost(_, a) => ExprOwned(a, sc, id);
    case RBinary(_, a, b) => PairOwned(r, a, b, sc, id);
    case RAssign(a, b) => PairOwned(r, a, b, sc, id);
    case RCompound(_, a, b) => PairOwned(r, a, b, sc, id);
    case RConditional(c, a, b) =>
      ExprOwned(c, sc, id);
      PairOwned(r, a, b, sc, id);
    case RCall(f, args) =>
      ExprOwned(f, sc, id);
      ArgsOwned(args, Analyze(f, sc).value.ty.params, sc, id);
    case RCast(_, a) => ExprOwned(a, sc, id);
  }

  lemma {:induction false} PairOwned(r: Raw, a: Raw, b: Raw, sc: Scope, id: nat)
    requires if r.RConditional? then r.thn == a && r.els == b else (r.RBinary? || r.RAssign? || r.RCompound?) && r.left == a && r.right == b
    requires Unseen(sc, id) && Analyze(r, sc).Some?
    ensures !ExprMentions(Analyze(a, sc).value.e, id) && !ExprMentions(Analyze(b, sc).value.e, id)
    ensures forall ty :: !ExprMentions(ConvertTo(Analyze(a, sc).value, ty), id) && !ExprMentions(ConvertTo(Analyze(b, sc).value, ty), id)
    decreases r, 0
  {
    hide ConvertTo, AnalyzeArgs;
    ExprOwned(a, sc, id);
    ExprOwned(b, sc, id);
    forall ty ensures !ExprMentions(ConvertTo(Analyze(a, sc).value, ty), id) && !ExprMentions(ConvertTo(Analyze(b, sc).value, ty), id) {
      ConvertMentions(Analyze(a, sc).value, ty, id);
      ConvertMentions(Analyze(b, sc).value, ty, id);
    }
  }

  lemma {:induction false} ArgsOwned(args: seq<Raw>, params: seq<Ty>, sc: Scope, id: nat)
    requires Unseen(sc, id) && AnalyzeArgs(args, params, sc).Some?
    ensures !ArgsMention(AnalyzeArgs(args, params, sc).value, id)
    decreases args, 0
  {
    hide ConvertTo;
    if args != [] {
      ExprOwned(args[0], sc, id);
      ArgsOwned(args[1..], params[1..], sc, id);
      ConvertMentions(Analyze(args[0], sc).value, params[0], id);
      var xs := AnalyzeArgs(args, params, sc).value;
      assert xs[0] == ConvertTo(Analyze(args[0], sc).value, params[0]) && xs[1..] == AnalyzeArgs(args[1..], params[1..], sc).value;
    }
  }

  /** No name of the table stands for automatic object 'id'. */
  predicate HiddenIn(names: D.Names, symbols: seq<D.Sym>, id: nat) {
    forall n :: n in names && names[n] == id ==> id < |symbols| && symbols[id].duration.Static?
  }

  predicate Hidden(s: D.State, id: nat) {
    forall k :: 0 <= k < |s.scopes| ==> HiddenIn(s.scopes[k], s.symbols, id)
  }

  /** Names with linkage stand for symbols of static duration. */
  predicate LinkedStatic(s: D.State) {
    forall n :: n in s.linked ==> s.linked[n] < |s.symbols| && s.symbols[s.linked[n]].duration.Static?
  }

  lemma {:induction false} FindHidden(scopes: seq<D.Names>, symbols: seq<D.Sym>, name: string, id: nat)
    requires forall k :: 0 <= k < |scopes| ==> HiddenIn(scopes[k], symbols, id)
    ensures D.Find(scopes, name) == Some(id) ==> id < |symbols| && symbols[id].duration.Static?
  {
    if scopes != [] {
      assert HiddenIn(scopes[|scopes| - 1], symbols, id);
      if name !in scopes[|scopes| - 1] { FindHidden(scopes[..|scopes| - 1], symbols, name, id); }
    }
  }

  lemma HiddenUnseen(s: D.State, id: nat)
    requires Hidden(s, id)
    ensures Unseen(D.ScopeOf(s.scopes, s.symbols), id)
  {
    var sc := D.ScopeOf(s.scopes, s.symbols);
    forall n | sc(n).Some? ensures !Is(sc(n).value, id) { FindHidden(s.scopes, s.symbols, n, id); }
  }

  lemma ExprInOwned(s: D.State, r: Raw, id: nat)
    requires Hidden(s, id) && A.ExprIn(s, r).Some?
    ensures !ExprMentions(A.ExprIn(s, r).value, id)
  {
    hide Analyze, Unseen;
    HiddenUnseen(s, id);
    ExprOwned(r, D.ScopeOf(s.scopes, s.symbols), id);
  }

  /** 'id' is not the number of a symbol declared between the two states. */
  predicate Outside(s: D.State, s': D.State, id: nat) {
    id < |s.symbols| || |s'.symbols| <= id
  }

  /** Symbols keep their duration, and only the innermost scope changes. */
  predicate Onward(s: D.State, s': D.State) {
    && |s.symbols| <= |s'.symbols| && (forall j :: 0 <= j < |s.symbols| ==> s'.symbols[j].duration == s.symbols[j].duration)
    && |s'.scopes| == |s.scopes| > 0 && s'.scopes[..|s.scopes| - 1] == s.scopes[..|s.scopes| - 1]
  }

  /** What every step of analysis keeps. */
  predicate Kept(s: D.State, s': D.State, id: nat) {
    Onward(s, s') && LinkedStatic(s') && Hidden(s', id)
  }

  lemma OnwardTrans(a: D.State, b: D.State, c: D.State)
    requires Onward(a, b) && Onward(b, c)
    ensures Onward(a, c)
  {
  }

  lemma KeptTrans(a: D.State, b: D.State, c: D.State, id: nat)
    requires Kept(a, b, id) && Kept(b, c, id)
    ensures Kept(a, c, id)
  {
    hide Onward, LinkedStatic, Hidden;
    OnwardTrans(a, b, c);
  }

  lemma KeptSame(s: D.State, id: nat)
    requires s.scopes != [] && LinkedStatic(s) && Hidden(s, id)
    ensures Kept(s, s, id)
  {
  }

  lemma InstallHidden(s: D.State, symbols: seq<D.Sym>, name: string, i: nat, id: nat)
    requires s.scopes != [] && Hidden(s, id) && |s.symbols| <= |symbols|
    requires forall j :: 0 <= j < |s.symbols| ==> symbols[j].duration == s.symbols[j].duration
    requires i == id ==> i < |symbols| && symbols[i].duration.Static?
    ensures forall k :: 0 <= k < |s.scopes| ==> HiddenIn(D.Install(s.scopes, name, i)[k], symbols, id) && HiddenIn(s.scopes[k], symbols, id)
  {
    forall k | 0 <= k < |s.scopes| ensures HiddenIn(D.Install(s.scopes, name, i)[k], symbols, id) && HiddenIn(s.scopes[k], symbols, id) {
      assert HiddenIn(s.scopes[k], s.symbols, id);
    }
  }

  lemma MergedKeeps(s: D.State, d: Declaration, link: D.Linkage, i: nat, install: bool, id: nat)
    requires s.scopes != [] && LinkedStatic(s) && Hidden(s, id) && D.Merged(s, d, link, i, install).Some?
    requires i == id ==> i < |s.symbols| && s.symbols[i].duration.Static?
    ensures var r := D.Merged(s, d, link, i, install).value;
            Kept(s, r.0, id) && !(r.1 == id && r.0.symbols[r.1].duration.Automatic?)
  {
    hide D.Install, D.MayRedeclare;
    var s' := D.Merged(s, d, link, i, install).value.0;
    InstallHidden(s, s'.symbols, d.name, i, id);
    InstallSame(s.scopes, d.name, i);
  }

  lemma InstallSame(scopes: seq<D.Names>, name: string, i: nat)
    requires scopes != []
    ensures var r := D.Install(scopes, name, i); |r| == |scopes| && r[..|scopes| - 1] == scopes[..|scopes| - 1]
  {
  }

  lemma AddedKeeps(s: D.State, d: Declaration, link: D.Linkage, id: nat)
    requires s.scopes != [] && LinkedStatic(s) && Hidden(s, id) && Outside(s, D.Added(s, d, link).0, id)
    requires !link.NoLinkage? ==> D.DetermineDuration(d, |s.scopes| == 1).Static?
    ensures var r := D.Added(s, d, link); Kept(s, r.0, id) && r.1 != id
  {
    hide D.Install, D.DetermineDuration;
    var s' := D.Added(s, d, link).0;
    assert forall j :: 0 <= j < |s.symbols| ==> s'.symbols[j] == s.symbols[j];
    InstallHidden(s, s'.symbols, d.name, |s.symbols|, id);
    InstallSame(s.scopes, d.name, |s.symbols|);
  }

  /** A declaration binds its name to a symbol of its own or to one of static duration. */
  lemma BoundKeeps(s: D.State, d: Declaration, id: nat)
    requires s.scopes != [] && LinkedStatic(s) && Hidden(s, id) && D.Bound(s, d).Some? && Outside(s, D.Bound(s, d).value.0, id)
    ensures var r := D.Bound(s, d).value; Kept(s, r.0, id) && !(r.1 == id && r.0.symbols[r.1].duration.Automatic?)
  {
    hide D.Merged, D.Added, Kept;
    var top := s.scopes[|s.scopes| - 1];
    var prior := D.SymAt(s, D.Find(s.scopes, d.name));
    var link := D.DetermineLinkage(d, prior, |s.scopes| == 1);
    D.LinkageIsStatic(d, prior, |s.scopes| == 1);
    assert HiddenIn(top, s.symbols, id);
    if d.name in top { MergedKeeps(s, d, link, top[d.name], false, id); }
    else if !link.NoLinkage? && d.name in s.linked { MergedKeeps(s, d, link, s.linked[d.name], true, id); }
    else { AddedKeeps(s, d, link, id); }
  }

  lemma InitialisedKeeps(s: D.State, d: Declaration, i: nat, id: nat)
    requires s.scopes != [] && LinkedStatic(s) && Hidden(s, id) && d.init.Some? && D.Initialised(s, d, i).Some?
    ensures var r := D.Initialised(s, d, i).value;
            Kept(s, r.0, id) && !ExprMentions(r.1, id) && |r.0.symbols| == |s.symbols|
  {
    hide Analyze, ConvertTo, Unseen, HiddenIn;
    HiddenUnseen(s, id);
    ExprOwned(d.init.value, D.ScopeOf(s.scopes, s.symbols), id);
    ConvertMentions(Analyze(d.init.value, D.ScopeOf(s.scopes, s.symbols)).value, d.ty, id);
    var s' := D.Initialised(s, d, i).value.0;
    forall k | 0 <= k < |s'.scopes| ensures HiddenIn(s'.scopes[k], s'.symbols, id) {
      assert HiddenIn(s.scopes[k], s.symbols, id);
      SameHidden(s.scopes[k], s.symbols, s'.symbols, id);
    }
  }

  lemma SameHidden(names: D.Names, a: seq<D.Sym>, b: seq<D.Sym>, id: nat)
    requires HiddenIn(names, a, id) && |a| <= |b| && forall j :: 0 <= j < |a| ==> b[j].duration == a[j].duration
    ensures HiddenIn(names, b, id)
  {
  }

  lemma DeclaredKeeps(s: D.State, d: Declaration, id: nat)
    requires s.scopes != [] && LinkedStatic(s) && Hidden(s, id) && D.Declared(s, d).Some? && Outside(s, D.Declared(s, d).value.0, id)
    ensures var r := D.Declared(s, d).value;
            && Kept(s, r.0, id) && (r.2.Some? ==> !ExprMentions(r.2.value, id))
            && !(r.1 == id && r.0.symbols[r.1].duration.Automatic?)
  {
    hide D.Bound, D.Initialised, LinkedStatic, Hidden, D.ParamsValid, D.ValidDeclaration;
    var b := D.Bound(s, d).value;
    BoundKeeps(s, d, id);
    if d.init.Some? {
      InitialisedKeeps(b.0, d, b.1, id);
      KeptTrans(s, b.0, D.Initialised(b.0, d, b.1).value.0, id);
    }
  }

  lemma {:induction false} DeclsKeep(s: D.State, ds: seq<Declaration>, id: nat)
    requires s.scopes != [] && LinkedStatic(s) && Hidden(s, id) && A.DeclsIn(s, ds).Some? && Outside(s, A.DeclsIn(s, ds).value.0, id)
    ensures var r := A.DeclsIn(s, ds).value; Kept(s, r.0, id) && !DeclsMention(r.1, id)
    decreases |ds|
  {
    hide D.Declared, LinkedStatic, Hidden;
    if ds == [] {
      KeptSame(s, id);
    } else {
      var d := D.Declared(s, ds[0]).value;
      var rest := A.DeclsIn(d.0, ds[1..]).value;
      DeclaredKeeps(s, ds[0], id);
      DeclsKeep(d.0, ds[1..], id);
      KeptTrans(s, d.0, rest.0, id);
      var all := A.DeclsIn(s, ds).value.1;
      assert all[0] == A.DeclOf(ds[0], d.1, d.0.symbols[d.1], d.2) && all[1..] == rest.1;
    }
  }

  lemma PushKeeps(s: D.State, id: nat)
    requires s.scopes != [] && LinkedStatic(s) && Hidden(s, id)
    ensures LinkedStatic(A.Pushed(s)) && Hidden(A.Pushed(s), id)
  {
  }

  /** Leaving a scope brings the outer ones back as they were. */
  lemma PopKeeps(s: D.State, s': D.State, id: nat)
    requires s.scopes != [] && Hidden(s, id) && Kept(A.Pushed(s), s', id)
    ensures Kept(s, A.Popped(s'), id) && A.Popped(s').scopes == s.scopes
  {
    var p := A.Pushed(s);
    assert p.scopes[..|s.scopes|] == s.scopes;
    forall k | 0 <= k < |s.scopes| ensures HiddenIn(s.scopes[k], s'.symbols, id) { SameHidden(s.scopes[k], s.symbols, s'.symbols, id); }
  }

  lemma OptionOwned(s: D.State, r: Option<Raw>, id: nat)
    requires Hidden(s, id) && A.OptionIn(s, r).Some?
    ensures !OptMentions(A.OptionIn(s, r).value, id)
  {
    hide A.ExprIn, Hidden;
    if r.Some? { ExprInOwned(s, r.value, id); }
  }

  lemma ReturnOwned(s: D.State, ret: Ty, r: Option<Raw>, id: nat)
    requires Hidden(s, id) && A.ReturnIn(s, ret, r).Some?
    ensures !StmtMentions(A.ReturnIn(s, ret, r).value, id)
  {
    hide A.ExprIn, Hidden, ConvertTo;
    if r.Some? {
      ExprInOwned(s, r.value, id);
      var e := A.ExprIn(s, r.value).value;
      ConvertMentions(Typed(e, TypeOf(e), false), ret, id);
    }
  }

  /** A statement names, of the objects declared before it, only those that are in scope. */
  lemma {:induction false} StmtOwned(s: D.State, c: A.FnCtx, r: RStmt, id: nat)
    requires s.scopes != [] && LinkedStatic(s) && Hidden(s, id) && A.AnalyzeS(s, c, r).Some? && Outside(s, A.AnalyzeS(s, c, r).value.0, id)
    ensures var o := A.AnalyzeS(s, c, r).value; Kept(s, o.0, id) && !StmtMentions(o.2, id)
    decreases r, 1
  {
    hide A.ExprIn, A.DeclsIn, LinkedStatic, Hidden, Onward, Kept, A.ForIn, A.LoopIn, A.CaseIn, A.ReturnIn;
    KeptSame(s, id);
    match r
    case SExpr(e) => ExprInOwned(s, e, id);
    case SDecl(ds) => DeclsKeep(s, ds, id);
    case SBlock(items) =>
      PushKeeps(s, id);
      ItemsOwned(A.Pushed(s), c, items, id);
      PopKeeps(s, A.AnalyzeAll(A.Pushed(s), c, items).value.0, id);
    case SReturn(e) => ReturnOwned(s, c.ret, e, id);
    case SIf(e, a, b) => IfOwned(s, c, r, id);
    case SFor(_, _, _, _, _) => ForOwned(s, c, r, id);
    case SWhile(n, e, b) => LoopOwned(s, c, n, e, b, id);
    case SDoWhile(n, e, b) => LoopOwned(s, c, n, e, b, id);
    case SSwitch(n, e, b) =>
      ExprInOwned(s, e, id);
      var x := A.ExprIn(s, e);
      StmtOwned(s, c.(breakable := Some(n), sw := Some(TypeOf(x.value)), cases := [], dflt := None), b, id);
    case SCase(n, e, b) => StmtOwned(s, c.(cases := c.cases + [CaseRef(A.CaseIn(s, c, e).value.1, n)]), b, id);
    case SDefault(n, b) => StmtOwned(s, c.(dflt := Some(n)), b, id);
    case SLabel(n, name, b) => StmtOwned(s, c.(labels := c.labels[name := n]), b, id);
    case _ =>
  }

  lemma {:induction false} IfOwned(s: D.State, c: A.FnCtx, r: RStmt, id: nat)
    requires r.SIf? && s.scopes != [] && LinkedStatic(s) && Hidden(s, id)
    requires A.AnalyzeS(s, c, r).Some? && Outside(s, A.AnalyzeS(s, c, r).value.0, id)
    ensures var o := A.AnalyzeS(s, c, r).value; Kept(s, o.0, id) && !StmtMentions(o.2, id)
    decreases r, 0
  {
    hide A.ExprIn, LinkedStatic, Hidden, Onward;
    ExprInOwned(s, r.cond, id);
    var y := A.AnalyzeS(s, c, r.thn).value;
    StmtOwned(s, c, r.thn, id);
    if r.els.Some? {
      StmtOwned(y.0, y.1, r.els.value, id);
      KeptTrans(s, y.0, A.AnalyzeS(y.0, y.1, r.els.value).value.0, id);
    }
  }

  lemma {:induction false} ForOwned(s: D.State, c: A.FnCtx, r: RStmt, id: nat)
    requires r.SFor? && s.scopes != [] && LinkedStatic(s) && Hidden(s, id)
    requires A.ForIn(s, c, r).Some? && Outside(s, A.ForIn(s, c, r).value.0, id)
    ensures var o := A.ForIn(s, c, r).value; Kept(s, o.0, id) && !StmtMentions(o.2, id)
    decreases r, 0
  {
    hide A.ExprIn, LinkedStatic, Hidden, Onward, A.OptionIn, A.AnalyzeS, OptMentions;
    PushKeeps(s, id);
    var p := A.Pushed(s);
    var x := A.AnalyzeS(p, c, r.init).value;
    var c2 := x.1.(breakable := Some(r.id), loop := Some(r.id));
    var y := A.AnalyzeS(x.0, c2, r.body).value;
    StmtOwned(p, c, r.init, id);
    OptionOwned(x.0, r.test, id);
    OptionOwned(x.0, r.post, id);
    StmtOwned(x.0, c2, r.body, id);
    KeptTrans(p, x.0, y.0, id);
    PopKeeps(s, y.0, id);
  }

  lemma {:induction false} LoopOwned(s: D.State, c: A.FnCtx, n: nat, e: Raw, b: RStmt, id: nat)
    requires s.scopes != [] && LinkedStatic(s) && Hidden(s, id)
    requires A.LoopIn(s, c, n, e, b).Some? && Outside(s, A.LoopIn(s, c, n, e, b).value.0, id)
    ensures var o := A.LoopIn(s, c, n, e, b).value; Kept(s, o.0, id) && !ExprMentions(o.2, id) && !StmtMentions(o.3, id)
    decreases b, 2
  {
    hide A.ExprIn, LinkedStatic, Hidden, Onward, A.AnalyzeS;
    PushKeeps(s, id);
    var p := A.Pushed(s);
    var c2 := c.(breakable := Some(n), loop := Some(n));
    ExprInOwned(p, e, id);
    StmtOwned(p, c2, b, id);
    PopKeeps(s, A.AnalyzeS(p, c2, b).value.0, id);
  }

  lemma {:induction false} ItemsOwned(s: D.State, c: A.FnCtx, items: seq<RStmt>, id: nat)
    requires s.scopes != [] && LinkedStatic(s) && Hidden(s, id)
    requires A.AnalyzeAll(s, c, items).Some? && Outside(s, A.AnalyzeAll(s, c, items).value.0, id)
    ensures var o := A.AnalyzeAll(s, c, items).value; Kept(s, o.0, id) && !ItemsMention(o.2, id)
    decreases items, 0
  {
    hide LinkedStatic, Hidden, Onward, Kept, A.AnalyzeS, StmtMentions;
    if items == [] {
      KeptSame(s, id);
    } else {
      var x := A.AnalyzeS(s, c, items[0]).value;
      var y := A.AnalyzeAll(x.0, x.1, items[1..]).value;
      StmtOwned(s, c, items[0], id);
      KeptParts(s, x.0, id);
      ItemsOwned(x.0, x.1, items[1..], id);
      KeptTrans(s, x.0, y.0, id);
      assert ([x.2] + y.2)[1..] == y.2;
    }
  }

  lemma KeptParts(s: D.State, s': D.State, id: nat)
    requires Kept(s, s', id)
    ensures Onward(s, s') && LinkedStatic(s') && Hidden(s', id)
  {
  }

  /** Resolving jumps names nothing new. */
  lemma {:induction false} ResolveMentions(s: Stmt, m: A.LabelMap, id: nat)
    ensures StmtMentions(Resolve(s, m), id) <==> StmtMentions(s, id)
    decreases s, 1
  {
    match s
    case Block(items) => ResolveItemsMention(items, m, id);
    case If(_, a, b) => ResolveMentions(a, m, id); if b.Some? { ResolveMentions(b.value, m, id); }
    case For(_, i, _, _, b) => ResolveMentions(i, m, id); ResolveMentions(b, m, id);
    case While(_, _, b) => ResolveMentions(b, m, id);
    case DoWhile(_, _, b) => ResolveMentions(b, m, id);
    case Switch(_, _, b, _, _) => ResolveMentions(b, m, id);
    case Case(_, _, _, b) => ResolveMentions(b, m, id);
    case Default(_, b) => ResolveMentions(b, m, id);
    case Label(_, _, b) => ResolveMentions(b, m, id);
    case _ =>
  }

  lemma {:induction false} ResolveItemsMention(items: seq<Stmt>, m: A.LabelMap, id: nat)
    ensures ItemsMention(ResolveItems(items, m), id) <==> ItemsMention(items, id)
    decreases items, 0
  {
    if items != [] {
      ResolveMentions(items[0], m, id);
      ResolveItemsMention(items[1..], m, id);
      var r := ResolveItems(items, m);
      assert r[0] == Resolve(items[0], m) && r[1..] == ResolveItems(items[1..], m);
    }
  }

  lemma {:induction false} ParamsOwned(s: D.State, params: seq<Declaration>, n: nat, id: nat)
    requires s.scopes != [] && n <= |params| && LinkedStatic(s) && Hidden(s, id)
    requires ParamsIn(s, params, n).Some? && Outside(s, ParamsIn(s, params, n).value.0, id)
    ensures var r := ParamsIn(s, params, n).value; Kept(s, r.0, id) && forall k :: 0 <= k < |r.1| ==> !Is(r.1[k], id)
  {
    hide LinkedStatic, Hidden, Onward, D.Bound;
    if n == 0 {
      KeptSame(s, id);
    } else {
      var before := ParamsIn(s, params, n - 1).value;
      ParamsOwned(s, params, n - 1, id);
      BoundKeeps(before.0, params[n - 1], id);
      KeptTrans(s, before.0, D.Bound(before.0, params[n - 1]).value.0, id);
    }
  }

  /** A function names no automatic object declared outside it. */
  lemma FunctionOwned(s: D.State, i: Item, id: nat)
    requires s.scopes != [] && LinkedStatic(s) && Hidden(s, id) && FunctionIn(s, i).Some? && Outside(s, FunctionIn(s, i).value.0, id)
    ensures var r := FunctionIn(s, i).value; Kept(s, r.0, id) && !FnMentions(r.1, id)
    ensures var d := D.Declared(s, i.decl).value.0; Onward(d, FunctionIn(s, i).value.0) && FunctionIn(s, i).value.0.scopes == d.scopes
  {
    hide LinkedStatic, Hidden, D.Declared, ParamsIn, A.AnalyzeAll, ItemsMention, Resolve, ExprMentions, Onward;
    var d := D.Declared(s, i.decl).value;
    var p := A.Pushed(d.0);
    var ps := ParamsIn(p, i.decl.params, |i.decl.params|).value;
    var b := A.AnalyzeAll(ps.0, NewCtx(i.decl.ty.ret), i.body).value;
    DeclaredKeeps(s, i.decl, id);
    PushKeeps(d.0, id);
    ParamsOwned(p, i.decl.params, |i.decl.params|, id);
    ItemsOwned(ps.0, NewCtx(i.decl.ty.ret), i.body, id);
    KeptTrans(p, ps.0, b.0, id);
    PopKeeps(d.0, b.0, id);
    KeptTrans(s, d.0, A.Popped(b.0), id);
    ResolveMentions(Block(b.2), b.1.labels, id);
  }

  /** At file scope every name stands for a symbol of static duration. */
  predicate FileScope(s: D.State) {
    && |s.scopes| == 1 && LinkedStatic(s)
    && forall n :: n in s.scopes[0] ==> s.scopes[0][n] < |s.symbols| && s.symbols[s.scopes[0][n]].duration.Static?
  }

  lemma FileHides(s: D.State, id: nat)
    requires FileScope(s)
    ensures s.scopes != [] && LinkedStatic(s) && Hidden(s, id)
  {
  }

  lemma NewStatic(s: D.State, d: Declaration, i: nat)
    requires |s.scopes| == 1 && D.Bound(s, d).Some? && |s.symbols| <= i < |D.Bound(s, d).value.0.symbols|
    ensures D.Bound(s, d).value.0.symbols[i].duration.Static?
  {
    hide D.Install, D.DetermineLinkage, D.Merged;
  }

  lemma SameDurations(s: D.State, d: Declaration)
    requires s.scopes != [] && D.Declared(s, d).Some?
    ensures D.Bound(s, d).Some?
    ensures var a, b := D.Bound(s, d).value.0, D.Declared(s, d).value.0;
            |a.symbols| == |b.symbols| && forall i :: 0 <= i < |a.symbols| ==> b.symbols[i].duration == a.symbols[i].duration
  {
    hide D.Bound, D.ParamsValid, D.ValidDeclaration, Analyze, ConvertTo;
  }

  lemma DeclaredFile(s: D.State, d: Declaration)
    requires FileScope(s) && D.Declared(s, d).Some?
    ensures FileScope(D.Declared(s, d).value.0) && |s.symbols| <= |D.Declared(s, d).value.0.symbols|
  {
    hide D.Declared, D.Bound, LinkedStatic;
    var s' := D.Declared(s, d).value.0;
    FileHides(s, |s'.symbols|);
    DeclaredKeeps(s, d, |s'.symbols|);
    SameDurations(s, d);
    forall n | n in s'.scopes[0] ensures s'.scopes[0][n] < |s'.symbols| && s'.symbols[s'.scopes[0][n]].duration.Static? {
      var i := s'.scopes[0][n];
      if Outside(s, s', i) {
        FileHides(s, i);
        DeclaredKeeps(s, d, i);
        assert HiddenIn(s'.scopes[0], s'.symbols, i);
      } else {
        NewStatic(s, d, i);
      }
    }
  }

  lemma FunctionFile(s: D.State, i: Item)
    requires FileScope(s) && FunctionIn(s, i).Some?
    ensures FileScope(FunctionIn(s, i).value.0)
  {
    hide D.Declared, LinkedStatic, Hidden, ParamsIn, A.AnalyzeAll, FnMentions;
    var r := FunctionIn(s, i).value.0;
    DeclaredFile(s, i.decl);
    FileHides(s, |r.symbols|);
    FunctionOwned(s, i, |r.symbols|);
  }

  lemma NothingDeclared()
    ensures FileScope(D.State([map[]], map[], []))
  {
  }

  /** No two functions of a unit name the same automatic object. */
  lemma {:induction false} UnitApart(items: seq<Item>, n: nat)
    requires n <= |items| && UnitIn(items, n).Some?
    ensures var (s, prog) := UnitIn(items, n).value; FileScope(s) && ObjectsApart(prog, |s.symbols|)
  {
    hide D.Declared, FunctionIn, FnMentions, FileScope;
    if n == 0 {
      NothingDeclared();
    } else {
      UnitApart(items, n - 1);
      var i, before := items[n - 1], UnitIn(items, n - 1).value;
      if i.decl.isFunction && i.decl.hasBody {
        var r := FunctionIn(before.0, i).value;
        FunctionFile(before.0, i);
        forall id: nat | FnMentions(r.1, id) ensures |before.0.symbols| <= id < |r.0.symbols| {
          if Outside(before.0, r.0, id) {
            FileHides(before.0, id);
            FunctionOwned(before.0, i, id);
          }
        }
      } else {
        DeclaredFile(before.0, i.decl);
      }
    }
  }
}
