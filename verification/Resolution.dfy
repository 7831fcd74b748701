/** Gotos are resolved when the whole function body is known; after that the body is what the
    translation relies on. */
module Resolution {
  import opened Arith
  import opened Ast
  import opened Semantics
  import S = Semantics
  import opened Analysis
  import opened ExprProof
  import opened Frames
  import opened Typing
  import opened StmtParts
  import opened Labels
  import opened Declarations
  import opened StmtAnalysis

  /** The statement with every 'goto' naming the statement its label stands for. */
  function Resolve(s: Stmt, m: LabelMap): Stmt
    decreases s, 1
  {
    match s
    case Block(items) => Block(ResolveItems(items, m))
    case If(c, a, b) => If(c, Resolve(a, m), if b.Some? then Some(Resolve(b.value, m)) else None)
    case For(id, i, t, p, b) => For(id, Resolve(i, m), t, p, Resolve(b, m))
    case While(id, c, b) => While(id, c, Resolve(b, m))
    case DoWhile(id, c, b) => DoWhile(id, c, Resolve(b, m))
    case Switch(id, c, b, cases, dflt) => Switch(id, c, Resolve(b, m), cases, dflt)
    case Case(id, e, v, b) => Case(id, e, v, Resolve(b, m))
    case Default(id, b) => Default(id, Resolve(b, m))
    case Label(id, n, b) => Label(id, n, Resolve(b, m))
    case Goto(n, _) => Goto(n, if n in m then m[n] else 0)
    case _ => s
  }

  function ResolveItems(items: seq<Stmt>, m: LabelMap): seq<Stmt>
    decreases items, 0
  {
    if items == [] then [] else [Resolve(items[0], m)] + ResolveItems(items[1..], m)
  }

  /** Resolution changes no case or label. */
  lemma {:induction false} SameParts(s: Stmt, m: LabelMap)
    ensures CaseList(Resolve(s, m)) == CaseList(s) && DefaultOf(Resolve(s, m)) == DefaultOf(s)
    ensures LabelsIn(Resolve(s, m)) == LabelsIn(s) && GotosIn(Resolve(s, m)) == GotosIn(s)
    decreases s, 1
  {
    match s
    case Block(items) => SameItemParts(items, m);
    case If(_, a, b) => SameParts(a, m); if b.Some? { SameParts(b.value, m); }
    case For(_, i, _, _, b) => SameParts(i, m); SameParts(b, m);
    case While(_, _, b) => SameParts(b, m);
    case DoWhile(_, _, b) => SameParts(b, m);
    case Switch(_, _, b, _, _) => SameParts(b, m);
    case Case(_, _, _, b) => SameParts(b, m);
    case Default(_, b) => SameParts(b, m);
    case Label(_, _, b) => SameParts(b, m);
    case _ =>
  }

  lemma {:induction false} SameItemParts(items: seq<Stmt>, m: LabelMap)
    ensures var r := ResolveItems(items, m);
            && CaseListItems(r) == CaseListItems(items) && DefaultOfItems(r) == DefaultOfItems(items)
            && LabelsInItems(r) == LabelsInItems(items) && GotosInItems(r) == GotosInItems(items)
    decreases items, 0
  {
    if items != [] {
      SameParts(items[0], m);
      SameItemParts(items[1..], m);
      var r := ResolveItems(items, m);
      assert r[0] == Resolve(items[0], m) && r[1..] == ResolveItems(items[1..], m);
    }
  }

  /** Nor does it renumber statements. */
  lemma {:induction false} SameIds(s: Stmt, m: LabelMap, id: nat)
    ensures IdCount(Resolve(s, m), id) == IdCount(s, id)
    decreases s, 1
  {
    match s
    case Block(items) => SameItemIds(items, m, id);
    case If(_, a, b) => SameIds(a, m, id); if b.Some? { SameIds(b.value, m, id); }
    case For(_, i, _, _, b) => SameIds(i, m, id); SameIds(b, m, id);
    case While(_, _, b) => SameIds(b, m, id);
    case DoWhile(_, _, b) => SameIds(b, m, id);
    case Switch(_, _, b, _, _) => SameIds(b, m, id);
    case Case(_, _, _, b) => SameIds(b, m, id);
    case Default(_, b) => SameIds(b, m, id);
    case Label(_, _, b) => SameIds(b, m, id);
    case _ =>
  }

  lemma {:induction false} SameItemIds(items: seq<Stmt>, m: LabelMap, id: nat)
    ensures IdCountItems(ResolveItems(items, m), id) == IdCountItems(items, id)
    decreases items, 0
  {
    if items != [] {
      SameIds(items[0], m, id);
      SameItemIds(items[1..], m, id);
      var r := ResolveItems(items, m);
      assert r[0] == Resolve(items[0], m) && r[1..] == ResolveItems(items[1..], m);
    }
  }

  lemma {:induction false} SameUses(s: Stmt, m: LabelMap)
    requires StmtUses(Resolve(s, m))
    ensures StmtUses(s)
    decreases s, 1
  {
    hide UsesOk;
    match s
    case Block(items) => SameItemUses(items, m);
    case If(_, a, b) => SameUses(a, m); if b.Some? { SameUses(b.value, m); }
    case For(_, i, _, _, b) => SameUses(i, m); SameUses(b, m);
    case While(_, _, b) => SameUses(b, m);
    case DoWhile(_, _, b) => SameUses(b, m);
    case Switch(_, _, b, _, _) => SameUses(b, m);
    case Case(_, _, _, b) => SameUses(b, m);
    case Default(_, b) => SameUses(b, m);
    case Label(_, _, b) => SameUses(b, m);
    case _ =>
  }

  lemma {:induction false} SameItemUses(items: seq<Stmt>, m: LabelMap)
    requires ItemsUses(ResolveItems(items, m))
    ensures ItemsUses(items)
    decreases items, 0
  {
    if items != [] {
      var r := ResolveItems(items, m);
      assert r[0] == Resolve(items[0], m) && r[1..] == ResolveItems(items[1..], m);
      SameUses(items[0], m);
      SameItemUses(items[1..], m);
    }
  }

  lemma {:induction false} LabelsKeep(m: LabelMap, ls: seq<(string, nat)>, n: string)
    requires FreshLabels(m, ls) && n in m
    ensures n in AddLabels(m, ls) && AddLabels(m, ls)[n] == m[n]
    decreases |ls|
  {
    if ls != [] { LabelsKeep(m[ls[0].0 := ls[0].1], ls[1..], n); }
  }

  lemma {:induction false} LabelEntered(m: LabelMap, ls: seq<(string, nat)>, k: nat)
    requires FreshLabels(m, ls) && k < |ls|
    ensures ls[k].0 in AddLabels(m, ls) && AddLabels(m, ls)[ls[k].0] == ls[k].1
    decreases |ls|
  {
    var m2 := m[ls[0].0 := ls[0].1];
    if k == 0 { LabelsKeep(m2, ls[1..], ls[0].0); } else { LabelEntered(m2, ls[1..], k - 1); }
  }

  lemma {:induction false} LabelDefined(m: LabelMap, ls: seq<(string, nat)>, n: string) returns (k: nat)
    requires n in AddLabels(m, ls) && n !in m
    ensures k < |ls| && ls[k].0 == n
    decreases |ls|
  {
    if ls[0].0 == n { return 0; }
    k := LabelDefined(m[ls[0].0 := ls[0].1], ls[1..], n);
    k := k + 1;
  }

  /** Searching for a label finds a statement of that label. */
  lemma {:induction false} FoundIsLabel(s: Stmt, k: Cont, n: string) returns (j: nat)
    requires S.Find(s, k, ByName(n)).Some?
    ensures var t := S.Find(s, k, ByName(n)).value.0; t.Label? && t.name == n && j < |LabelsIn(s)| && LabelsIn(s)[j] == (n, t.id)
    decreases s, 1
  {
    match s
    case Block(items) => j := FoundIsLabelItems(items, k, n);
    case If(_, a, b) =>
      if S.Find(a, KThen(s, k), ByName(n)).Some? { j := FoundIsLabel(a, KThen(s, k), n); }
      else { j := FoundIsLabel(b.value, KElse(s, k), n); j := |LabelsIn(a)| + j; }
    case For(_, _, _, _, b) => j := FoundIsLabel(b, KFor(s, k), n);
    case While(_, _, b) => j := FoundIsLabel(b, KWhile(s, k), n);
    case DoWhile(_, _, b) => j := FoundIsLabel(b, KDo(s, k), n);
    case Switch(_, _, b, _, _) => j := FoundIsLabel(b, KSwitch(s, k), n);
    case Case(_, _, _, b) => j := FoundIsLabel(b, k, n);
    case Default(_, b) => j := FoundIsLabel(b, k, n);
    case Label(id, l, b) => if l == n { j := 0; } else { j := FoundIsLabel(b, k, n); j := j + 1; }
  }

  lemma {:induction false} FoundIsLabelItems(items: seq<Stmt>, k: Cont, n: string) returns (j: nat)
    requires FindItems(items, k, ByName(n)).Some?
    ensures var t := FindItems(items, k, ByName(n)).value.0;
            t.Label? && t.name == n && j < |LabelsInItems(items)| && LabelsInItems(items)[j] == (n, t.id)
    decreases items, 0
  {
    if S.Find(items[0], KSeq(items[1..], k), ByName(n)).Some? {
      j := FoundIsLabel(items[0], KSeq(items[1..], k), n);
    } else {
      j := FoundIsLabelItems(items[1..], k, n);
      j := |LabelsIn(items[0])| + j;
    }
  }

  /** Every label of a statement is found. */
  lemma {:induction false} LabelIsFound(s: Stmt, k: Cont, j: nat)
    requires j < |LabelsIn(s)|
    ensures S.Find(s, k, ByName(LabelsIn(s)[j].0)).Some?
    decreases s, 1
  {
    match s
    case Block(items) => LabelIsFoundItems(items, k, j);
    case If(_, a, b) =>
      if j < |LabelsIn(a)| { LabelIsFound(a, KThen(s, k), j); } else { LabelIsFound(b.value, KElse(s, k), j - |LabelsIn(a)|); }
    case For(_, _, _, _, b) => LabelIsFound(b, KFor(s, k), j);
    case While(_, _, b) => LabelIsFound(b, KWhile(s, k), j);
    case DoWhile(_, _, b) => LabelIsFound(b, KDo(s, k), j);
    case Switch(_, _, b, _, _) => LabelIsFound(b, KSwitch(s, k), j);
    case Case(_, _, _, b) => LabelIsFound(b, k, j);
    case Default(_, b) => LabelIsFound(b, k, j);
    case Label(_, _, b) => if j > 0 { LabelIsFound(b, k, j - 1); }
  }

  lemma {:induction false} LabelIsFoundItems(items: seq<Stmt>, k: Cont, j: nat)
    requires j < |LabelsInItems(items)|
    ensures FindItems(items, k, ByName(LabelsInItems(items)[j].0)).Some?
    decreases items, 0
  {
    var c := |LabelsIn(items[0])|;
    if j < c { LabelIsFound(items[0], KSeq(items[1..], k), j); } else { LabelIsFoundItems(items[1..], k, j - c); }
  }

  /** 'm' maps every label of the body to the statement it labels, and no other name. */
  ghost predicate Resolves(m: LabelMap, body: Stmt) {
    forall n :: (n in m <==> S.Find(body, KStop, ByName(n)).Some?)
                && (n in m ==> m[n] == IdOf(S.Find(body, KStop, ByName(n)).value.0))
  }

  lemma LabelsResolve(m: LabelMap, body: Stmt)
    requires FreshLabels(map[], LabelsIn(body)) && m == AddLabels(map[], LabelsIn(body))
    ensures Resolves(m, body)
  {
    var ls := LabelsIn(body);
    forall n
      ensures n in m <==> S.Find(body, KStop, ByName(n)).Some?
      ensures n in m ==> m[n] == IdOf(S.Find(body, KStop, ByName(n)).value.0)
    {
      if n in m {
        var k := LabelDefined(map[], ls, n);
        LabelIsFound(body, KStop, k);
      }
      if S.Find(body, KStop, ByName(n)).Some? {
        var j := FoundIsLabel(body, KStop, n);
        LabelEntered(map[], ls, j);
      }
    }
  }

  lemma {:induction false} DeclsFine(ds: seq<Decl>, syms: seq<Sym>, bound: nat)
    requires |syms| <= bound && forall k :: 0 <= k < |ds| ==> DeclFit(ds[k], syms)
    requires forall k :: 0 <= k < |ds| ==> DeclUses(ds[k])
    ensures DeclsOk(ds, bound) && DeclsTyped(TypesOf(syms), ds)
  {
    hide WellTyped, ExprTyped, VarsBelow, UsesOk, TypesOf, SymTyped;
    if ds != [] {
      assert DeclFit(ds[0], syms) && DeclUses(ds[0]);
      if ds[0].isObject && ds[0].isAuto && ds[0].init.Some? { BelowMore(ds[0].init.value, |syms|, bound); }
      DeclsFine(ds[1..], syms, bound);
    }
  }

  lemma ExprFine(e: Expr, syms: seq<Sym>, bound: nat)
    requires |syms| <= bound && ExprFit(e, syms) && UsesOk(e)
    ensures ExprOk(e, bound) && ValueTyped(TypesOf(syms), e)
  {
    hide WellTyped, ExprTyped, VarsBelow, UsesOk, TypesOf;
    BelowMore(e, |syms|, bound);
  }

  /** What analysis leaves unchecked is exactly what is missing. */
  lemma {:induction false} TypedUses(s: Stmt, t: Types, ret: Ty)
    requires StmtTyped(t, ret, s)
    ensures StmtUses(s)
    decreases s, 1
  {
    hide WellTyped, ExprTyped, UsesOk, CasesFit;
    match s
    case ExprStmt(e) => GoodUses(e);
    case DeclStmt(ds) => DeclsTypedUses(ds, t);
    case Block(items) => ItemsTypedUses(items, t, ret);
    case Return(e) => if e.Some? { GoodUses(e.value); }
    case If(c, a, b) => GoodUses(c); TypedUses(a, t, ret); if b.Some? { TypedUses(b.value, t, ret); }
    case For(_, i, c, p, b) =>
      TypedUses(i, t, ret);
      if c.Some? { GoodUses(c.value); }
      if p.Some? { GoodUses(p.value); }
      TypedUses(b, t, ret);
    case While(_, c, b) => GoodUses(c); TypedUses(b, t, ret);
    case DoWhile(_, c, b) => GoodUses(c); TypedUses(b, t, ret);
    case Switch(_, c, b, _, _) => GoodUses(c); TypedUses(b, t, ret);
    case Case(_, _, _, b) => TypedUses(b, t, ret);
    case Default(_, b) => TypedUses(b, t, ret);
    case Label(_, _, b) => TypedUses(b, t, ret);
    case _ =>
  }

  lemma {:induction false} ItemsTypedUses(items: seq<Stmt>, t: Types, ret: Ty)
    requires ItemsTyped(t, ret, items)
    ensures ItemsUses(items)
    decreases items, 0
  {
    if items != [] {
      TypedUses(items[0], t, ret);
      ItemsTypedUses(items[1..], t, ret);
    }
  }

  lemma {:induction false} DeclsTypedUses(ds: seq<Decl>, t: Types)
    requires DeclsTyped(t, ds)
    ensures forall k :: 0 <= k < |ds| ==> DeclUses(ds[k])
  {
    hide WellTyped, ExprTyped, UsesOk;
    if ds != [] {
      if ds[0].isObject && ds[0].isAuto && ds[0].init.Some? { GoodUses(ds[0].init.value); }
      DeclsTypedUses(ds[1..], t);
      forall k | 0 <= k < |ds| ensures DeclUses(ds[k]) { if k > 0 { assert ds[k] == ds[1..][k - 1]; } }
    }
  }

  /** Every 'goto' has its label. */
  predicate Known(gs: seq<string>, m: LabelMap) {
    forall k :: 0 <= k < |gs| ==> gs[k] in m
  }

  lemma KnownJoin(a: seq<string>, b: seq<string>, m: LabelMap)
    requires Known(a + b, m)
    ensures Known(a, m) && Known(b, m)
  {
    forall k | 0 <= k < |a| ensures a[k] in m { assert a[k] == (a + b)[k]; }
    forall k | 0 <= k < |b| ensures b[k] in m { assert b[k] == (a + b)[|a| + k]; }
  }

  /** The jumps of a resolved statement reach the statements that C says they reach. */
  lemma {:induction false} Resolved(s: Stmt, m: LabelMap, j: Jumps, ret: Ty, syms: seq<Sym>, bound: nat)
    requires Fit(s, ret, syms) && Shape(s, j.brk, j.cnt) && StmtUses(s) && |syms| <= bound
    requires Resolves(m, j.body) && Known(GotosIn(s), m)
    ensures StmtOk(Resolve(s, m), j, bound) && StmtTyped(TypesOf(syms), ret, Resolve(s, m))
    decreases s, 1
  {
    hide ExprFit, DeclFit, UsesOk, TypesOf, DeclsOk, DeclsTyped, ExprOk, ValueTyped, Resolves, LabelsIn, IdCount, S.Find, CaseList,
      DefaultOf;
    if s.For? { ResolvedFor(s, m, j, ret, syms, bound); }
    else if s.While? || s.DoWhile? { ResolvedWhile(s, m, j, ret, syms, bound); }
    else if s.Switch? { ResolvedSwitch(s, m, j, ret, syms, bound); }
    else if s.Goto? { assert StmtOk(Resolve(s, m), j, bound) by { ResolvedGoto(s, m, j, bound); } }
    else { ResolvedOther(s, m, j, ret, syms, bound); }
  }

  lemma ResolvedGoto(s: Stmt, m: LabelMap, j: Jumps, bound: nat)
    requires s.Goto? && Resolves(m, j.body) && Known(GotosIn(s), m)
    ensures StmtOk(Resolve(s, m), j, bound)
  {
    assert GotosIn(s)[0] in m;
    assert s.name in m <==> S.Find(j.body, KStop, ByName(s.name)).Some?;
  }

  lemma {:induction false} ResolvedFor(s: Stmt, m: LabelMap, j: Jumps, ret: Ty, syms: seq<Sym>, bound: nat)
    requires s.For?
    requires Fit(s, ret, syms) && Shape(s, j.brk, j.cnt) && StmtUses(s) && |syms| <= bound
    requires Resolves(m, j.body) && Known(GotosIn(s), m)
    ensures StmtOk(Resolve(s, m), j, bound) && StmtTyped(TypesOf(syms), ret, Resolve(s, m))
    decreases s, 0
  {
    hide ExprFit, DeclFit, UsesOk, TypesOf, DeclsOk, DeclsTyped, ExprOk, ValueTyped, Resolves, LabelsIn, IdCount, S.Find, CaseList,
      DefaultOf;
    KnownJoin(GotosIn(s.init), GotosIn(s.body), m);
    Resolved(s.init, m, j.(brk := None, cnt := None), ret, syms, bound);
    if s.test.Some? { ExprFine(s.test.value, syms, bound); }
    if s.post.Some? { ExprFine(s.post.value, syms, bound); }
    Resolved(s.body, m, j.(brk := Some(s.id), cnt := Some(s.id)), ret, syms, bound);
  }

  lemma {:induction false} ResolvedWhile(s: Stmt, m: LabelMap, j: Jumps, ret: Ty, syms: seq<Sym>, bound: nat)
    requires s.While? || s.DoWhile?
    requires Fit(s, ret, syms) && Shape(s, j.brk, j.cnt) && StmtUses(s) && |syms| <= bound
    requires Resolves(m, j.body) && Known(GotosIn(s), m)
    ensures StmtOk(Resolve(s, m), j, bound) && StmtTyped(TypesOf(syms), ret, Resolve(s, m))
    decreases s, 0
  {
    hide ExprFit, DeclFit, UsesOk, TypesOf, DeclsOk, DeclsTyped, ExprOk, ValueTyped, Resolves, LabelsIn, IdCount, S.Find, CaseList,
      DefaultOf;
    ExprFine(s.cond, syms, bound);
    Resolved(s.body, m, j.(brk := Some(s.id), cnt := Some(s.id)), ret, syms, bound);
  }

  lemma {:induction false} ResolvedSwitch(s: Stmt, m: LabelMap, j: Jumps, ret: Ty, syms: seq<Sym>, bound: nat)
    requires s.Switch?
    requires Fit(s, ret, syms) && Shape(s, j.brk, j.cnt) && StmtUses(s) && |syms| <= bound
    requires Resolves(m, j.body) && Known(GotosIn(s), m)
    ensures StmtOk(Resolve(s, m), j, bound) && StmtTyped(TypesOf(syms), ret, Resolve(s, m))
    decreases s, 0
  {
    hide ExprFit, DeclFit, UsesOk, TypesOf, DeclsOk, DeclsTyped, ExprOk, ValueTyped, Resolves, LabelsIn, IdCount, S.Find, CaseList,
      DefaultOf;
    ExprFine(s.cond, syms, bound);
    SameParts(s.body, m);
    Resolved(s.body, m, j.(brk := Some(s.id)), ret, syms, bound);
  }

  lemma {:induction false} ResolvedOther(s: Stmt, m: LabelMap, j: Jumps, ret: Ty, syms: seq<Sym>, bound: nat)
    requires !s.For? && !s.While? && !s.DoWhile? && !s.Switch? && !s.Goto?
    requires Fit(s, ret, syms) && Shape(s, j.brk, j.cnt) && StmtUses(s) && |syms| <= bound
    requires Resolves(m, j.body) && Known(GotosIn(s), m)
    ensures StmtOk(Resolve(s, m), j, bound) && StmtTyped(TypesOf(syms), ret, Resolve(s, m))
    decreases s, 0
  {
    hide ExprFit, DeclFit, UsesOk, TypesOf, DeclsOk, DeclsTyped, ExprOk, ValueTyped, Resolves, LabelsIn, IdCount, S.Find, CaseList,
      DefaultOf;
    match s
    case ExprStmt(e) => ExprFine(e, syms, bound);
    case DeclStmt(ds) => DeclsFine(ds, syms, bound);
    case Block(items) => ResolvedItems(items, m, j, ret, syms, bound);
    case Return(e) => if e.Some? { ExprFine(e.value, syms, bound); }
    case If(c, a, b) =>
      ExprFine(c, syms, bound);
      KnownJoin(GotosIn(a), if b.Some? then GotosIn(b.value) else [], m);
      Resolved(a, m, j, ret, syms, bound);
      if b.Some? { Resolved(b.value, m, j, ret, syms, bound); }
    case Case(_, _, _, b) => Resolved(b, m, j, ret, syms, bound);
    case Default(_, b) => Resolved(b, m, j, ret, syms, bound);
    case Label(_, _, b) => Resolved(b, m, j, ret, syms, bound);
    case _ =>
  }

  lemma {:induction false} ResolvedItems(items: seq<Stmt>, m: LabelMap, j: Jumps, ret: Ty, syms: seq<Sym>, bound: nat)
    requires ItemsFit(items, ret, syms) && ItemsShape(items, j.brk, j.cnt) && ItemsUses(items) && |syms| <= bound
    requires Resolves(m, j.body) && Known(GotosInItems(items), m)
    ensures ItemsOk(ResolveItems(items, m), j, bound) && ItemsTyped(TypesOf(syms), ret, ResolveItems(items, m))
    decreases items, 0
  {
    hide Resolves, Fit, Shape, StmtUses, StmtOk, StmtTyped, TypesOf;
    if items != [] {
      KnownJoin(GotosIn(items[0]), GotosInItems(items[1..]), m);
      Resolved(items[0], m, j, ret, syms, bound);
      ResolvedItems(items[1..], m, j, ret, syms, bound);
      var r := ResolveItems(items, m);
      assert r[0] == Resolve(items[0], m) && r[1..] == ResolveItems(items[1..], m);
    }
  }
}
