/** One source step against the machine, and from there whole runs: finished runs finish with the
    same result, and runs that go on for ever go on for ever. */
module StmtSim {
  import opened Arith
  import opened Ast
  import opened Semantics
  import opened Ir
  import opened IrGen
  import opened ExprProof
  import opened StmtParts
  import opened StmtProof

  /** The first case with value 'x'. */
  function FirstCase(cases: seq<CaseRef>, x: int): Option<nat> {
    if cases == [] then None
    else if cases[0].value == x then Some(cases[0].id)
    else FirstCase(cases[1..], x)
  }

  lemma {:induction false} FirstCaseAppend(a: seq<CaseRef>, b: seq<CaseRef>, x: int)
    ensures FirstCase(a + b, x) == if FirstCase(a, x).Some? then FirstCase(a, x) else FirstCase(b, x)
  {
    if a == [] {
      assert a + b == b;
    } else {
      assert (a + b)[1..] == a[1..] + b;
      FirstCaseAppend(a[1..], b, x);
    }
  }

  function FoundId(r: Option<(Stmt, Cont)>): Option<nat> {
    if r.Some? then Some(IdOf(r.value.0)) else None
  }

  /** The case list answers exactly what searching the switch body answers. */
  lemma {:induction false} CasesFind(s: Stmt, k: Cont, x: int)
    ensures FirstCase(CaseList(s), x) == FoundId(Find(s, k, ByValue(x)))
    decreases s, 1
  {
    match s
    case Block(items) => CasesFindItems(items, k, x);
    case If(_, a, None) => CasesFind(a, KThen(s, k), x);
    case If(_, a, Some(b)) =>
      CasesFind(a, KThen(s, k), x);
      CasesFind(b, KElse(s, k), x);
      FirstCaseAppend(CaseList(a), CaseList(b), x);
    case For(_, _, _, _, b) => CasesFind(b, KFor(s, k), x);
    case While(_, _, b) => CasesFind(b, KWhile(s, k), x);
    case DoWhile(_, _, b) => CasesFind(b, KDo(s, k), x);
    case Case(id, _, v, b) =>
      CasesFind(b, k, x);
      FirstCaseAppend([CaseRef(v, id)], CaseList(b), x);
    case Default(_, b) => CasesFind(b, k, x);
    case Label(_, _, b) => CasesFind(b, k, x);
    case _ =>
  }

  lemma {:induction false} CasesFindItems(items: seq<Stmt>, k: Cont, x: int)
    ensures FirstCase(CaseListItems(items), x) == FoundId(FindItems(items, k, ByValue(x)))
    decreases items, 0
  {
    if items != [] {
      CasesFind(items[0], KSeq(items[1..], k), x);
      CasesFindItems(items[1..], k, x);
      FirstCaseAppend(CaseList(items[0]), CaseListItems(items[1..]), x);
    }
  }

  lemma {:induction false} DefaultFind(s: Stmt, k: Cont)
    ensures DefaultOf(s) == FoundId(Find(s, k, ByDefault))
    decreases s, 1
  {
    match s
    case Block(items) => DefaultFindItems(items, k);
    case If(_, a, None) => DefaultFind(a, KThen(s, k));
    case If(_, a, Some(b)) =>
      DefaultFind(a, KThen(s, k));
      DefaultFind(b, KElse(s, k));
    case For(_, _, _, _, b) => DefaultFind(b, KFor(s, k));
    case While(_, _, b) => DefaultFind(b, KWhile(s, k));
    case DoWhile(_, _, b) => DefaultFind(b, KDo(s, k));
    case Case(_, _, _, b) => DefaultFind(b, k);
    case Label(_, _, b) => DefaultFind(b, k);
    case _ =>
  }

  lemma {:induction false} DefaultFindItems(items: seq<Stmt>, k: Cont)
    ensures DefaultOfItems(items) == FoundId(FindItems(items, k, ByDefault))
    decreases items, 0
  {
    if items != [] {
      DefaultFind(items[0], KSeq(items[1..], k));
      DefaultFindItems(items[1..], k);
    }
  }

  /** The comparison chain of a switch goes to the first case with the value, or falls through. */
  lemma {:induction false} TestsSim(c: Ctx, cases: seq<CaseRef>, v: Value, np: nat, p: nat, m: Store, s: Store)
    returns (n: nat, s': Store)
    requires CodeAt(c.code, p, GenTests(cases, v, np)) && Agree(m, s, c.bound)
    requires c.bound <= np && (v.Pseudo? ==> v.id < np)
    ensures var hit := FirstCase(cases, ReadVal(v, s));
            Go(c, p, s, n) == At(if hit.Some? then Lookup(c.code, Lbl(LCase, hit.value)) else p + |GenTests(cases, v, np)|, s')
    ensures Agree(m, s', c.bound) && (FirstCase(cases, ReadVal(v, s)).Some? ==> n > 0)
  {
    hide CodeAt, Lookup, IrSteps;
    GoNone(c, p, s);
    if cases == [] {
      n, s' := 0, s;
    } else {
      var x := ReadVal(v, s);
      var d := Pseudo(Int, np);
      var two := [IBinary(Eq, v, Const(TyOf(v), cases[0].value), d), IJumpIfNotZero(d, Lbl(LCase, cases[0].id))];
      CodeSplit(c.code, p, two, GenTests(cases[1..], v, np + 1));
      CodeHead(c.code, p, two);
      CodeHead(c.code, p + 1, two[1..]);
      var eq := Truth(x == cases[0].value);
      GoStore(c, p, s, 0, p, s, d, eq);
      var s1 := WriteVal(d, eq, s);
      WriteTemp(m, s, Int, np, eq, c.bound);
      GoBranch(c, p, s, 1, p + 1, s1);
      if x == cases[0].value {
        n, s' := 2, s1;
      } else {
        var k, s2 := TestsSim(c, cases[1..], v, np + 1, p + 2, m, s1);
        var hit := FirstCase(cases[1..], x);
        GoOn(c, p, s, 2, p + 2, s1, k,
             if hit.Some? then Lookup(c.code, Lbl(LCase, hit.value)) else p + 2 + |GenTests(cases[1..], v, np + 1)|, s2);
        n, s' := 2 + k, s2;
      }
    }
  }

  /** Jumping to the statement that 'g' finds, once the machine is at its label. */
  lemma Arrive(c: Ctx, body: Stmt, s: Stmt, k: Cont, g: Goal, np: nat, nl: nat, p: nat, m: Store, s': Store)
    requires ValidCtx(c) && RunAt(c, s, k, np, nl, p) && Find(s, k, g).Some?
    requires StmtOk(s, JumpsOf(k, body), c.bound) && KOk(k, body, c.bound) && Agree(m, s', c.bound)
    ensures var (t, k') := Find(s, k, g).value;
            Matched(c, body, Run(t, k', m), At(Lookup(c.code, Lbl(if g.ByName? then LUser else LCase, IdOf(t))), s'))
  {
    hide StmtAt, GenStmt, StmtOk, KOk, KMatch, Find, Lookup, Agree;
    var np', nl', p' := FindPlaced(c, body, s, k, g, np, nl, p);
    var t, k' := Find(s, k, g).value.0, Find(s, k, g).value.1;
    MarkedParts(c, t, np', nl', p');
    LookupAt(c.code, p', MarkOf(t));
    assert RunAt(c, t, k', np', nl', p');
  }

  lemma SwitchStep(c: Ctx, body: Stmt, s: Stmt, k: Cont, np: nat, nl: nat, p: nat, m: Store, st: Store)
    returns (n: nat, ir': IrState)
    requires ValidCtx(c) && RunAt(c, s, k, np, nl, p) && s.Switch? && Agree(m, st, c.bound)
    requires StmtOk(s, JumpsOf(k, body), c.bound) && KOk(k, body, c.bound)
    requires !RunStmt(body, s, k, m, false, c.src).Wrong?
    ensures Stepped(c, body, Run(s, k, m), p, st, n, ir')
  {
    hide CodeAt, GenStmt, GenExpr, GenTests, Eval, ExprOk, IrSteps, Lookup, Agree, Find, StmtOk, KOk, FirstCase, KMatch;
    SwitchParts(c, s, np, nl, p);
    SwitchOk(s, k, body, c.bound);
    PushFrame(c, KSwitch(s, k), p, np, nl);
    var gc := GenExpr(s.cond, np, nl);
    var tests := GenTests(s.cases, gc.val, gc.np);
    var p1, p2 := p + |gc.code|, p + |gc.code| + |tests|;
    var kb := KSwitch(s, k);
    var n1, s1 := ExprRun(c, s.cond, np, nl, p, m, st);
    var r := Eval(s.cond, m, false, c.src);
    var x := Read(r.o, r.st);
    var n2, s2 := TestsSim(c, s.cases, gc.val, gc.np, p1, r.st, s1);
    CasesFind(s.body, kb, x);
    DefaultFind(s.body, kb);
    var t, d := Find(s.body, kb, ByValue(x)), Find(s.body, kb, ByDefault);
    assert RunAt(c, s.body, kb, gc.np + |s.cases|, gc.nl, p2 + 1);
    if t.Some? {
      Arrive(c, body, s.body, kb, ByValue(x), gc.np + |s.cases|, gc.nl, p2 + 1, r.st, s2);
      var q := Lookup(c.code, Lbl(LCase, IdOf(t.value.0)));
      GoOn(c, p, st, n1, p1, s1, n2, q, s2);
      n, ir' := n1 + n2, At(q, s2);
    } else {
      GoOn(c, p, st, n1, p1, s1, n2, p2, s2);
      GoJump(c, p, st, n1 + n2, p2, s2);
      if d.Some? {
        Arrive(c, body, s.body, kb, ByDefault, gc.np + |s.cases|, gc.nl, p2 + 1, r.st, s2);
        n, ir' := n1 + n2 + 1, At(Lookup(c.code, Lbl(LCase, IdOf(d.value.0))), s2);
      } else {
        LoopEnd(c, s, np, nl, p);
        var q := p + |GenStmt(s, np, nl).code| - 1;
        LookupAt(c.code, q, Lbl(LBreak, s.id));
        GoLabel(c, p, st, n1 + n2 + 1, q, s2);
        n, ir' := n1 + n2 + 2, At(q + 1, s2);
      }
    }
  }

  lemma SwitchOk(s: Stmt, k: Cont, body: Stmt, bound: nat)
    requires s.Switch? && StmtOk(s, JumpsOf(k, body), bound) && KOk(k, body, bound)
    ensures CondOk(s.cond, bound) && StmtOk(s.body, JumpsOf(KSwitch(s, k), body), bound) && KOk(KSwitch(s, k), body, bound)
    ensures s.cases == CaseList(s.body) && s.dflt == DefaultOf(s.body)
  {
  }

  lemma IfStep(c: Ctx, body: Stmt, s: Stmt, k: Cont, np: nat, nl: nat, p: nat, m: Store, st: Store)
    returns (n: nat, ir': IrState)
    requires ValidCtx(c) && RunAt(c, s, k, np, nl, p) && s.If? && Agree(m, st, c.bound)
    requires StmtOk(s, JumpsOf(k, body), c.bound) && KOk(k, body, c.bound)
    requires !RunStmt(body, s, k, m, false, c.src).Wrong?
    ensures Stepped(c, body, Run(s, k, m), p, st, n, ir')
  {
    hide CodeAt, GenStmt, GenExpr, Eval, ExprOk, IrSteps, Lookup, Agree, KMatch;
    if s.els.None? { n, ir' := IfPlainStep(c, body, s, k, np, nl, p, m, st); }
    else { n, ir' := IfElseStep(c, body, s, k, np, nl, p, m, st); }
  }

  lemma IfPlainStep(c: Ctx, body: Stmt, s: Stmt, k: Cont, np: nat, nl: nat, p: nat, m: Store, st: Store)
    returns (n: nat, ir': IrState)
    requires ValidCtx(c) && RunAt(c, s, k, np, nl, p) && s.If? && s.els.None? && Agree(m, st, c.bound)
    requires StmtOk(s, JumpsOf(k, body), c.bound) && KOk(k, body, c.bound)
    requires !RunStmt(body, s, k, m, false, c.src).Wrong?
    ensures Stepped(c, body, Run(s, k, m), p, st, n, ir')
  {
    hide CodeAt, GenStmt, GenExpr, Eval, ExprOk, IrSteps, Lookup, Agree, KMatch;
    var gc := GenExpr(s.cond, np, nl);
    var p1 := p + |gc.code|;
    IfPlainParts(c, s, np, nl, p);
    var n1, s1 := ExprRun(c, s.cond, np, nl, p, m, st);
    var r := Eval(s.cond, m, false, c.src);
    GoBranch(c, p, st, n1, p1, s1);
    if Read(r.o, r.st) != 0 {
      PushFrame(c, KThen(s, k), p, np, nl);
      n, ir' := n1 + 1, At(p1 + 1, s1);
      assert RunAt(c, s.thn, KThen(s, k), gc.np, gc.nl + 1, p1 + 1);
    } else {
      var q := p1 + 1 + |GenStmt(s.thn, gc.np, gc.nl + 1).code|;
      LookupAt(c.code, q, Temp(gc.nl));
      GoLabel(c, p, st, n1 + 1, q, s1);
      n, ir' := n1 + 2, At(q + 1, s1);
    }
  }

  lemma IfElseStep(c: Ctx, body: Stmt, s: Stmt, k: Cont, np: nat, nl: nat, p: nat, m: Store, st: Store)
    returns (n: nat, ir': IrState)
    requires ValidCtx(c) && RunAt(c, s, k, np, nl, p) && s.If? && s.els.Some? && Agree(m, st, c.bound)
    requires StmtOk(s, JumpsOf(k, body), c.bound) && KOk(k, body, c.bound)
    requires !RunStmt(body, s, k, m, false, c.src).Wrong?
    ensures Stepped(c, body, Run(s, k, m), p, st, n, ir')
  {
    hide CodeAt, GenStmt, GenExpr, Eval, ExprOk, IrSteps, Lookup, Agree, KMatch;
    var gc := GenExpr(s.cond, np, nl);
    var p1 := p + |gc.code|;
    IfElseParts(c, s, np, nl, p);
    var n1, s1 := ExprRun(c, s.cond, np, nl, p, m, st);
    var r := Eval(s.cond, m, false, c.src);
    GoBranch(c, p, st, n1, p1, s1);
    if Read(r.o, r.st) != 0 {
      PushFrame(c, KThen(s, k), p, np, nl);
      n, ir' := n1 + 1, At(p1 + 1, s1);
      assert RunAt(c, s.thn, KThen(s, k), gc.np, gc.nl + 2, p1 + 1);
    } else {
      var ga := GenStmt(s.thn, gc.np, gc.nl + 2);
      var q := p1 + 1 + |ga.code| + 1;
      LookupAt(c.code, q, Temp(gc.nl + 1));
      GoLabel(c, p, st, n1 + 1, q, s1);
      PushFrame(c, KElse(s, k), p, np, nl);
      n, ir' := n1 + 2, At(q + 1, s1);
      assert RunAt(c, s.els.value, KElse(s, k), ga.np, ga.nl, q + 1);
    }
  }

  lemma WhileStep(c: Ctx, body: Stmt, s: Stmt, k: Cont, np: nat, nl: nat, p: nat, m: Store, st: Store)
    returns (n: nat, ir': IrState)
    requires ValidCtx(c) && RunAt(c, s, k, np, nl, p) && s.While? && Agree(m, st, c.bound)
    requires StmtOk(s, JumpsOf(k, body), c.bound) && KOk(k, body, c.bound)
    requires !RunStmt(body, s, k, m, false, c.src).Wrong?
    ensures Stepped(c, body, Run(s, k, m), p, st, n, ir')
  {
    hide CodeAt, GenStmt, GenExpr, Eval, ExprOk, IrSteps, Lookup, Agree, KMatch;
    var gc := GenExpr(s.cond, np, nl);
    var p1 := p + 1 + |gc.code|;
    WhileParts(c, s, np, nl, p);
    GoNone(c, p, st);
    GoLabel(c, p, st, 0, p, st);
    var n1, s1 := ExprRun(c, s.cond, np, nl, p + 1, m, st);
    var r := Eval(s.cond, m, false, c.src);
    GoOn(c, p, st, 1, p + 1, st, n1, p1, s1);
    GoBranch(c, p, st, 1 + n1, p1, s1);
    if Read(r.o, r.st) != 0 {
      PushFrame(c, KWhile(s, k), p, np, nl);
      n, ir' := n1 + 2, At(p1 + 1, s1);
      assert RunAt(c, s.body, KWhile(s, k), gc.np, gc.nl, p1 + 1);
    } else {
      var q := p + |GenStmt(s, np, nl).code| - 1;
      LookupAt(c.code, q, Lbl(LBreak, s.id));
      GoLabel(c, p, st, 2 + n1, q, s1);
      n, ir' := n1 + 3, At(q + 1, s1);
    }
  }

  /** The statements whose step needs no test: leaves, blocks, labels, loops on entry and jumps. */
  lemma PlainStep(c: Ctx, body: Stmt, s: Stmt, k: Cont, np: nat, nl: nat, p: nat, m: Store, st: Store)
    returns (n: nat, ir': IrState)
    requires ValidCtx(c) && RunAt(c, s, k, np, nl, p) && Agree(m, st, c.bound)
    requires s.Null? || s.ExprStmt? || s.DeclStmt? || s.Block? || s.Case? || s.Default? || s.Label?
    requires StmtOk(s, JumpsOf(k, body), c.bound) && KOk(k, body, c.bound)
    requires !RunStmt(body, s, k, m, false, c.src).Wrong?
    ensures Stepped(c, body, Run(s, k, m), p, st, n, ir')
  {
    hide CodeAt, GenExpr, GenItems, GenDecls, Eval, ExprOk, IrSteps, Lookup, Agree, KMatch, RunDecls, Find;
    GoNone(c, p, st);
    if s.Null? {
      n, ir' := 0, At(p, st);
    } else if s.ExprStmt? {
      var n1, s1 := ExprRun(c, s.e, np, nl, p, m, st);
      n, ir' := n1, At(p + |GenExpr(s.e, np, nl).code|, s1);
    } else if s.DeclStmt? {
      var n1, s1 := DeclsSim(c, s.decls, np, nl, p, m, st);
      n, ir' := n1, At(p + |GenDecls(s.decls, np, nl).code|, s1);
    } else if s.Block? {
      PushSeq(c, s.items, k, p, np, nl);
      n, ir' := 0, At(p, st);
    } else {
      MarkedParts(c, s, np, nl, p);
      GoLabel(c, p, st, 0, p, st);
      n, ir' := 1, At(p + 1, st);
      assert RunAt(c, s.stmt, k, np, nl, p + 1);
    }
  }

  lemma EnterStep(c: Ctx, body: Stmt, s: Stmt, k: Cont, np: nat, nl: nat, p: nat, m: Store, st: Store)
    returns (n: nat, ir': IrState)
    requires ValidCtx(c) && RunAt(c, s, k, np, nl, p) && Agree(m, st, c.bound) && (s.For? || s.DoWhile?)
    requires StmtOk(s, JumpsOf(k, body), c.bound) && KOk(k, body, c.bound)
    ensures Stepped(c, body, Run(s, k, m), p, st, n, ir')
  {
    hide CodeAt, GenExpr, GenStmt, GenOptional, Eval, ExprOk, IrSteps, Lookup, Agree, KMatch, ForLayout;
    GoNone(c, p, st);
    if s.For? {
      ForParts(c, s, np, nl, p);
      ForInit(s, k, np, nl, p);
      PushFrame(c, KInit(s, k), p, np, nl);
      n, ir' := 0, At(p, st);
      assert RunAt(c, s.init, KInit(s, k), np, nl + 1, p);
    } else {
      DoParts(c, s, np, nl, p);
      PushFrame(c, KDo(s, k), p, np, nl);
      GoLabel(c, p, st, 0, p, st);
      n, ir' := 1, At(p + 1, st);
      assert RunAt(c, s.body, KDo(s, k), np, nl + 1, p + 1);
    }
  }

  lemma ForInit(s: Stmt, k: Cont, np: nat, nl: nat, p: nat)
    requires s.For?
    ensures p + ResumeAt(KInit(s, k), np, nl) == p + |GenStmt(s.init, np, nl + 1).code| == ForLayout(s, np, nl, p).start
    ensures ForLayout(s, np, nl, p).gi == GenStmt(s.init, np, nl + 1)
  {
  }

  lemma JumpStep(c: Ctx, body: Stmt, s: Stmt, k: Cont, np: nat, nl: nat, p: nat, m: Store, st: Store, ret: nat, q0: nat)
    returns (n: nat, ir': IrState)
    requires ValidCtx(c) && RunAt(c, s, k, np, nl, p) && Agree(m, st, c.bound) && (s.Break? || s.Continue? || s.Goto?)
    requires StmtOk(s, JumpsOf(k, body), c.bound) && KOk(k, body, c.bound)
    requires Whole(c, body, ret, q0)
    requires !RunStmt(body, s, k, m, false, c.src).Wrong?
    ensures Stepped(c, body, Run(s, k, m), p, st, n, ir')
  {
    hide CodeAt, Eval, ExprOk, IrSteps, Lookup, Agree, KMatch, Find, GenExpr;
    GoNone(c, p, st);
    CodeHead(c.code, p, GenStmt(s, np, nl).code);
    GoJump(c, p, st, 0, p, st);
    if s.Break? {
      BreakPlaced(c, body, k, p + 1, s.target, m, st);
      var q := Lookup(c.code, Lbl(LBreak, s.target));
      GoLabel(c, p, st, 1, q, st);
      n, ir' := 2, At(q + 1, st);
    } else if s.Continue? {
      ContinuePlaced(c, body, k, p + 1, s.target, m, st);
      n, ir' := 1, At(Lookup(c.code, Lbl(LContinue, s.target)), st);
    } else {
      Arrive(c, body, body, KStop, ByName(s.name), c.bound, ret, q0, m, st);
      n, ir' := 1, At(Lookup(c.code, Lbl(LUser, s.target)), st);
    }
  }

  /** The whole function's code, from position 'q' with label counter 'nl'. */
  ghost predicate Whole(c: Ctx, body: Stmt, nl: nat, q: nat) {
    RunAt(c, body, KStop, c.bound, nl, q) && StmtOk(body, Jumps(None, None, body), c.bound)
  }

  lemma ReturnStep(c: Ctx, body: Stmt, s: Stmt, k: Cont, np: nat, nl: nat, p: nat, m: Store, st: Store)
    returns (n: nat, ir': IrState)
    requires ValidCtx(c) && RunAt(c, s, k, np, nl, p) && Agree(m, st, c.bound) && s.Return?
    requires StmtOk(s, JumpsOf(k, body), c.bound) && KOk(k, body, c.bound)
    requires !RunStmt(body, s, k, m, false, c.src).Wrong?
    ensures Stepped(c, body, Run(s, k, m), p, st, n, ir')
  {
    hide CodeAt, GenExpr, Eval, ExprOk, IrSteps, Lookup, Agree, KMatch, BinaryValue;
    GoNone(c, p, st);
    var g := GenOptional(s.result, np, nl);
    CodeSplit(c.code, p, g.code, [IReturn(g.val)]);
    CodeHead(c.code, p + |g.code|, [IReturn(g.val)]);
    var n1, s1 := 0, st;
    if s.result.Some? {
      n1, s1 := ExprRun(c, s.result.value, np, nl, p, m, st);
    }
    GoOne(c, p, st, n1, p + |g.code|, s1);
    n, ir' := n1 + 1, Done(ReadVal(g.val, s1), s1);
  }

  /** The controlling test of a 'for' loop, from just after its start label. */
  lemma TestForSim(c: Ctx, body: Stmt, s: Stmt, k: Cont, np: nat, nl: nat, p: nat, m: Store, st: Store)
    returns (n: nat, ir': IrState)
    requires ValidCtx(c) && RunAt(c, s, k, np, nl, p) && Agree(m, st, c.bound) && s.For?
    requires StmtOk(s, JumpsOf(k, body), c.bound) && KOk(k, body, c.bound)
    requires !TestFor(s, k, m, false, c.src).Wrong?
    ensures IrSteps(c.code, At(ForLayout(s, np, nl, p).start + 1, st), n, c.tgt) == ir'
    ensures Matched(c, body, TestFor(s, k, m, false, c.src), ir')
  {
    hide CodeAt, GenExpr, GenStmt, GenOptional, Eval, ExprOk, IrSteps, Lookup, Agree, KMatch, ForLayout, ExitTest;
    var f := ForLayout(s, np, nl, p);
    ForParts(c, s, np, nl, p);
    ForResume(s, k, np, nl, p);
    PushFrame(c, KFor(s, k), p, np, nl);
    ForTestCode(s, np, nl, p);
    GoNone(c, f.start + 1, st);
    n, ir' := 0, At(f.start + 1, st);
    assert RunAt(c, s.body, KFor(s, k), f.gt.np, f.gt.nl, f.body);
    if s.test.Some? {
      var n1, s1 := ExprRun(c, s.test.value, f.gi.np, f.gi.nl, f.start + 1, m, st);
      CodeHead(c.code, f.exit, ExitTest(s.test, f.gt.val, s.id));
      GoBranch(c, f.start + 1, st, n1, f.exit, s1);
      n, ir' := n1 + 1, At(f.body, s1);
      var r := Eval(s.test.value, m, false, c.src);
      if Read(r.o, r.st) == 0 {
        LookupAt(c.code, f.back + 1, Lbl(LBreak, s.id));
        GoLabel(c, f.start + 1, st, n1 + 1, f.back + 1, s1);
        n, ir' := n1 + 2, At(f.back + 2, s1);
      }
    }
  }

  lemma ForTestCode(s: Stmt, np: nat, nl: nat, p: nat)
    requires s.For?
    ensures var f := ForLayout(s, np, nl, p);
            && f.gt == GenOptional(s.test, f.gi.np, f.gi.nl) && f.gp == GenOptional(s.post, f.gb.np, f.gb.nl)
            && f.exit == f.start + 1 + |f.gt.code| && f.back == f.cnt + 1 + |f.gp.code|
            && (s.test.Some? ==> f.gt == GenExpr(s.test.value, f.gi.np, f.gi.nl) && f.body == f.exit + 1
                                 && ExitTest(s.test, f.gt.val, s.id) == [IJumpIfZero(f.gt.val, Lbl(LBreak, s.id))])
            && (s.test.None? ==> f.gt.code == [] && f.body == f.start + 1)
            && (s.post.Some? ==> f.gp == GenExpr(s.post.value, f.gb.np, f.gb.nl))
            && (s.post.None? ==> f.gp.code == [])
  {
    hide GenExpr, GenStmt;
  }

  lemma ForInitStep(c: Ctx, body: Stmt, k: Cont, np: nat, nl: nat, q: nat, m: Store, st: Store)
    returns (n: nat, ir': IrState)
    requires ValidCtx(c) && k.KInit? && FrameMatch(c, k, q + (if IsFrame(k) then ResumeAt(k, np, nl) else 0), q, np, nl)
    requires Agree(m, st, c.bound) && KOk(k, body, c.bound) && !ResumeStep(k, m, false, c.src).Wrong?
    ensures Stepped(c, body, Resume(k, m), q + ResumeAt(k, np, nl), st, n, ir')
  {
    hide CodeAt, GenExpr, GenStmt, GenOptional, Eval, ExprOk, IrSteps, Lookup, Agree, KMatch, ForLayout, ExitTest, TestFor;
    var p := q + ResumeAt(k, np, nl);
    var f := ForLayout(k.s, np, nl, q);
    ForParts(c, k.s, np, nl, q);
    ForShift(k.s, np, nl, q);
    ForTestCode(k.s, np, nl, q);
    GoNone(c, p, st);
    GoLabel(c, p, st, 0, p, st);
    var n2;
    n2, ir' := TestForSim(c, body, k.s, k.k, np, nl, q, m, st);
    Chain(c.code, At(p, st), 1, At(p + 1, st), n2, ir', c.tgt);
    n := 1 + n2;
  }

  lemma ForResumeStep(c: Ctx, body: Stmt, k: Cont, np: nat, nl: nat, q: nat, m: Store, st: Store)
    returns (n: nat, ir': IrState)
    requires ValidCtx(c) && k.KFor? && FrameMatch(c, k, q + (if IsFrame(k) then ResumeAt(k, np, nl) else 0), q, np, nl)
    requires Agree(m, st, c.bound) && KOk(k, body, c.bound) && !ResumeStep(k, m, false, c.src).Wrong?
    ensures Stepped(c, body, Resume(k, m), q + ResumeAt(k, np, nl), st, n, ir')
  {
    hide CodeAt, GenExpr, GenStmt, GenOptional, Eval, ExprOk, IrSteps, Lookup, Agree, KMatch, ForLayout, ExitTest, TestFor;
    var p := q + ResumeAt(k, np, nl);
    var f := ForLayout(k.s, np, nl, q);
    ForParts(c, k.s, np, nl, q);
    ForShift(k.s, np, nl, q);
    ForTestCode(k.s, np, nl, q);
    GoNone(c, p, st);
    GoLabel(c, p, st, 0, p, st);
    var n1, s1, m1 := 0, st, m;
    GoNone(c, p + 1, st);
    if k.s.post.Some? {
      n1, s1 := ExprRun(c, k.s.post.value, f.gb.np, f.gb.nl, p + 1, m, st);
      m1 := Eval(k.s.post.value, m, false, c.src).st;
    }
    GoOn(c, p, st, 1, p + 1, st, n1, f.back, s1);
    LookupAt(c.code, f.start, Temp(nl));
    GoJump(c, p, st, 1 + n1, f.back, s1);
    GoLabel(c, p, st, 2 + n1, f.start, s1);
    var n2;
    n2, ir' := TestForSim(c, body, k.s, k.k, np, nl, q, m1, s1);
    Chain(c.code, At(p, st), 3 + n1, At(f.start + 1, s1), n2, ir', c.tgt);
    n := 3 + n1 + n2;
  }

  lemma DoResumeStep(c: Ctx, body: Stmt, k: Cont, np: nat, nl: nat, q: nat, m: Store, st: Store)
    returns (n: nat, ir': IrState)
    requires ValidCtx(c) && k.KDo? && FrameMatch(c, k, q + (if IsFrame(k) then ResumeAt(k, np, nl) else 0), q, np, nl)
    requires Agree(m, st, c.bound) && KOk(k, body, c.bound) && !ResumeStep(k, m, false, c.src).Wrong?
    ensures Stepped(c, body, Resume(k, m), q + ResumeAt(k, np, nl), st, n, ir')
  {
    hide CodeAt, GenExpr, GenStmt, Eval, ExprOk, IrSteps, Lookup, Agree, KMatch;
    var s := k.s;
    var p := q + ResumeAt(k, np, nl);
    var gb := GenStmt(s.body, np, nl + 1);
    var gc := GenExpr(s.cond, gb.np, gb.nl);
    DoParts(c, s, np, nl, q);
    GoNone(c, p, st);
    GoLabel(c, p, st, 0, p, st);
    var n1, s1 := ExprRun(c, s.cond, gb.np, gb.nl, p + 1, m, st);
    var r := Eval(s.cond, m, false, c.src);
    var p2 := p + 1 + |gc.code|;
    GoOn(c, p, st, 1, p + 1, st, n1, p2, s1);
    GoBranch(c, p, st, 1 + n1, p2, s1);
    if Read(r.o, r.st) != 0 {
      LookupAt(c.code, q, Temp(nl));
      n, ir' := n1 + 2, At(q, s1);
      assert RunAt(c, s, k.k, np, nl, q);
    } else {
      GoLabel(c, p, st, 2 + n1, p2 + 1, s1);
      n, ir' := n1 + 3, At(p2 + 2, s1);
    }
  }

  lemma FrameResumeStep(c: Ctx, body: Stmt, k: Cont, np: nat, nl: nat, q: nat, m: Store, st: Store)
    returns (n: nat, ir': IrState)
    requires ValidCtx(c) && (k.KThen? || k.KElse? || k.KSwitch? || k.KWhile?)
    requires FrameMatch(c, k, q + (if IsFrame(k) then ResumeAt(k, np, nl) else 0), q, np, nl)
    requires Agree(m, st, c.bound) && KOk(k, body, c.bound) && !ResumeStep(k, m, false, c.src).Wrong?
    ensures Stepped(c, body, Resume(k, m), q + ResumeAt(k, np, nl), st, n, ir')
  {
    hide CodeAt, GenExpr, GenStmt, Eval, ExprOk, CondOk, IrSteps, Lookup, Agree, KMatch, GenTests;
    if k.KWhile? { n, ir' := WhileResumeStep(c, body, k, np, nl, q, m, st); }
    else if k.KThen? && k.s.els.Some? { n, ir' := ThenResumeStep(c, body, k, np, nl, q, m, st); }
    else { n, ir' := EndResumeStep(c, body, k, np, nl, q, m, st); }
  }

  lemma WhileResumeStep(c: Ctx, body: Stmt, k: Cont, np: nat, nl: nat, q: nat, m: Store, st: Store)
    returns (n: nat, ir': IrState)
    requires ValidCtx(c) && k.KWhile?
    requires FrameMatch(c, k, q + (if IsFrame(k) then ResumeAt(k, np, nl) else 0), q, np, nl)
    requires Agree(m, st, c.bound) && KOk(k, body, c.bound) && !ResumeStep(k, m, false, c.src).Wrong?
    ensures Stepped(c, body, Resume(k, m), q + ResumeAt(k, np, nl), st, n, ir')
  {
    hide CodeAt, GenExpr, GenStmt, Eval, ExprOk, CondOk, IrSteps, Lookup, Agree, KMatch, GenTests;
    var p := q + ResumeAt(k, np, nl);
    GoNone(c, p, st);
    WhileParts(c, k.s, np, nl, q);
    LookupAt(c.code, q, Lbl(LContinue, k.s.id));
    GoJump(c, p, st, 0, p, st);
    n, ir' := 1, At(q, st);
    assert RunAt(c, k.s, k.k, np, nl, q);
  }

  lemma ThenResumeStep(c: Ctx, body: Stmt, k: Cont, np: nat, nl: nat, q: nat, m: Store, st: Store)
    returns (n: nat, ir': IrState)
    requires ValidCtx(c) && k.KThen? && k.s.If? && k.s.els.Some?
    requires FrameMatch(c, k, q + (if IsFrame(k) then ResumeAt(k, np, nl) else 0), q, np, nl)
    requires Agree(m, st, c.bound) && KOk(k, body, c.bound) && !ResumeStep(k, m, false, c.src).Wrong?
    ensures Stepped(c, body, Resume(k, m), q + ResumeAt(k, np, nl), st, n, ir')
  {
    hide CodeAt, GenExpr, GenStmt, Eval, ExprOk, CondOk, IrSteps, Lookup, Agree, KMatch, GenTests;
    var p := q + ResumeAt(k, np, nl);
    var end := q + |GenStmt(k.s, np, nl).code|;
    GoNone(c, p, st);
    IfElseParts(c, k.s, np, nl, q);
    LookupAt(c.code, end - 1, Temp(GenExpr(k.s.cond, np, nl).nl));
    GoJump(c, p, st, 0, p, st);
    GoLabel(c, p, st, 1, end - 1, st);
    n, ir' := 2, At(end, st);
  }

  lemma EndResumeStep(c: Ctx, body: Stmt, k: Cont, np: nat, nl: nat, q: nat, m: Store, st: Store)
    returns (n: nat, ir': IrState)
    requires ValidCtx(c) && (k.KThen? || k.KElse? || k.KSwitch?) && (k.KThen? && k.s.If? ==> k.s.els.None?)
    requires FrameMatch(c, k, q + (if IsFrame(k) then ResumeAt(k, np, nl) else 0), q, np, nl)
    requires Agree(m, st, c.bound) && KOk(k, body, c.bound) && !ResumeStep(k, m, false, c.src).Wrong?
    ensures Stepped(c, body, Resume(k, m), q + ResumeAt(k, np, nl), st, n, ir')
  {
    hide CodeAt, GenExpr, GenStmt, Eval, ExprOk, CondOk, IrSteps, Lookup, Agree, KMatch, GenTests;
    var s := k.s;
    var p := q + ResumeAt(k, np, nl);
    var end := q + |GenStmt(s, np, nl).code|;
    GoNone(c, p, st);
    if k.KSwitch? { SwitchParts(c, s, np, nl, q); }
    else if s.els.None? { IfPlainParts(c, s, np, nl, q); }
    else { IfElseParts(c, s, np, nl, q); }
    GoLabel(c, p, st, 0, p, st);
    n, ir' := 1, At(end, st);
  }

  lemma SeqResumeStep(c: Ctx, body: Stmt, k: Cont, p: nat, m: Store, st: Store)
    requires ValidCtx(c) && k.KSeq? && KMatch(c, k, p) && Agree(m, st, c.bound) && KOk(k, body, c.bound)
    requires !ResumeStep(k, m, false, c.src).Wrong?
    ensures Stepped(c, body, Resume(k, m), p, st, 0, At(p, st))
  {
    hide CodeAt, GenExpr, GenStmt, GenItems, Eval, ExprOk, Lookup, Agree, GenTests, ForLayout, BinaryValue, StmtOk;
    var np: nat, nl: nat :| SeqMatch(c, k, p, np, nl);
    if k.rest == [] {
      EmptyItems(np, nl);
    } else {
      ItemsParts(c, k.rest, np, nl, p);
      var g := GenStmt(k.rest[0], np, nl);
      PushSeq(c, k.rest[1..], k.k, p + |g.code|, g.np, g.nl);
      ItemsOkParts(k.rest, JumpsOf(k.k, body), c.bound);
      assert RunAt(c, k.rest[0], KSeq(k.rest[1..], k.k), np, nl, p);
    }
  }

  lemma ResumeSim(c: Ctx, body: Stmt, k: Cont, p: nat, m: Store, st: Store)
    returns (n: nat, ir': IrState)
    requires ValidCtx(c) && KMatch(c, k, p) && Agree(m, st, c.bound) && KOk(k, body, c.bound)
    requires !ResumeStep(k, m, false, c.src).Wrong?
    ensures Stepped(c, body, Resume(k, m), p, st, n, ir')
  {
    hide CodeAt, GenExpr, GenStmt, GenItems, Eval, ExprOk, IrSteps, Lookup, Agree, GenTests, ForLayout, BinaryValue, StmtOk;
    GoNone(c, p, st);
    if k.KStop? {
      GoOne(c, p, st, 0, p, st);
      n, ir' := 1, Done(0, st);
    } else if k.KSeq? {
      SeqResumeStep(c, body, k, p, m, st);
      n, ir' := 0, At(p, st);
    } else {
      var q: nat, np: nat, nl: nat :| FrameMatch(c, k, p, q, np, nl);
      if k.KInit? { n, ir' := ForInitStep(c, body, k, np, nl, q, m, st); }
      else if k.KFor? { n, ir' := ForResumeStep(c, body, k, np, nl, q, m, st); }
      else if k.KDo? { n, ir' := DoResumeStep(c, body, k, np, nl, q, m, st); }
      else { n, ir' := FrameResumeStep(c, body, k, np, nl, q, m, st); }
    }
  }

  lemma EmptyItems(np: nat, nl: nat)
    ensures GenItems([], np, nl).code == []
  {
  }

  lemma ItemsOkParts(items: seq<Stmt>, j: Jumps, bound: nat)
    requires ItemsOk(items, j, bound) && items != []
    ensures StmtOk(items[0], j, bound) && ItemsOk(items[1..], j, bound)
  {
  }

  lemma RunSim(c: Ctx, body: Stmt, s: Stmt, k: Cont, np: nat, nl: nat, p: nat, m: Store, st: Store, nl0: nat, q0: nat)
    returns (n: nat, ir': IrState)
    requires ValidCtx(c) && RunAt(c, s, k, np, nl, p) && Agree(m, st, c.bound) && Whole(c, body, nl0, q0)
    requires StmtOk(s, JumpsOf(k, body), c.bound) && KOk(k, body, c.bound)
    requires !RunStmt(body, s, k, m, false, c.src).Wrong?
    ensures Stepped(c, body, Run(s, k, m), p, st, n, ir')
  {
    hide RunAt, StmtOk, KOk, RunStmt, Matched, Whole, ValidCtx, Agree, Stepped;
    match s
    case If(_, _, _) => n, ir' := IfStep(c, body, s, k, np, nl, p, m, st);
    case While(_, _, _) => n, ir' := WhileStep(c, body, s, k, np, nl, p, m, st);
    case For(_, _, _, _, _) => n, ir' := EnterStep(c, body, s, k, np, nl, p, m, st);
    case DoWhile(_, _, _) => n, ir' := EnterStep(c, body, s, k, np, nl, p, m, st);
    case Switch(_, _, _, _, _) => n, ir' := SwitchStep(c, body, s, k, np, nl, p, m, st);
    case Return(_) => n, ir' := ReturnStep(c, body, s, k, np, nl, p, m, st);
    case Break(_) => n, ir' := JumpStep(c, body, s, k, np, nl, p, m, st, nl0, q0);
    case Continue(_) => n, ir' := JumpStep(c, body, s, k, np, nl, p, m, st, nl0, q0);
    case Goto(_, _) => n, ir' := JumpStep(c, body, s, k, np, nl, p, m, st, nl0, q0);
    case _ => n, ir' := PlainStep(c, body, s, k, np, nl, p, m, st);
  }

  /** Every source step that does not go wrong is matched by the machine. */
  lemma StepSim(c: Ctx, body: Stmt, st: State, ir: IrState, nl0: nat, q0: nat) returns (n: nat, ir': IrState)
    requires ValidCtx(c) && Whole(c, body, nl0, q0) && Matched(c, body, st, ir) && !st.Finished?
    requires !Step(body, st, false, c.src).Wrong?
    ensures IrSteps(c.code, ir, n, c.tgt) == ir' && Matched(c, body, Step(body, st, false, c.src), ir')
    ensures n == 0 ==> Measure(Step(body, st, false, c.src)) < Measure(st)
  {
    hide RunAt, StmtOk, KOk, RunStmt, ResumeStep, Whole, ValidCtx, Agree, KMatch, IrSteps, Measure;
    if st.Run? {
      var np: nat, nl: nat :| RunAt(c, st.s, st.k, np, nl, ir.pc);
      n, ir' := RunSim(c, body, st.s, st.k, np, nl, ir.pc, st.m, ir.s, nl0, q0);
    } else {
      n, ir' := ResumeSim(c, body, st.k, ir.pc, st.m, ir.s);
    }
  }

  lemma {:induction false} FinishedStays(body: Stmt, v: int, m: Store, n: nat, early: bool, callees: Callees)
    ensures Steps(body, Finished(v, m), n, early, callees) == Finished(v, m)
  {
    if n > 0 { FinishedStays(body, v, m, n - 1, early, callees); }
  }

  lemma {:induction false} WrongStays(body: Stmt, n: nat, early: bool, callees: Callees)
    ensures Steps(body, Wrong, n, early, callees) == Wrong
  {
    if n > 0 { WrongStays(body, n - 1, early, callees); }
  }

  /** Runs of any length: the machine stays matched with the source. */
  lemma {:induction false} StepsSim(c: Ctx, body: Stmt, st: State, ir: IrState, nl0: nat, q0: nat, k: nat) returns (n: nat, ir': IrState)
    requires ValidCtx(c) && Whole(c, body, nl0, q0) && Matched(c, body, st, ir)
    requires !Steps(body, st, k, false, c.src).Wrong?
    ensures IrSteps(c.code, ir, n, c.tgt) == ir' && Matched(c, body, Steps(body, st, k, false, c.src), ir')
    decreases k
  {
    hide Step, ValidCtx, Whole, Matched;
    if k == 0 || st.Finished? {
      n, ir' := 0, ir;
      if st.Finished? { FinishedStays(body, st.v, st.m, k, false, c.src); }
    } else {
      var st1 := Step(body, st, false, c.src);
      if st1.Wrong? { WrongStays(body, k - 1, false, c.src); }
      var n1, ir1 := StepSim(c, body, st, ir, nl0, q0);
      var n2;
      n2, ir' := StepsSim(c, body, st1, ir1, nl0, q0, k - 1);
      Chain(c.code, ir, n1, ir1, n2, ir', c.tgt);
      n := n1 + n2;
    }
  }

  /** While the source goes on, the machine can be driven through any number of steps. */
  lemma {:induction false} Progress(c: Ctx, body: Stmt, st: State, ir: IrState, nl0: nat, q0: nat, want: nat)
    returns (n: nat)
    requires ValidCtx(c) && Whole(c, body, nl0, q0) && Matched(c, body, st, ir)
    requires forall i: nat :: Going(Steps(body, st, i, false, c.src))
    ensures n >= want && IrSteps(c.code, ir, n, c.tgt).At?
    decreases want, Measure(st)
  {
    hide Step, ValidCtx, Whole, Measure, IrSteps;
    assert Going(Steps(body, st, 0, false, c.src));
    if want == 0 {
      n := 0;
      assert IrSteps(c.code, ir, 0, c.tgt) == ir by { NoSteps(c, ir); }
    } else {
      var st1 := Step(body, st, false, c.src);
      assert Steps(body, st, 1, false, c.src) == Steps(body, st1, 0, false, c.src) == st1;
      assert Going(st1);
      forall i: nat ensures Going(Steps(body, st1, i, false, c.src)) {
        assert Steps(body, st, i + 1, false, c.src) == Steps(body, st1, i, false, c.src);
      }
      var n1, ir1 := StepSim(c, body, st, ir, nl0, q0);
      var n2 := Progress(c, body, st1, ir1, nl0, q0, if n1 > want then 0 else want - n1);
      Chain(c.code, ir, n1, ir1, n2, IrSteps(c.code, ir1, n2, c.tgt), c.tgt);
      n := n1 + n2;
    }
  }

  lemma NoSteps(c: Ctx, ir: IrState)
    ensures IrSteps(c.code, ir, 0, c.tgt) == ir
  {
  }

  /** The run is still under way. */
  predicate Going(st: State) {
    st.Run? || st.Resume?
  }
}
