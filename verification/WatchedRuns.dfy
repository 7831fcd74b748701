/** Runs that reach a watched call, or do not end: statements and source programs. */
module WatchedRuns {
  import opened Ast
  import opened Semantics
  import opened Sequencing
  import opened Ir
  import opened IrGen
  import opened ExprProof
  import opened StmtParts
  import opened StmtProof
  import opened StmtSim
  import opened Program
  import opened Watching

  predicate DeclsMeet(ds: seq<Decl>, m: Store, early: bool, callees: Callees, h: Watch) {
    ds != [] &&
    if !ds[0].isObject || !ds[0].isAuto || ds[0].init.None? then DeclsMeet(ds[1..], m, early, callees, h)
    else
      || ExprMeets(ds[0].init.value, m, early, callees, h)
      || (var r := Eval(ds[0].init.value, m, early, callees);
          r.Ok? && DeclsMeet(ds[1..], WriteSym(r.st, ds[0].sym, Read(r.o, r.st)), early, callees, h))
  }

  predicate TestMeets(s: Stmt, m: Store, early: bool, callees: Callees, h: Watch) {
    s.For? && s.test.Some? && ExprMeets(s.test.value, m, early, callees, h)
  }

  /** The next step evaluates an expression that reaches a watched call. */
  predicate StateMeets(st: State, early: bool, callees: Callees, h: Watch) {
    match st
    case Run(s, _, m) =>
      (match s
       case ExprStmt(e) => ExprMeets(e, m, early, callees, h)
       case DeclStmt(ds) => DeclsMeet(ds, m, early, callees, h)
       case Return(e) => e.Some? && ExprMeets(e.value, m, early, callees, h)
       case If(c, _, _) => ExprMeets(c, m, early, callees, h)
       case While(_, c, _) => ExprMeets(c, m, early, callees, h)
       case Switch(_, c, _, _, _) => ExprMeets(c, m, early, callees, h)
       case _ => false)
    case Resume(k, m) =>
      (match k
       case KInit(s, _) => TestMeets(s, m, early, callees, h)
       case KFor(s, _) =>
         s.For? &&
         if s.post.None? then TestMeets(s, m, early, callees, h)
         else
           || ExprMeets(s.post.value, m, early, callees, h)
           || (var r := Eval(s.post.value, m, early, callees); r.Ok? && TestMeets(s, r.st, early, callees, h))
       case KDo(s, _) => s.DoWhile? && ExprMeets(s.cond, m, early, callees, h)
       case _ => false)
    case _ => false
  }

  /** Without conflicts both semantics reach the same calls. */
  lemma {:induction false} MeetAlike(e: Expr, m: Store, callees: Callees, h: Watch)
    requires NoConflict(e)
    ensures ExprMeets(e, m, true, callees, h) <==> ExprMeets(e, m, false, callees, h)
    decreases e, 1
  {
    hide Eval, EvalArgs;
    match e
    case Unary(_, a, _) => MeetAlike(a, m, callees, h);
    case Binary(_, a, b, _) =>
      MeetAlike(a, m, callees, h);
      LateIsEarly(a, m, callees);
      var r := Eval(a, m, true, callees);
      if r.Ok? { MeetAlike(b, r.st, callees, h); }
    case Assign(_, a) => MeetAlike(a, m, callees, h);
    case Compound(_, _, _, a) => MeetAlike(a, m, callees, h);
    case Conditional(c, a, b, _) =>
      MeetAlike(c, m, callees, h);
      LateIsEarly(c, m, callees);
      var r := Eval(c, m, true, callees);
      if r.Ok? {
        MeetAlike(a, r.st, callees, h);
        MeetAlike(b, r.st, callees, h);
      }
    case Call(_, _, args, _) =>
      ArgsMeetAlike(args, m, callees, h);
      LateArgs(args, m, callees);
    case Cast(_, a) => MeetAlike(a, m, callees, h);
    case _ =>
  }

  lemma {:induction false} ArgsMeetAlike(args: seq<Expr>, m: Store, callees: Callees, h: Watch)
    requires ArgsNoConflict(args)
    ensures ArgsMeet(args, m, true, callees, h) <==> ArgsMeet(args, m, false, callees, h)
    decreases args, 0
  {
    hide Eval;
    if args != [] {
      MeetAlike(args[0], m, callees, h);
      LateIsEarly(args[0], m, callees);
      var r := Eval(args[0], m, true, callees);
      if r.Ok? { ArgsMeetAlike(args[1..], r.st, callees, h); }
    }
  }

  lemma {:induction false} DeclsMeetAlike(ds: seq<Decl>, m: Store, callees: Callees, h: Watch)
    requires DeclsSequenced(ds)
    ensures DeclsMeet(ds, m, true, callees, h) <==> DeclsMeet(ds, m, false, callees, h)
  {
    hide Eval, NoConflict, ExprMeets;
    if ds != [] {
      if !ds[0].isObject || !ds[0].isAuto || ds[0].init.None? {
        DeclsMeetAlike(ds[1..], m, callees, h);
      } else {
        MeetAlike(ds[0].init.value, m, callees, h);
        LateIsEarly(ds[0].init.value, m, callees);
        var r := Eval(ds[0].init.value, m, true, callees);
        if r.Ok? { DeclsMeetAlike(ds[1..], WriteSym(r.st, ds[0].sym, Read(r.o, r.st)), callees, h); }
      }
    }
  }

  lemma TestMeetsAlike(s: Stmt, m: Store, callees: Callees, h: Watch)
    requires s.For? ==> Sequenced(s)
    ensures TestMeets(s, m, true, callees, h) <==> TestMeets(s, m, false, callees, h)
  {
    hide NoConflict, ExprMeets;
    if s.For? && s.test.Some? { MeetAlike(s.test.value, m, callees, h); }
  }

  lemma StateMeetsAlike(st: State, callees: Callees, h: Watch)
    requires StateSequenced(st)
    ensures StateMeets(st, true, callees, h) <==> StateMeets(st, false, callees, h)
  {
    hide NoConflict, ExprMeets, TestMeets, DeclsMeet, DeclsSequenced, Eval;
    if st.Run? {
      match st.s
      case ExprStmt(e) => MeetAlike(e, st.m, callees, h);
      case DeclStmt(ds) => DeclsMeetAlike(ds, st.m, callees, h);
      case Return(e) => if e.Some? { MeetAlike(e.value, st.m, callees, h); }
      case If(c, _, _) => MeetAlike(c, st.m, callees, h);
      case While(_, c, _) => MeetAlike(c, st.m, callees, h);
      case Switch(_, c, _, _, _) => MeetAlike(c, st.m, callees, h);
      case _ =>
    } else if st.Resume? {
      match st.k
      case KInit(s, _) => TestMeetsAlike(s, st.m, callees, h);
      case KFor(s, _) =>
        if s.For? {
          TestMeetsAlike(s, st.m, callees, h);
          if s.post.Some? {
            MeetAlike(s.post.value, st.m, callees, h);
            LateIsEarly(s.post.value, st.m, callees);
            var r := Eval(s.post.value, st.m, true, callees);
            if r.Ok? { TestMeetsAlike(s, r.st, callees, h); }
          }
        }
      case KDo(s, _) => if s.DoWhile? { MeetAlike(s.cond, st.m, callees, h); }
      case _ =>
    }
  }

  /** An expression's code at statement level. */
  lemma ExprAtReaches(c: Ctx, e: Expr, np: nat, nl: nat, p: nat, m: Store, s: Store, h: Watch) returns (n: nat)
    requires ValidCtx(c) && ExprOk(e, c.bound) && ExprAt(c, e, np, nl, p) && Agree(m, s, c.bound) && ExprMeets(e, m, false, c.src, h)
    ensures Reaches(c, p, s, n, h)
  {
    hide ValidCtx, CodeAt, Agree, Reaches, WellTyped, VarsBelow, GenExpr, ExprMeets;
    n := ExprReaches(c, e, np, nl, p, m, s, h);
  }

  lemma {:induction false} DeclsReach(c: Ctx, ds: seq<Decl>, np: nat, nl: nat, p: nat, m: Store, s: Store, h: Watch) returns (n: nat)
    requires ValidCtx(c) && DeclsOk(ds, c.bound) && c.bound <= np && CodeAt(c.code, p, GenDecls(ds, np, nl).code)
    requires Agree(m, s, c.bound) && DeclsMeet(ds, m, false, c.src, h)
    ensures Reaches(c, p, s, n, h)
  {
    hide Eval, GenExpr, WellTyped, VarsBelow, ValidCtx, CodeAt, IrSteps, Agree, Reaches, ExprMeets;
    if !ds[0].isObject || !ds[0].isAuto || ds[0].init.None? {
      n := DeclsReach(c, ds[1..], np, nl, p, m, s, h);
    } else {
      var e, x := ds[0].init.value, ds[0].sym;
      var g := GenExpr(e, np, nl);
      var q := GenDecls(ds[1..], g.np, g.nl);
      CodeSplit(c.code, p, g.code, [ICopy(g.val, Object(x))] + q.code);
      CodeSplit(c.code, p + |g.code|, [ICopy(g.val, Object(x))], q.code);
      GenMono(e, np, nl);
      if ExprMeets(e, m, false, c.src, h) {
        n := ExprAtReaches(c, e, np, nl, p, m, s, h);
      } else {
        var n1, s1 := ExprRun(c, e, np, nl, p, m, s);
        var r := Eval(e, m, false, c.src);
        var v := Read(r.o, r.st);
        GoStore(c, p, s, n1, p + |g.code|, s1, Object(x), v);
        var s2 := WriteVal(Object(x), v, s1);
        WriteObject(r.st, s1, x, v, c.bound, np);
        var k := DeclsReach(c, ds[1..], g.np, g.nl, p + |g.code| + 1, WriteSym(r.st, x, v), s2, h);
        ReachesLater(c, p, s, n1 + 1, p + |g.code| + 1, s2, k, h);
        n := n1 + 1 + k;
      }
    }
  }

  lemma RunReaches(c: Ctx, s: Stmt, k: Cont, j: Jumps, np: nat, nl: nat, p: nat, m: Store, st: Store, h: Watch) returns (n: nat)
    requires ValidCtx(c) && RunAt(c, s, k, np, nl, p) && StmtOk(s, j, c.bound) && Agree(m, st, c.bound)
    requires StateMeets(Run(s, k, m), false, c.src, h)
    ensures Reaches(c, p, st, n, h)
  {
    hide ValidCtx, CodeAt, Agree, Reaches, ExprOk, GenExpr, GenTests, ExprMeets, KMatch, IrSteps, DeclsMeet, GenDecls, Find, DeclsOk;
    match s
    case ExprStmt(e) => n := ExprAtReaches(c, e, np, nl, p, m, st, h);
    case DeclStmt(ds) => n := DeclsReach(c, ds, np, nl, p, m, st, h);
    case Return(e) =>
      var g := GenOptional(e, np, nl);
      CodeSplit(c.code, p, g.code, [IReturn(g.val)]);
      n := ExprAtReaches(c, e.value, np, nl, p, m, st, h);
    case If(_, _, _) => n := IfReaches(c, s, j, np, nl, p, m, st, h);
    case While(_, _, _) => n := WhileReaches(c, s, j, np, nl, p, m, st, h);
    case Switch(_, e, _, _, _) =>
      SwitchParts(c, s, np, nl, p);
      n := ExprAtReaches(c, e, np, nl, p, m, st, h);
  }

  lemma IfReaches(c: Ctx, s: Stmt, j: Jumps, np: nat, nl: nat, p: nat, m: Store, st: Store, h: Watch) returns (n: nat)
    requires ValidCtx(c) && StmtAt(c, s, np, nl, p) && s.If? && StmtOk(s, j, c.bound) && Agree(m, st, c.bound)
    requires ExprMeets(s.cond, m, false, c.src, h)
    ensures Reaches(c, p, st, n, h)
  {
    hide ValidCtx, CodeAt, Agree, Reaches, ExprOk, GenExpr, GenStmt, ExprMeets, IrSteps, Find;
    if s.els.None? { IfPlainParts(c, s, np, nl, p); } else { IfElseParts(c, s, np, nl, p); }
    n := ExprAtReaches(c, s.cond, np, nl, p, m, st, h);
  }

  lemma WhileReaches(c: Ctx, s: Stmt, j: Jumps, np: nat, nl: nat, p: nat, m: Store, st: Store, h: Watch) returns (n: nat)
    requires ValidCtx(c) && StmtAt(c, s, np, nl, p) && s.While? && StmtOk(s, j, c.bound) && Agree(m, st, c.bound)
    requires ExprMeets(s.cond, m, false, c.src, h)
    ensures Reaches(c, p, st, n, h)
  {
    hide ValidCtx, CodeAt, Agree, Reaches, ExprOk, GenExpr, GenStmt, ExprMeets, IrSteps, Find;
    WhileParts(c, s, np, nl, p);
    GoNone(c, p, st);
    GoLabel(c, p, st, 0, p, st);
    var k := ExprAtReaches(c, s.cond, np, nl, p + 1, m, st, h);
    ReachesLater(c, p, st, 1, p + 1, st, k, h);
    n := 1 + k;
  }

  /** The test of a 'for', from just after its start label. */
  lemma TestReaches(c: Ctx, s: Stmt, j: Jumps, np: nat, nl: nat, q: nat, m: Store, st: Store, h: Watch) returns (n: nat)
    requires ValidCtx(c) && StmtAt(c, s, np, nl, q) && s.For? && StmtOk(s, j, c.bound) && Agree(m, st, c.bound)
    requires TestMeets(s, m, false, c.src, h)
    ensures Reaches(c, ForLayout(s, np, nl, q).start + 1, st, n, h)
  {
    hide ValidCtx, CodeAt, Agree, Reaches, ExprOk, GenExpr, GenStmt, GenOptional, ExprMeets, IrSteps, Find, ForLayout, ExitTest;
    var f := ForLayout(s, np, nl, q);
    ForParts(c, s, np, nl, q);
    ForTestCode(s, np, nl, q);
    n := ExprAtReaches(c, s.test.value, f.gi.np, f.gi.nl, f.start + 1, m, st, h);
  }

  lemma ForInitReaches(c: Ctx, k: Cont, j: Jumps, np: nat, nl: nat, q: nat, m: Store, st: Store, h: Watch) returns (n: nat)
    requires ValidCtx(c) && k.KInit? && StmtAt(c, k.s, np, nl, q) && k.s.For? && StmtOk(k.s, j, c.bound) && Agree(m, st, c.bound)
    requires StateMeets(Resume(k, m), false, c.src, h)
    ensures Reaches(c, q + ResumeAt(k, np, nl), st, n, h)
  {
    hide ValidCtx, CodeAt, Agree, Reaches, ExprOk, GenExpr, GenStmt, GenOptional, ExprMeets, TestMeets, IrSteps, Find, ForLayout, ExitTest;
    var p := q + ResumeAt(k, np, nl);
    ForParts(c, k.s, np, nl, q);
    ForShift(k.s, np, nl, q);
    GoNone(c, p, st);
    GoLabel(c, p, st, 0, p, st);
    var i := TestReaches(c, k.s, j, np, nl, q, m, st, h);
    ReachesLater(c, p, st, 1, p + 1, st, i, h);
    n := 1 + i;
  }

  lemma ForReaches(c: Ctx, k: Cont, j: Jumps, np: nat, nl: nat, q: nat, m: Store, st: Store, h: Watch) returns (n: nat)
    requires ValidCtx(c) && k.KFor? && StmtAt(c, k.s, np, nl, q) && k.s.For? && StmtOk(k.s, j, c.bound) && Agree(m, st, c.bound)
    requires StateMeets(Resume(k, m), false, c.src, h)
    ensures Reaches(c, q + ResumeAt(k, np, nl), st, n, h)
  {
    hide ValidCtx, CodeAt, Agree, Reaches, ExprOk, GenExpr, GenStmt, GenOptional, ExprMeets, TestMeets, IrSteps, Find, ForLayout, ExitTest,
      Lookup, Eval;
    var p := q + ResumeAt(k, np, nl);
    var f := ForLayout(k.s, np, nl, q);
    ForParts(c, k.s, np, nl, q);
    ForShift(k.s, np, nl, q);
    ForTestCode(k.s, np, nl, q);
    GoNone(c, p, st);
    GoLabel(c, p, st, 0, p, st);
    if k.s.post.Some? && ExprMeets(k.s.post.value, m, false, c.src, h) {
      var i := ExprAtReaches(c, k.s.post.value, f.gb.np, f.gb.nl, p + 1, m, st, h);
      ReachesLater(c, p, st, 1, p + 1, st, i, h);
      n := 1 + i;
    } else {
      var n1, s1, m1 := 0, st, m;
      GoNone(c, p + 1, st);
      if k.s.post.Some? {
        n1, s1 := ExprRun(c, k.s.post.value, f.gb.np, f.gb.nl, p + 1, m, st);
        m1 := Eval(k.s.post.value, m, false, c.src).st;
      }
      GoOn(c, p, st, 1, p + 1, st, n1, f.back, s1);
      StartLabel(c, f.start, nl);
      GoJump(c, p, st, 1 + n1, f.back, s1);
      GoLabel(c, p, st, 2 + n1, f.start, s1);
      var i := TestReaches(c, k.s, j, np, nl, q, m1, s1, h);
      ReachesLater(c, p, st, 3 + n1, f.start + 1, s1, i, h);
      n := 3 + n1 + i;
    }
  }

  lemma StartLabel(c: Ctx, p: nat, nl: nat)
    requires ValidCtx(c) && InstrAt(c, p, ILabel(Temp(nl)))
    ensures Lookup(c.code, Temp(nl)) == p
  {
    LookupAt(c.code, p, Temp(nl));
  }

  lemma DoReaches(c: Ctx, k: Cont, j: Jumps, np: nat, nl: nat, q: nat, m: Store, st: Store, h: Watch) returns (n: nat)
    requires ValidCtx(c) && k.KDo? && StmtAt(c, k.s, np, nl, q) && k.s.DoWhile? && StmtOk(k.s, j, c.bound) && Agree(m, st, c.bound)
    requires StateMeets(Resume(k, m), false, c.src, h)
    ensures Reaches(c, q + ResumeAt(k, np, nl), st, n, h)
  {
    hide ValidCtx, CodeAt, Agree, Reaches, ExprOk, GenExpr, GenStmt, ExprMeets, IrSteps, Find;
    var p := q + ResumeAt(k, np, nl);
    var gb := GenStmt(k.s.body, np, nl + 1);
    DoParts(c, k.s, np, nl, q);
    GoNone(c, p, st);
    GoLabel(c, p, st, 0, p, st);
    var i := ExprAtReaches(c, k.s.cond, gb.np, gb.nl, p + 1, m, st, h);
    ReachesLater(c, p, st, 1, p + 1, st, i, h);
    n := 1 + i;
  }

  lemma ResumeReaches(c: Ctx, body: Stmt, k: Cont, p: nat, m: Store, st: Store, h: Watch) returns (n: nat)
    requires ValidCtx(c) && KMatch(c, k, p) && Agree(m, st, c.bound) && KOk(k, body, c.bound)
    requires StateMeets(Resume(k, m), false, c.src, h)
    ensures Reaches(c, p, st, n, h)
  {
    hide ValidCtx, StmtOk, Agree, ExprMeets, TestMeets, StmtAt, GenStmt, Eval, ResumeAt, Reaches;
    assert k.KInit? || k.KFor? || k.KDo?;
    var q: nat, np: nat, nl: nat :| FrameMatch(c, k, p, q, np, nl);
    if k.KInit? { n := ForInitReaches(c, k, JumpsOf(k.k, body), np, nl, q, m, st, h); }
    else if k.KFor? { n := ForReaches(c, k, JumpsOf(k.k, body), np, nl, q, m, st, h); }
    else { n := DoReaches(c, k, JumpsOf(k.k, body), np, nl, q, m, st, h); }
  }

  /** A matched machine reaches the watched call. */
  lemma StateReaches(c: Ctx, body: Stmt, st: State, ir: IrState, h: Watch) returns (n: nat)
    requires ValidCtx(c) && Matched(c, body, st, ir) && StateMeets(st, false, c.src, h)
    ensures AtMet(c.code, IrSteps(c.code, ir, n, c.tgt), h)
  {
    hide ValidCtx, StmtOk, KOk, Agree, StateMeets, IrSteps, RunAt, KMatch, AtMet;
    assert Going(st) by { MeetingGoes(st, false, c.src, h); }
    if st.Run? {
      var np: nat, nl: nat :| RunAt(c, st.s, st.k, np, nl, ir.pc);
      n := RunReaches(c, st.s, st.k, JumpsOf(st.k, body), np, nl, ir.pc, st.m, ir.s, h);
    } else {
      n := ResumeReaches(c, body, st.k, ir.pc, st.m, ir.s, h);
    }
  }

  lemma MeetingGoes(st: State, early: bool, callees: Callees, h: Watch)
    requires StateMeets(st, early, callees, h)
    ensures Going(st)
  {
  }

  lemma {:induction false} StepsSequenced(body: Stmt, st: State, n: nat, callees: Callees)
    requires Sequenced(body) && StateSequenced(st)
    ensures StateSequenced(Steps(body, st, n, false, callees))
    decreases n
  {
    hide RunStmt, ResumeStep, Sequenced, KSequenced;
    if n > 0 {
      if st.Run? { RunModes(body, st.s, st.k, st.m, callees); }
      if st.Resume? { ResumeModes(st.k, st.m, callees); }
      StepsSequenced(body, Step(body, st, false, callees), n - 1, callees);
    }
  }

  /** The body reaches a watched call, or, where that counts, goes on for ever by itself. */
  ghost predicate BodyShows(body: Stmt, m: Store, early: bool, callees: Callees, h: Watch, endless: bool) {
    || (exists k: nat :: StateMeets(Steps(body, Run(body, KStop, m), k, early, callees), early, callees, h))
    || (endless && forall k: nat :: Going(Steps(body, Run(body, KStop, m), k, early, callees)))
  }

  /** So does its code. */
  ghost predicate CodeShows(code: seq<Instr>, s: Store, callees: Callees, h: Watch, endless: bool) {
    || (exists n: nat :: AtMet(code, IrSteps(code, At(0, s), n, callees), h))
    || (endless && forall n: nat :: IrSteps(code, At(0, s), n, callees).At?)
  }

  lemma FunctionShows(body: Stmt, ret: Ty, np: nat, nl: nat, m: Store, s: Store, src: Callees, tgt: Callees, h: Watch,
                      early: bool, endless: bool)
    requires BodyOk(body, np) && (early ==> Sequenced(body)) && Refines(src, tgt) && Agree(m, s, np)
    requires BodyShows(body, m, early, src, h, endless)
    ensures CodeShows(GenFunction(body, ret, np, nl).code, s, tgt, h, endless)
  {
    hide GenFunction, BodyOk, Sequenced, ValidCtx, Whole, Steps, Refines, Agree, StateMeets, IrSteps, AtMet, Matched;
    var start := Run(body, KStop, m);
    if k: nat :| StateMeets(Steps(body, start, k, early, src), early, src, h) {
      WholeFunction(body, ret, np, nl, src, tgt);
      var c := Ctx(GenFunction(body, ret, np, nl).code, np, src, tgt);
      var st := Steps(body, start, k, false, src);
      if early {
        StepsModes(body, start, k, src);
        StepsSequenced(body, start, k, src);
        StateMeetsAlike(st, src, h);
      }
      MeetingGoes(st, false, src, h);
      var n1, ir := StepsSim(c, body, start, At(0, s), nl, 0, k);
      var n2 := StateReaches(c, body, st, ir, h);
      Chain(c.code, At(0, s), n1, ir, n2, IrSteps(c.code, ir, n2, tgt), tgt);
      assert AtMet(c.code, IrSteps(c.code, At(0, s), n1 + n2, tgt), h);
    } else {
      forall n: nat ensures IrSteps(GenFunction(body, ret, np, nl).code, At(0, s), n, tgt).At? {
        FunctionDiverges(body, ret, np, nl, m, s, n, early, src, tgt);
      }
    }
  }

  /** A call whose body does, whatever uninitialised objects hold. */
  ghost predicate CallShows(f: Fn, args: seq<int>, st: map<nat, int>, tr: seq<Event>, early: bool, callees: Callees, h: Watch,
                            endless: bool) {
    forall found :: BodyShows(f.body, Store(Bind(f.params, args, found), st, tr), early, callees, h, endless)
  }

  /** Calls of the program that reach a watched outside call, nested at most 'd' deep. If 'endless', those that
      go on for ever count too, and a call nested deeper than 'd' is still running as far as we can see. */
  ghost function SourceShows(prog: seq<Fn>, ext: Callees, hext: Watch, early: bool, endless: bool, d: nat): Watch
    decreases d
  {
    (fn, args, st, tr) =>
      var i := IndexOf(prog, fn);
      if i.None? then hext(fn, args, st, tr)
      else if d == 0 then endless
      else
        CallShows(prog[i.value], args, st, tr, early, SourceCallees(prog, ext, early, d - 1),
                  SourceShows(prog, ext, hext, early, endless, d - 1), endless)
  }

  lemma {:induction false} DeclsMeetStuck(ds: seq<Decl>, m: Store, early: bool, callees: Callees, h: Watch)
    requires DeclsMeet(ds, m, early, callees, h) && Silent(h, callees)
    ensures RunDecls(ds, m, early, callees).None?
  {
    hide Eval, ExprMeets;
    if !ds[0].isObject || !ds[0].isAuto || ds[0].init.None? {
      DeclsMeetStuck(ds[1..], m, early, callees, h);
    } else if ExprMeets(ds[0].init.value, m, early, callees, h) {
      MeetStuck(ds[0].init.value, m, early, callees, h);
    } else {
      var r := Eval(ds[0].init.value, m, early, callees);
      DeclsMeetStuck(ds[1..], WriteSym(r.st, ds[0].sym, Read(r.o, r.st)), early, callees, h);
    }
  }

  lemma TestMeetStuck(s: Stmt, k: Cont, m: Store, early: bool, callees: Callees, h: Watch)
    requires TestMeets(s, m, early, callees, h) && Silent(h, callees)
    ensures TestFor(s, k, m, early, callees).Wrong?
  {
    hide Eval, ExprMeets;
    MeetStuck(s.test.value, m, early, callees, h);
  }

  /** The step that reaches a watched call without outcome has none. */
  lemma StateMeetStuck(body: Stmt, st: State, early: bool, callees: Callees, h: Watch)
    requires StateMeets(st, early, callees, h) && Silent(h, callees)
    ensures Step(body, st, early, callees).Wrong?
  {
    hide Eval, ExprMeets, TestMeets, DeclsMeet, TestFor, RunDecls, Find;
    if st.Run? {
      match st.s
      case ExprStmt(e) => MeetStuck(e, st.m, early, callees, h);
      case DeclStmt(ds) => DeclsMeetStuck(ds, st.m, early, callees, h);
      case Return(e) => MeetStuck(e.value, st.m, early, callees, h);
      case If(c, _, _) => MeetStuck(c, st.m, early, callees, h);
      case While(_, c, _) => MeetStuck(c, st.m, early, callees, h);
      case Switch(_, c, _, _, _) => MeetStuck(c, st.m, early, callees, h);
    } else {
      match st.k
      case KInit(s, k) => TestMeetStuck(s, k, st.m, early, callees, h);
      case KFor(s, k) =>
        if s.post.None? {
          TestMeetStuck(s, k, st.m, early, callees, h);
        } else if ExprMeets(s.post.value, st.m, early, callees, h) {
          MeetStuck(s.post.value, st.m, early, callees, h);
        } else {
          TestMeetStuck(s, k, Eval(s.post.value, st.m, early, callees).st, early, callees, h);
        }
      case KDo(s, _) => MeetStuck(s.cond, st.m, early, callees, h);
    }
  }

  /** A body that reaches a call without outcome, or goes on for ever, does not return. */
  lemma NeverReturns(body: Stmt, m: Store, early: bool, callees: Callees, h: Watch, endless: bool)
    requires BodyShows(body, m, early, callees, h, endless) && Silent(h, callees)
    ensures SourceResult(body, m, early, callees).None?
  {
    hide StateMeets, Steps;
    var start := Run(body, KStop, m);
    forall n: nat ensures !Steps(body, start, n, early, callees).Finished? {
      if k: nat :| StateMeets(Steps(body, start, k, early, callees), early, callees, h) {
        MetNotFinished(body, start, k, n, early, callees, h);
      }
    }
  }

  lemma MetNotFinished(body: Stmt, st: State, k: nat, n: nat, early: bool, callees: Callees, h: Watch)
    requires StateMeets(Steps(body, st, k, early, callees), early, callees, h) && Silent(h, callees)
    ensures !Steps(body, st, n, early, callees).Finished?
  {
    hide StateMeets, Step;
    var at := Steps(body, st, k, early, callees);
    MeetingGoes(at, early, callees, h);
    if n <= k {
      SourceSplit(body, st, n, k - n, early, callees);
      var end := Steps(body, st, n, early, callees);
      if end.Finished? { FinishedStays(body, end.v, end.m, k - n, early, callees); }
    } else {
      SourceSplit(body, st, k, n - k, early, callees);
      StateMeetStuck(body, at, early, callees, h);
      WrongStays(body, n - k - 1, early, callees);
    }
  }

  lemma CallNeverReturns(f: Fn, args: seq<int>, st: map<nat, int>, tr: seq<Event>, early: bool, callees: Callees, h: Watch, endless: bool)
    requires CallShows(f, args, st, tr, early, callees, h, endless) && Silent(h, callees)
    ensures Determined(SourceRuns(f, args, st, tr, early, callees)).None?
  {
    hide BodyShows, SourceResult, Silent, Bind;
    NeverReturns(f.body, Store(Bind(f.params, args, map[]), st, tr), early, callees, h, endless);
    assert SourceRuns(f, args, st, tr, early, callees)(map[]).None?;
  }

  /** No call of the program both returns and goes on for ever. */
  lemma {:induction false} SourceExclusive(prog: seq<Fn>, ext: Callees, hext: Watch, early: bool, endless: bool, d: nat)
    requires Silent(hext, ext)
    ensures Silent(SourceShows(prog, ext, hext, early, endless, d), SourceCallees(prog, ext, early, d))
    decreases d
  {
    hide CallShows, Determined, SourceRuns;
    if d > 0 { SourceExclusive(prog, ext, hext, early, endless, d - 1); }
    forall fn, args, st, tr | SourceShows(prog, ext, hext, early, endless, d)(fn, args, st, tr)
      ensures SourceCallees(prog, ext, early, d)(fn, args, st, tr).None?
    {
      var i := IndexOf(prog, fn);
      if i.Some? && d > 0 {
        CallNeverReturns(prog[i.value], args, st, tr, early, SourceCallees(prog, ext, early, d - 1),
                         SourceShows(prog, ext, hext, early, endless, d - 1), endless);
      }
    }
  }
}
