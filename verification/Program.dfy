/** The whole translation: a function's code, and then a program of functions that call each
    other, behave as the source does under the value semantics of C. */
module Program {
  import opened Arith
  import opened Ast
  import opened Semantics
  import opened Ir
  import opened IrGen
  import opened ExprProof
  import opened Sequencing
  import opened StmtParts
  import opened StmtProof
  import opened StmtSim
  import opened Labels
  import opened Mentions

  predicate OptSequenced(e: Option<Expr>) {
    e.Some? ==> NoConflict(e.value)
  }

  predicate DeclsSequenced(ds: seq<Decl>) {
    ds == [] || (OptSequenced(ds[0].init) && DeclsSequenced(ds[1..]))
  }

  /** No expression of 's' hands on an object that it changes before using it. */
  predicate Sequenced(s: Stmt)
    decreases s, 1
  {
    match s
    case ExprStmt(e) => NoConflict(e)
    case DeclStmt(ds) => DeclsSequenced(ds)
    case Block(items) => ItemsSequenced(items)
    case Return(e) => OptSequenced(e)
    case If(c, a, b) => NoConflict(c) && Sequenced(a) && (b.Some? ==> Sequenced(b.value))
    case For(_, i, t, p, b) => Sequenced(i) && OptSequenced(t) && OptSequenced(p) && Sequenced(b)
    case While(_, c, b) => NoConflict(c) && Sequenced(b)
    case DoWhile(_, c, b) => NoConflict(c) && Sequenced(b)
    case Switch(_, c, b, _, _) => NoConflict(c) && Sequenced(b)
    case Case(_, _, _, b) => Sequenced(b)
    case Default(_, b) => Sequenced(b)
    case Label(_, _, b) => Sequenced(b)
    case _ => true
  }

  predicate ItemsSequenced(items: seq<Stmt>)
    decreases items, 0
  {
    items == [] || (Sequenced(items[0]) && ItemsSequenced(items[1..]))
  }

  predicate KSequenced(k: Cont) {
    match k
    case KStop => true
    case KSeq(rest, k') => ItemsSequenced(rest) && KSequenced(k')
    case _ => Sequenced(k.s) && KSequenced(k.k)
  }

  predicate StateSequenced(st: State) {
    match st
    case Run(s, k, _) => Sequenced(s) && KSequenced(k)
    case Resume(k, _) => KSequenced(k)
    case _ => true
  }

  lemma {:induction false} FindSequenced(s: Stmt, k: Cont, g: Goal)
    requires Sequenced(s) && KSequenced(k) && Find(s, k, g).Some?
    ensures Sequenced(Find(s, k, g).value.0) && KSequenced(Find(s, k, g).value.1)
    decreases s, 1
  {
    match s
    case Block(items) => FindItemsSequenced(items, k, g);
    case If(_, a, b) =>
      if Find(a, KThen(s, k), g).Some? { FindSequenced(a, KThen(s, k), g); }
      else if b.Some? { FindSequenced(b.value, KElse(s, k), g); }
    case For(_, _, _, _, b) => FindSequenced(b, KFor(s, k), g);
    case While(_, _, b) => FindSequenced(b, KWhile(s, k), g);
    case DoWhile(_, _, b) => FindSequenced(b, KDo(s, k), g);
    case Switch(_, _, b, _, _) => FindSequenced(b, KSwitch(s, k), g);
    case Case(_, _, _, b) => if !Marks(s, g) { FindSequenced(b, k, g); }
    case Default(_, b) => if !Marks(s, g) { FindSequenced(b, k, g); }
    case Label(_, _, b) => if !Marks(s, g) { FindSequenced(b, k, g); }
    case _ =>
  }

  lemma {:induction false} FindItemsSequenced(items: seq<Stmt>, k: Cont, g: Goal)
    requires ItemsSequenced(items) && KSequenced(k) && FindItems(items, k, g).Some?
    ensures Sequenced(FindItems(items, k, g).value.0) && KSequenced(FindItems(items, k, g).value.1)
    decreases items, 0
  {
    if Find(items[0], KSeq(items[1..], k), g).Some? {
      FindSequenced(items[0], KSeq(items[1..], k), g);
    } else {
      FindItemsSequenced(items[1..], k, g);
    }
  }

  lemma {:induction false} LeaveSequenced(k: Cont, m: Store)
    requires KSequenced(k)
    ensures StateSequenced(BreakFrom(k, m)) && StateSequenced(ContinueFrom(k, m))
  {
    if !k.KStop? { LeaveSequenced(k.k, m); }
  }

  lemma {:induction false} DeclsModes(ds: seq<Decl>, m: Store, callees: Callees)
    requires DeclsSequenced(ds)
    ensures RunDecls(ds, m, true, callees) == RunDecls(ds, m, false, callees)
  {
    hide Eval, NoConflict;
    if ds != [] {
      if !ds[0].isObject || !ds[0].isAuto || ds[0].init.None? {
        DeclsModes(ds[1..], m, callees);
      } else {
        LateIsEarly(ds[0].init.value, m, callees);
        var r := Eval(ds[0].init.value, m, true, callees);
        if r.Ok? { DeclsModes(ds[1..], WriteSym(r.st, ds[0].sym, Read(r.o, r.st)), callees); }
      }
    }
  }

  lemma TestForModes(s: Stmt, k: Cont, m: Store, callees: Callees)
    requires s.For? && Sequenced(s) && KSequenced(k)
    ensures TestFor(s, k, m, true, callees) == TestFor(s, k, m, false, callees)
    ensures StateSequenced(TestFor(s, k, m, false, callees))
  {
    hide Eval, NoConflict;
    if s.test.Some? { LateIsEarly(s.test.value, m, callees); }
  }

  lemma SwitchModes(body: Stmt, s: Stmt, k: Cont, m: Store, callees: Callees)
    requires Sequenced(s) && KSequenced(k) && s.Switch?
    ensures RunStmt(body, s, k, m, true, callees) == RunStmt(body, s, k, m, false, callees)
    ensures StateSequenced(RunStmt(body, s, k, m, false, callees))
  {
    hide Eval, NoConflict, Find;
    LateIsEarly(s.cond, m, callees);
    var r := Eval(s.cond, m, true, callees);
    if r.Ok? {
      var x, kb := Read(r.o, r.st), KSwitch(s, k);
      if Find(s.body, kb, ByValue(x)).Some? { FindSequenced(s.body, kb, ByValue(x)); }
      else if Find(s.body, kb, ByDefault).Some? { FindSequenced(s.body, kb, ByDefault); }
    }
  }

  lemma RunModes(body: Stmt, s: Stmt, k: Cont, m: Store, callees: Callees)
    requires Sequenced(body) && Sequenced(s) && KSequenced(k)
    ensures RunStmt(body, s, k, m, true, callees) == RunStmt(body, s, k, m, false, callees)
    ensures StateSequenced(RunStmt(body, s, k, m, false, callees))
  {
    hide Eval, NoConflict, Find, RunDecls, DeclsSequenced, BreakFrom, ContinueFrom;
    match s
    case ExprStmt(_) => ValueModes(body, s, k, m, callees);
    case DeclStmt(_) => ValueModes(body, s, k, m, callees);
    case Return(_) => ValueModes(body, s, k, m, callees);
    case If(_, _, _) => TestModes(body, s, k, m, callees);
    case While(_, _, _) => TestModes(body, s, k, m, callees);
    case Switch(_, _, _, _, _) => SwitchModes(body, s, k, m, callees);
    case Break(_) => JumpModes(body, s, k, m, callees);
    case Continue(_) => JumpModes(body, s, k, m, callees);
    case Goto(_, _) => JumpModes(body, s, k, m, callees);
    case _ =>
  }

  lemma ValueModes(body: Stmt, s: Stmt, k: Cont, m: Store, callees: Callees)
    requires (s.ExprStmt? || s.DeclStmt? || s.Return?) && Sequenced(s) && KSequenced(k)
    ensures RunStmt(body, s, k, m, true, callees) == RunStmt(body, s, k, m, false, callees)
    ensures StateSequenced(RunStmt(body, s, k, m, false, callees))
  {
    hide Eval, NoConflict, Find, RunDecls, DeclsSequenced;
    match s
    case ExprStmt(e) => LateIsEarly(e, m, callees);
    case DeclStmt(ds) => DeclsModes(ds, m, callees);
    case Return(e) => if e.Some? { LateIsEarly(e.value, m, callees); }
  }

  lemma TestModes(body: Stmt, s: Stmt, k: Cont, m: Store, callees: Callees)
    requires (s.If? || s.While?) && Sequenced(s) && KSequenced(k)
    ensures RunStmt(body, s, k, m, true, callees) == RunStmt(body, s, k, m, false, callees)
    ensures StateSequenced(RunStmt(body, s, k, m, false, callees))
  {
    hide Eval, NoConflict, Find;
    LateIsEarly(s.cond, m, callees);
  }

  lemma JumpModes(body: Stmt, s: Stmt, k: Cont, m: Store, callees: Callees)
    requires (s.Break? || s.Continue? || s.Goto?) && Sequenced(body) && KSequenced(k)
    ensures RunStmt(body, s, k, m, true, callees) == RunStmt(body, s, k, m, false, callees)
    ensures StateSequenced(RunStmt(body, s, k, m, false, callees))
  {
    hide Eval, NoConflict, Find, RunDecls, DeclsSequenced;
    if s.Goto? {
      if Find(body, KStop, ByName(s.name)).Some? { FindSequenced(body, KStop, ByName(s.name)); }
    } else {
      LeaveSequenced(k, m);
    }
  }

  lemma ResumeModes(k: Cont, m: Store, callees: Callees)
    requires KSequenced(k)
    ensures ResumeStep(k, m, true, callees) == ResumeStep(k, m, false, callees)
    ensures StateSequenced(ResumeStep(k, m, false, callees))
  {
    hide Eval, NoConflict, TestFor;
    match k
    case KInit(s, k') => if s.For? { TestForModes(s, k', m, callees); }
    case KFor(s, k') =>
      if s.For? {
        TestForModes(s, k', m, callees);
        if s.post.Some? {
          LateIsEarly(s.post.value, m, callees);
          var r := Eval(s.post.value, m, true, callees);
          if r.Ok? { TestForModes(s, k', r.st, callees); }
        }
      }
    case KDo(s, _) => if s.DoWhile? { LateIsEarly(s.cond, m, callees); }
    case _ =>
  }

  /** Statements run alike under the value semantics and under the operand semantics. */
  lemma {:induction false} StepsModes(body: Stmt, st: State, n: nat, callees: Callees)
    requires Sequenced(body) && StateSequenced(st)
    ensures Steps(body, st, n, true, callees) == Steps(body, st, n, false, callees)
    decreases n
  {
    hide RunStmt, ResumeStep;
    if n > 0 {
      if st.Run? { RunModes(body, st.s, st.k, st.m, callees); }
      if st.Resume? { ResumeModes(st.k, st.m, callees); }
      StepsModes(body, Step(body, st, true, callees), n - 1, callees);
    }
  }

  /** What analysis hands to the translator: a well-formed body whose automatic objects are
      numbered below the first temporary. */
  ghost predicate BodyOk(body: Stmt, np: nat) {
    StmtOk(body, Jumps(None, None, body), np) && DistinctIds(body)
  }

  /** The function's code, standing at position 0, runs its body and then returns 0. */
  lemma WholeFunction(body: Stmt, ret: Ty, np: nat, nl: nat, src: Callees, tgt: Callees)
    requires BodyOk(body, np) && Refines(src, tgt)
    ensures var c := Ctx(GenFunction(body, ret, np, nl).code, np, src, tgt);
            && ValidCtx(c) && Whole(c, body, nl, 0)
            && forall m, s :: Agree(m, s, np) ==> Matched(c, body, Run(body, KStop, m), At(0, s))
  {
    hide GenStmt, StmtOk;
    var c := Ctx(GenFunction(body, ret, np, nl).code, np, src, tgt);
    FunctionLabels(body, ret, np, nl);
    var g := GenStmt(body, np, nl);
    CodeSplit(c.code, 0, g.code, [c.code[|g.code|]]);
    assert RunAt(c, body, KStop, np, nl, 0);
  }

  /** Statement compilation preserves meaning: a run that returns is matched by a run of the code
      that returns the same value and leaves the same objects and outside calls. */
  lemma FunctionCorrect(body: Stmt, ret: Ty, np: nat, nl: nat, m: Store, s: Store, k: nat, early: bool, src: Callees, tgt: Callees)
    returns (n: nat, s': Store)
    requires BodyOk(body, np) && (early ==> Sequenced(body)) && Refines(src, tgt) && Agree(m, s, np)
    requires Steps(body, Run(body, KStop, m), k, early, src).Finished?
    ensures var end := Steps(body, Run(body, KStop, m), k, early, src);
            && IrSteps(GenFunction(body, ret, np, nl).code, At(0, s), n, tgt) == Done(end.v, s')
            && Agree(end.m, s', np)
  {
    hide GenFunction, BodyOk, Sequenced, ValidCtx, Whole, Steps, Refines;
    WholeFunction(body, ret, np, nl, src, tgt);
    var c := Ctx(GenFunction(body, ret, np, nl).code, np, src, tgt);
    if early { StepsModes(body, Run(body, KStop, m), k, src); }
    var ir';
    n, ir' := StepsSim(c, body, Run(body, KStop, m), At(0, s), nl, 0, k);
    s' := ir'.st;
  }

  /** return x + (x = 1); */
  function Conflict(): Stmt {
    var x := Symbol(0, Int, false);
    Return(Some(Binary(Add, Ident(x), Assign(x, IntConst(1)), Int)))
  }

  /** Order matters to early reading: from x = 5, left-to-right evaluation returns 6 and the generated code 2. */
  lemma ConflictMatters(callees: Callees) returns (n: nat, s': Store)
    ensures var m := Store(map[0 := 5], map[], []);
            && BodyOk(Conflict(), 1) && !Sequenced(Conflict())
            && (exists m' :: Steps(Conflict(), Run(Conflict(), KStop, m), 1, true, callees) == Finished(6, m'))
            && IrSteps(GenFunction(Conflict(), Int, 1, 0).code, At(0, m), n, callees) == Done(2, s')
  {
    hide GenFunction, IrSteps, FindItems, Find, CaseList;
    var m := Store(map[0 := 5], map[], []);
    LateDiffers(callees);
    var body := Conflict();
    OneStep(body, m, true, callees);
    OneStep(body, m, false, callees);
    n, s' := FunctionCorrect(body, Int, 1, 0, m, m, 1, false, callees, callees);
  }

  lemma OneStep(body: Stmt, m: Store, early: bool, callees: Callees)
    ensures Steps(body, Run(body, KStop, m), 1, early, callees) == RunStmt(body, body, KStop, m, early, callees)
  {
    hide RunStmt;
    var next := Step(body, Run(body, KStop, m), early, callees);
    assert Steps(body, next, 0, early, callees) == next;
  }

  /** A body that never returns and never goes wrong has code that never stops. */
  lemma FunctionDiverges(body: Stmt, ret: Ty, np: nat, nl: nat, m: Store, s: Store, n: nat, early: bool, src: Callees, tgt: Callees)
    requires BodyOk(body, np) && (early ==> Sequenced(body)) && Refines(src, tgt) && Agree(m, s, np)
    requires forall i: nat :: Going(Steps(body, Run(body, KStop, m), i, early, src))
    ensures IrSteps(GenFunction(body, ret, np, nl).code, At(0, s), n, tgt).At?
  {
    hide GenFunction, BodyOk, Sequenced, ValidCtx, Whole, Steps, Refines, Agree;
    WholeFunction(body, ret, np, nl, src, tgt);
    var st := Run(body, KStop, m);
    var c := Ctx(GenFunction(body, ret, np, nl).code, np, src, tgt);
    forall i: nat ensures Going(Steps(body, st, i, false, src)) {
      if early { StepsModes(body, st, i, src); }
    }
    var far := Progress(c, body, st, At(0, s), nl, 0, n);
    StepsSplit(c.code, At(0, s), n, far - n, tgt);
    if !IrSteps(c.code, At(0, s), n, tgt).At? {
      StoppedStays(c.code, IrSteps(c.code, At(0, s), n, tgt), far - n, tgt);
    }
  }

  /** A function definition: its symbol, parameters, return type and analysed body. */
  datatype Fn = Fn(id: nat, params: seq<Symbol>, ret: Ty, body: Stmt)

  /** Counters with which the translation of the i-th function starts. */
  function StartOf(prog: seq<Fn>, i: nat, np: nat, nl: nat): (nat, nat)
    requires i <= |prog|
    decreases i
  {
    if i == 0 then (np, nl) else
    var (a, b) := StartOf(prog, i - 1, np, nl);
    var g := GenFunction(prog[i - 1].body, prog[i - 1].ret, a, b);
    (g.np, g.nl)
  }

  function CodeOf(prog: seq<Fn>, i: nat, np: nat, nl: nat): seq<Instr>
    requires i < |prog|
  {
    var (a, b) := StartOf(prog, i, np, nl);
    GenFunction(prog[i].body, prog[i].ret, a, b).code
  }

  lemma {:induction false} CountersGrow(prog: seq<Fn>, i: nat, j: nat, np: nat, nl: nat)
    requires i <= j <= |prog|
    ensures np <= StartOf(prog, i, np, nl).0 <= StartOf(prog, j, np, nl).0
    decreases j
  {
    hide GenStmt;
    if j > 0 {
      var (a, b) := StartOf(prog, j - 1, np, nl);
      StmtMono(prog[j - 1].body, a, b);
      CountersGrow(prog, if i < j then i else j - 1, j - 1, np, nl);
    }
  }

  /** A pseudo that two functions use is an automatic object that one of them names: temporaries of different
      functions never share a number. */
  ghost predicate TempsApart(prog: seq<Fn>, codes: seq<seq<Instr>>)
    requires |codes| == |prog|
  {
    forall i, j, id: nat :: 0 <= i < j < |prog| && CodeUses(codes[i], id) && CodeUses(codes[j], id) ==>
      StmtMentions(prog[i].body, id) || StmtMentions(prog[j].body, id)
  }

  lemma CodesApart(prog: seq<Fn>, codes: seq<seq<Instr>>, np: nat, nl: nat)
    requires |codes| == |prog| && forall i :: 0 <= i < |prog| ==> codes[i] == CodeOf(prog, i, np, nl)
    ensures TempsApart(prog, codes)
  {
    hide CodeUses, StmtMentions, GenFunction, StartOf, CodeOf;
    forall i, j, id: nat | 0 <= i < j < |prog| && CodeUses(codes[i], id) && CodeUses(codes[j], id)
      ensures StmtMentions(prog[i].body, id) || StmtMentions(prog[j].body, id)
    {
      CodeOwns(prog, i, np, nl, id);
      CodeOwns(prog, j, np, nl, id);
      CountersGrow(prog, i + 1, j, np, nl);
    }
  }

  lemma CodeOwns(prog: seq<Fn>, i: nat, np: nat, nl: nat, id: nat)
    requires i < |prog| && CodeUses(CodeOf(prog, i, np, nl), id)
    ensures StmtMentions(prog[i].body, id) || TempOf(id, StartOf(prog, i, np, nl).0, StartOf(prog, i + 1, np, nl).0)
  {
    hide CodeUses, StmtMentions, GenFunction;
    var (a, b) := StartOf(prog, i, np, nl);
    FunctionUses(prog[i].body, prog[i].ret, a, b, id);
  }

  /** Automatic object 'id' is a parameter of the function or named in its body. */
  predicate FnMentions(f: Fn, id: nat) {
    (exists k :: 0 <= k < |f.params| && Is(f.params[k], id)) || StmtMentions(f.body, id)
  }

  /** Automatic objects are numbered below 'np', and no two functions share one. */
  ghost predicate ObjectsApart(prog: seq<Fn>, np: nat) {
    && (forall i, id: nat :: 0 <= i < |prog| && FnMentions(prog[i], id) ==> id < np)
    && forall i, j, id: nat :: 0 <= i < j < |prog| && FnMentions(prog[i], id) ==> !FnMentions(prog[j], id)
  }

  /** Index of the definition of 'fn' in the program. */
  function IndexOf(prog: seq<Fn>, fn: nat): (i: Option<nat>)
    ensures i.Some? ==> i.value < |prog|
  {
    if prog == [] then None
    else if prog[0].id == fn then Some(0)
    else
      var i := IndexOf(prog[1..], fn);
      if i.None? then None else Some(i.value + 1)
  }

  /** Objects of a fresh call: the parameters hold the arguments, the rest is as found. */
  function Bind(params: seq<Symbol>, args: seq<int>, found: map<nat, int>): map<nat, int> {
    if params == [] || args == [] then found
    else Bind(params[1..], args[1..], found)[params[0].id := args[0]]
  }

  /** The common outcome of runs that differ in what uninitialised objects hold, if there is one. */
  ghost function Determined(run: map<nat, int> -> Option<CallResult>): Option<CallResult> {
    if forall found :: run(found) == run(map[]) then run(map[]) else None
  }

  /** The program's own functions, with calls nested at most 'd' deep; other functions answer as 'ext'
      says. 'early' chooses the reading of operands, as in Eval. A call whose outcome depends on the value of
      an uninitialised object has none. */
  ghost function SourceCallees(prog: seq<Fn>, ext: Callees, early: bool, d: nat): Callees
    decreases d
  {
    (fn, args, st, tr) =>
      var i := IndexOf(prog, fn);
      if i.None? then ext(fn, args, st, tr)
      else if d == 0 then None
      else
        var callees := SourceCallees(prog, ext, early, d - 1);
        Determined(SourceRuns(prog[i.value], args, st, tr, early, callees))
  }

  ghost function SourceRuns(f: Fn, args: seq<int>, st: map<nat, int>, tr: seq<Event>, early: bool, callees: Callees)
    : map<nat, int> -> Option<CallResult>
  {
    found => SourceResult(f.body, Store(Bind(f.params, args, found), st, tr), early, callees)
  }

  /** What the body does: the state it returns in, if it ever does. */
  ghost function SourceResult(body: Stmt, s: Store, early: bool, callees: Callees): Option<CallResult> {
    if exists n: nat :: Steps(body, Run(body, KStop, s), n, early, callees).Finished? then
      var n: nat :| Steps(body, Run(body, KStop, s), n, early, callees).Finished?;
      var end := Steps(body, Run(body, KStop, s), n, early, callees);
      Some(CallResult(end.v, end.m.statics, end.m.trace))
    else None
  }

  lemma SourceRan(body: Stmt, s: Store, early: bool, callees: Callees) returns (n: nat)
    requires SourceResult(body, s, early, callees).Some?
    ensures var end := Steps(body, Run(body, KStop, s), n, early, callees);
            end.Finished? && SourceResult(body, s, early, callees) == Some(CallResult(end.v, end.m.statics, end.m.trace))
  {
    hide Steps;
    n :| Steps(body, Run(body, KStop, s), n, early, callees).Finished?
      && SourceResult(body, s, early, callees) ==
         Some(CallResult(Steps(body, Run(body, KStop, s), n, early, callees).v,
                         Steps(body, Run(body, KStop, s), n, early, callees).m.statics,
                         Steps(body, Run(body, KStop, s), n, early, callees).m.trace));
  }

  /** What the code does when called: the state it returns in, if it ever does. */
  ghost function MachineResult(code: seq<Instr>, s: Store, callees: Callees): Option<CallResult> {
    if exists n: nat :: IrSteps(code, At(0, s), n, callees).Done? then
      var n: nat :| IrSteps(code, At(0, s), n, callees).Done?;
      var end := IrSteps(code, At(0, s), n, callees);
      Some(CallResult(end.v, end.st.statics, end.st.trace))
    else None
  }

  lemma {:induction false} SourceSplit(body: Stmt, st: State, a: nat, b: nat, early: bool, callees: Callees)
    ensures Steps(body, st, a + b, early, callees) == Steps(body, Steps(body, st, a, early, callees), b, early, callees)
    decreases a
  {
    hide Step;
    if a > 0 { SourceSplit(body, Step(body, st, early, callees), a - 1, b, early, callees); }
  }

  /** The source is deterministic: all runs that return, return the same. */
  lemma SourceReturns(body: Stmt, s: Store, n: nat, early: bool, callees: Callees)
    requires Steps(body, Run(body, KStop, s), n, early, callees).Finished?
    ensures var end := Steps(body, Run(body, KStop, s), n, early, callees);
            SourceResult(body, s, early, callees) == Some(CallResult(end.v, end.m.statics, end.m.trace))
  {
    hide Steps;
    var start := Run(body, KStop, s);
    var k := SourceRan(body, s, early, callees);
    var lo, hi := if k < n then k else n, if k < n then n else k;
    SourceSplit(body, start, lo, hi - lo, early, callees);
    var end := Steps(body, start, lo, early, callees);
    FinishedStays(body, end.v, end.m, hi - lo, early, callees);
  }

  ghost function TargetCallees(prog: seq<Fn>, np: nat, nl: nat, ext: Callees, d: nat): Callees
    decreases d
  {
    (fn, args, st, tr) =>
      var i := IndexOf(prog, fn);
      if i.None? then ext(fn, args, st, tr)
      else if d == 0 then None
      else
        var callees := TargetCallees(prog, np, nl, ext, d - 1);
        Determined(MachineRuns(CodeOf(prog, i.value, np, nl), prog[i.value].params, args, st, tr, callees))
  }

  ghost function MachineRuns(code: seq<Instr>, params: seq<Symbol>, args: seq<int>, st: map<nat, int>, tr: seq<Event>, callees: Callees)
    : map<nat, int> -> Option<CallResult>
  {
    found => MachineResult(code, Store(Bind(params, args, found), st, tr), callees)
  }

  lemma SameDetermined(a: map<nat, int> -> Option<CallResult>, b: map<nat, int> -> Option<CallResult>)
    requires Determined(a).Some? && forall found :: a(found).Some? ==> b(found) == a(found)
    ensures Determined(b) == Determined(a)
  {
  }

  /** The machine is deterministic: all runs that return, return the same. */
  lemma MachineReturns(code: seq<Instr>, s: Store, n: nat, callees: Callees)
    requires IrSteps(code, At(0, s), n, callees).Done?
    ensures var end := IrSteps(code, At(0, s), n, callees);
            MachineResult(code, s, callees) == Some(CallResult(end.v, end.st.statics, end.st.trace))
  {
    hide IrSteps;
    var k: nat :| IrSteps(code, At(0, s), k, callees).Done?
      && MachineResult(code, s, callees) ==
         Some(CallResult(IrSteps(code, At(0, s), k, callees).v, IrSteps(code, At(0, s), k, callees).st.statics,
                         IrSteps(code, At(0, s), k, callees).st.trace));
    var lo, hi := if k < n then k else n, if k < n then n else k;
    StepsSplit(code, At(0, s), lo, hi - lo, callees);
    StoppedStays(code, IrSteps(code, At(0, s), lo, callees), hi - lo, callees);
  }

  /** Statements of the first 'n' functions numbered 'id'. */
  function IdTotal(prog: seq<Fn>, n: nat, id: nat): nat
    requires n <= |prog|
  {
    if n == 0 then 0 else IdTotal(prog, n - 1, id) + IdCount(prog[n - 1].body, id)
  }

  /** Statement ids come from one counter for the whole file. */
  ghost predicate NumberedApart(prog: seq<Fn>) {
    forall id :: IdTotal(prog, |prog|, id) <= 1
  }

  ghost predicate ProgramOk(prog: seq<Fn>, np: nat, nl: nat) {
    forall i :: 0 <= i < |prog| ==> BodyOk(prog[i].body, StartOf(prog, i, np, nl).0)
  }

  /** Where operands are read early, as C's left-to-right semantics does, no later operand changes them. */
  predicate InOrder(prog: seq<Fn>, early: bool) {
    early ==> forall i :: 0 <= i < |prog| ==> Sequenced(prog[i].body)
  }

  /** A translated program, mutual recursion included, returns whatever the source program returns,
      with the same static objects and the same outside calls in the same order. */
  lemma {:induction false} ProgramCorrect(prog: seq<Fn>, np: nat, nl: nat, ext: Callees, early: bool, d: nat)
    requires ProgramOk(prog, np, nl) && InOrder(prog, early)
    ensures Refines(SourceCallees(prog, ext, early, d), TargetCallees(prog, np, nl, ext, d))
    decreases d
  {
    hide BodyOk, Sequenced, GenFunction, StartOf, MachineResult, Bind, SourceResult, Determined;
    var f, g := SourceCallees(prog, ext, early, d), TargetCallees(prog, np, nl, ext, d);
    if d > 0 { ProgramCorrect(prog, np, nl, ext, early, d - 1); }
    forall fn, args, st, tr | f(fn, args, st, tr).Some?
      ensures g(fn, args, st, tr) == f(fn, args, st, tr)
    {
      var i := IndexOf(prog, fn);
      if i.Some? && d > 0 {
        var src, tgt := SourceCallees(prog, ext, early, d - 1), TargetCallees(prog, np, nl, ext, d - 1);
        var a := SourceRuns(prog[i.value], args, st, tr, early, src);
        var b := MachineRuns(CodeOf(prog, i.value, np, nl), prog[i.value].params, args, st, tr, tgt);
        forall found | a(found).Some? ensures b(found) == a(found) {
          CallCorrect(prog, np, nl, i.value, Store(Bind(prog[i.value].params, args, found), st, tr), early, src, tgt);
        }
        SameDetermined(a, b);
      }
    }
  }

  /** One call, given that the calls it makes are right. */
  lemma CallCorrect(prog: seq<Fn>, np: nat, nl: nat, i: nat, s: Store, early: bool, src: Callees, tgt: Callees)
    requires i < |prog| && ProgramOk(prog, np, nl) && InOrder(prog, early) && Refines(src, tgt)
    requires SourceResult(prog[i].body, s, early, src).Some?
    ensures MachineResult(CodeOf(prog, i, np, nl), s, tgt) == SourceResult(prog[i].body, s, early, src)
  {
    hide BodyOk, Sequenced, GenFunction, StartOf, MachineResult, SourceResult, Steps, IrSteps, Refines;
    var (a, b) := StartOf(prog, i, np, nl);
    var k := SourceRan(prog[i].body, s, early, src);
    var n, _ := FunctionCorrect(prog[i].body, prog[i].ret, a, b, s, s, k, early, src, tgt);
    MachineReturns(CodeOf(prog, i, np, nl), s, n, tgt);
  }
}
