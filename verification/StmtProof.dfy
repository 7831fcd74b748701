/** Statement code runs as the statements do: a simulation between the continuation machine and
    the program-counter machine, for jumps into and out of any statement. */
module StmtProof {
  import opened Arith
  import opened Ast
  import opened Semantics
  import opened Ir
  import opened IrGen
  import opened ExprProof
  import opened StmtParts

  function BrkOf(k: Cont): Option<nat> {
    match k
    case KStop => None
    case KInit(_, _) => None
    case KSeq(_, k') => BrkOf(k')
    case KThen(_, k') => BrkOf(k')
    case KElse(_, k') => BrkOf(k')
    case KFor(s, _) => Some(IdOf(s))
    case KWhile(s, _) => Some(IdOf(s))
    case KDo(s, _) => Some(IdOf(s))
    case KSwitch(s, _) => Some(IdOf(s))
  }

  function CntOf(k: Cont): Option<nat> {
    match k
    case KStop => None
    case KInit(_, _) => None
    case KSeq(_, k') => CntOf(k')
    case KThen(_, k') => CntOf(k')
    case KElse(_, k') => CntOf(k')
    case KSwitch(_, k') => CntOf(k')
    case KFor(s, _) => Some(IdOf(s))
    case KWhile(s, _) => Some(IdOf(s))
    case KDo(s, _) => Some(IdOf(s))
  }

  function JumpsOf(k: Cont, body: Stmt): Jumps {
    Jumps(BrkOf(k), CntOf(k), body)
  }

  predicate IsFrame(k: Cont) {
    match k
    case KStop => false
    case KSeq(_, _) => false
    case KThen(s, _) => s.If?
    case KElse(s, _) => s.If? && s.els.Some?
    case KInit(s, _) => s.For?
    case KFor(s, _) => s.For?
    case KWhile(s, _) => s.While?
    case KDo(s, _) => s.DoWhile?
    case KSwitch(s, _) => s.Switch?
  }

  /** Offset, inside the code of the frame's statement, at which the frame resumes. */
  function ResumeAt(k: Cont, np: nat, nl: nat): nat
    requires IsFrame(k)
  {
    match k
    case KThen(s, _) =>
      var gc := GenExpr(s.cond, np, nl);
      |gc.code| + 1 + |GenStmt(s.thn, gc.np, gc.nl + if s.els.None? then 1 else 2).code|
    case KElse(s, _) =>
      var gc := GenExpr(s.cond, np, nl);
      var ga := GenStmt(s.thn, gc.np, gc.nl + 2);
      |gc.code| + 1 + |ga.code| + 2 + |GenStmt(s.els.value, ga.np, ga.nl).code|
    case KInit(s, _) => ForLayout(s, np, nl, 0).start
    case KFor(s, _) => ForLayout(s, np, nl, 0).cnt
    case KWhile(s, _) =>
      var gc := GenExpr(s.cond, np, nl);
      1 + |gc.code| + 1 + |GenStmt(s.body, gc.np, gc.nl).code|
    case KDo(s, _) => 1 + |GenStmt(s.body, np, nl + 1).code|
    case KSwitch(s, _) =>
      var gc := GenExpr(s.cond, np, nl);
      |gc.code| + |GenTests(s.cases, gc.val, gc.np)| + 1 + |GenStmt(s.body, gc.np + |s.cases|, gc.nl).code|
  }

  /** Running the code from 'p' on does what continuation 'k' does. */
  ghost predicate KMatch(c: Ctx, k: Cont, p: nat)
    decreases k, 1
  {
    match k
    case KStop => p < |c.code| && c.code[p].IReturn? && ReadVal(c.code[p].src, Store(map[], map[], [])) == 0 && !c.code[p].src.Pseudo? && !c.code[p].src.StaticObj?
    case KSeq(_, _) => exists np, nl :: SeqMatch(c, k, p, np, nl)
    case _ => exists q, np, nl :: FrameMatch(c, k, p, q, np, nl)
  }

  ghost predicate SeqMatch(c: Ctx, k: Cont, p: nat, np: nat, nl: nat)
    requires k.KSeq?
    decreases k, 0
  {
    ItemsAt(c, k.rest, np, nl, p) && KMatch(c, k.k, p + |GenItems(k.rest, np, nl).code|)
  }

  ghost predicate FrameMatch(c: Ctx, k: Cont, p: nat, q: nat, np: nat, nl: nat)
    requires !k.KStop? && !k.KSeq?
    decreases k, 0
  {
    && IsFrame(k) && StmtAt(c, k.s, np, nl, q) && p == q + ResumeAt(k, np, nl)
    && KMatch(c, k.k, q + |GenStmt(k.s, np, nl).code|)
  }

  /** Every statement still to run is well formed in its context. */
  ghost predicate KOk(k: Cont, body: Stmt, bound: nat) {
    match k
    case KStop => true
    case KSeq(rest, k') => ItemsOk(rest, JumpsOf(k', body), bound) && KOk(k', body, bound)
    case _ => IsFrame(k) && StmtOk(k.s, JumpsOf(k.k, body), bound) && KOk(k.k, body, bound)
  }

  /** The code of 's' stands at 'p' and is followed by that of 'k'. */
  ghost predicate RunAt(c: Ctx, s: Stmt, k: Cont, np: nat, nl: nat, p: nat) {
    StmtAt(c, s, np, nl, p) && KMatch(c, k, p + |GenStmt(s, np, nl).code|)
  }

  ghost predicate Matched(c: Ctx, body: Stmt, st: State, ir: IrState) {
    match st
    case Run(s, k, m) =>
      && ir.At? && Agree(m, ir.s, c.bound) && StmtOk(s, JumpsOf(k, body), c.bound) && KOk(k, body, c.bound)
      && exists np, nl :: RunAt(c, s, k, np, nl, ir.pc)
    case Resume(k, m) =>
      ir.At? && Agree(m, ir.s, c.bound) && KOk(k, body, c.bound) && KMatch(c, k, ir.pc)
    case Finished(v, m) => ir.Done? && ir.v == v && Agree(m, ir.st, c.bound)
    case Wrong => false
  }

  /** A statement pushed on its own frame: the code after it is where the frame resumes. */
  lemma PushFrame(c: Ctx, k: Cont, q: nat, np: nat, nl: nat)
    requires IsFrame(k) && StmtAt(c, k.s, np, nl, q) && KMatch(c, k.k, q + |GenStmt(k.s, np, nl).code|)
    ensures KMatch(c, k, q + ResumeAt(k, np, nl))
  {
    hide StmtAt, GenStmt, ResumeAt;
    assert FrameMatch(c, k, q + ResumeAt(k, np, nl), q, np, nl);
  }

  lemma PushSeq(c: Ctx, rest: seq<Stmt>, k: Cont, p: nat, np: nat, nl: nat)
    requires ItemsAt(c, rest, np, nl, p) && KMatch(c, k, p + |GenItems(rest, np, nl).code|)
    ensures KMatch(c, KSeq(rest, k), p)
  {
    hide ItemsAt, GenItems;
    assert SeqMatch(c, KSeq(rest, k), p, np, nl);
  }

  /** 's' itself is the destination 'g'. */
  predicate Marks(s: Stmt, g: Goal) {
    match s
    case Case(_, _, v, _) => g == ByValue(v)
    case Default(_, _) => g.ByDefault?
    case Label(_, n, _) => g == ByName(n)
    case _ => false
  }

  /** The statement 'd.0' that 'g' reaches stands at 'p', followed by its continuation 'd.1'. */
  ghost predicate Landed(c: Ctx, body: Stmt, g: Goal, d: (Stmt, Cont), np: nat, nl: nat, p: nat) {
    && RunAt(c, d.0, d.1, np, nl, p) && StmtOk(d.0, JumpsOf(d.1, body), c.bound) && KOk(d.1, body, c.bound)
    && Marks(d.0, g)
  }

  /** Jumping into a statement: the statement found stands somewhere in the code, followed by the
      code of the continuation found. */
  lemma {:induction false} FindPlaced(c: Ctx, body: Stmt, s: Stmt, k: Cont, g: Goal, np: nat, nl: nat, p: nat)
    returns (np': nat, nl': nat, p': nat)
    requires RunAt(c, s, k, np, nl, p) && Find(s, k, g).Some?
    requires StmtOk(s, JumpsOf(k, body), c.bound) && KOk(k, body, c.bound)
    ensures Landed(c, body, g, Find(s, k, g).value, np', nl', p')
    decreases s, 2
  {
    hide CodeAt, GenExpr, GenStmt, ExprOk, CondOk, GenOptional, ForLayout;
    match s
    case Block(items) => np', nl', p' := FindItemsPlaced(c, body, items, k, g, np, nl, p) by { BlockCode(items, np, nl); }
    case If(_, _, _) => np', nl', p' := FindIfPlaced(c, body, s, k, g, np, nl, p);
    case For(_, _, _, _, _) => np', nl', p' := FindForPlaced(c, body, s, k, g, np, nl, p);
    case While(_, _, _) => np', nl', p' := FindLoopPlaced(c, body, s, k, g, np, nl, p);
    case DoWhile(_, _, _) => np', nl', p' := FindLoopPlaced(c, body, s, k, g, np, nl, p);
    case Switch(_, _, _, _, _) => np', nl', p' := FindSwitchPlaced(c, body, s, k, g, np, nl, p);
    case Case(_, _, _, _) => np', nl', p' := FindMarkedPlaced(c, body, s, k, g, np, nl, p);
    case Default(_, _) => np', nl', p' := FindMarkedPlaced(c, body, s, k, g, np, nl, p);
    case Label(_, _, _) => np', nl', p' := FindMarkedPlaced(c, body, s, k, g, np, nl, p);
    case _ =>
  }

  lemma {:induction false} FindMarkedPlaced(c: Ctx, body: Stmt, s: Stmt, k: Cont, g: Goal, np: nat, nl: nat, p: nat)
    returns (np': nat, nl': nat, p': nat)
    requires RunAt(c, s, k, np, nl, p) && Find(s, k, g).Some? && (s.Case? || s.Default? || s.Label?)
    requires StmtOk(s, JumpsOf(k, body), c.bound) && KOk(k, body, c.bound)
    ensures Landed(c, body, g, Find(s, k, g).value, np', nl', p')
    decreases s, 0
  {
    hide CodeAt, GenStmt;
    np', nl', p' := np, nl, p;
    if !Marks(s, g) {
      MarkedParts(c, s, np, nl, p);
      np', nl', p' := FindPlaced(c, body, s.stmt, k, g, np, nl, p + 1);
    }
  }

  lemma {:induction false} FindForPlaced(c: Ctx, body: Stmt, s: Stmt, k: Cont, g: Goal, np: nat, nl: nat, p: nat)
    returns (np': nat, nl': nat, p': nat)
    requires RunAt(c, s, k, np, nl, p) && Find(s, k, g).Some? && s.For?
    requires StmtOk(s, JumpsOf(k, body), c.bound) && KOk(k, body, c.bound)
    ensures Landed(c, body, g, Find(s, k, g).value, np', nl', p')
    decreases s, 0
  {
    hide CodeAt, GenStmt, ExprOk, CondOk, GenOptional, ForLayout;
    ForParts(c, s, np, nl, p);
    PushFrame(c, KFor(s, k), p, np, nl);
    var f := ForLayout(s, np, nl, p);
    ForResume(s, k, np, nl, p);
    np', nl', p' := FindPlaced(c, body, s.body, KFor(s, k), g, f.gt.np, f.gt.nl, f.body);
  }

  lemma {:induction false} FindLoopPlaced(c: Ctx, body: Stmt, s: Stmt, k: Cont, g: Goal, np: nat, nl: nat, p: nat)
    returns (np': nat, nl': nat, p': nat)
    requires RunAt(c, s, k, np, nl, p) && Find(s, k, g).Some? && (s.While? || s.DoWhile?)
    requires StmtOk(s, JumpsOf(k, body), c.bound) && KOk(k, body, c.bound)
    ensures Landed(c, body, g, Find(s, k, g).value, np', nl', p')
    decreases s, 0
  {
    hide CodeAt, GenExpr, GenStmt, GenTests, ExprOk, CondOk, GenOptional, ForLayout;
    if s.While? {
      WhileParts(c, s, np, nl, p);
      PushFrame(c, KWhile(s, k), p, np, nl);
      var gc := GenExpr(s.cond, np, nl);
      np', nl', p' := FindPlaced(c, body, s.body, KWhile(s, k), g, gc.np, gc.nl, p + 1 + |gc.code| + 1);
    } else {
      DoParts(c, s, np, nl, p);
      PushFrame(c, KDo(s, k), p, np, nl);
      np', nl', p' := FindPlaced(c, body, s.body, KDo(s, k), g, np, nl + 1, p + 1);
    }
  }

  lemma {:induction false} FindSwitchPlaced(c: Ctx, body: Stmt, s: Stmt, k: Cont, g: Goal, np: nat, nl: nat, p: nat)
    returns (np': nat, nl': nat, p': nat)
    requires RunAt(c, s, k, np, nl, p) && Find(s, k, g).Some? && s.Switch?
    requires StmtOk(s, JumpsOf(k, body), c.bound) && KOk(k, body, c.bound)
    ensures Landed(c, body, g, Find(s, k, g).value, np', nl', p')
    decreases s, 0
  {
    hide CodeAt, GenExpr, GenStmt, GenTests, ExprOk, CondOk, GenOptional, ForLayout;
    SwitchParts(c, s, np, nl, p);
    PushFrame(c, KSwitch(s, k), p, np, nl);
    var gc := GenExpr(s.cond, np, nl);
    np', nl', p' := FindPlaced(c, body, s.body, KSwitch(s, k), g, gc.np + |s.cases|, gc.nl,
                               p + |gc.code| + |GenTests(s.cases, gc.val, gc.np)| + 1);
  }

  lemma BlockCode(items: seq<Stmt>, np: nat, nl: nat)
    ensures GenStmt(Block(items), np, nl) == GenItems(items, np, nl)
  {
  }

  lemma ForResume(s: Stmt, k: Cont, np: nat, nl: nat, p: nat)
    requires s.For?
    ensures p + ResumeAt(KFor(s, k), np, nl) == ForLayout(s, np, nl, p).body + |ForLayout(s, np, nl, p).gb.code|
    ensures ForLayout(s, np, nl, p).gb == GenStmt(s.body, ForLayout(s, np, nl, p).gt.np, ForLayout(s, np, nl, p).gt.nl)
  {
  }

  lemma ForOrder(s: Stmt, np: nat, nl: nat, p: nat)
    requires s.For?
    ensures var f := ForLayout(s, np, nl, p);
            p <= f.start < f.exit <= f.body <= f.cnt < f.back
  {
  }

  lemma ForShift(s: Stmt, np: nat, nl: nat, p: nat)
    requires s.For?
    ensures var f, z := ForLayout(s, np, nl, p), ForLayout(s, np, nl, 0);
            f.start == p + z.start && f.cnt == p + z.cnt && f.body + |f.gb.code| == f.cnt
            && f.gi == z.gi && f.gt == z.gt && f.gb == z.gb && f.gp == z.gp
  {
  }

  lemma {:induction false} FindIfPlaced(c: Ctx, body: Stmt, s: Stmt, k: Cont, g: Goal, np: nat, nl: nat, p: nat)
    returns (np': nat, nl': nat, p': nat)
    requires RunAt(c, s, k, np, nl, p) && Find(s, k, g).Some? && s.If?
    requires StmtOk(s, JumpsOf(k, body), c.bound) && KOk(k, body, c.bound)
    ensures Landed(c, body, g, Find(s, k, g).value, np', nl', p')
    decreases s, 1
  {
    hide CodeAt, GenExpr, GenStmt, ExprOk, CondOk;
    if s.els.Some? {
      np', nl', p' := FindElsePlaced(c, body, s, k, g, np, nl, p);
    } else {
      var gc := GenExpr(s.cond, np, nl);
      PushFrame(c, KThen(s, k), p, np, nl);
      IfPlainParts(c, s, np, nl, p);
      np', nl', p' := FindPlaced(c, body, s.thn, KThen(s, k), g, gc.np, gc.nl + 1, p + |gc.code| + 1);
    }
  }

  lemma {:induction false} FindElsePlaced(c: Ctx, body: Stmt, s: Stmt, k: Cont, g: Goal, np: nat, nl: nat, p: nat)
    returns (np': nat, nl': nat, p': nat)
    requires RunAt(c, s, k, np, nl, p) && Find(s, k, g).Some? && s.If? && s.els.Some?
    requires StmtOk(s, JumpsOf(k, body), c.bound) && KOk(k, body, c.bound)
    ensures Landed(c, body, g, Find(s, k, g).value, np', nl', p')
    decreases s, 0
  {
    hide CodeAt, GenExpr, GenStmt, ExprOk, CondOk;
    var gc := GenExpr(s.cond, np, nl);
    PushFrame(c, KThen(s, k), p, np, nl);
    IfElseParts(c, s, np, nl, p);
    PushFrame(c, KElse(s, k), p, np, nl);
    if Find(s.thn, KThen(s, k), g).Some? {
      np', nl', p' := FindPlaced(c, body, s.thn, KThen(s, k), g, gc.np, gc.nl + 2, p + |gc.code| + 1);
    } else {
      var ga := GenStmt(s.thn, gc.np, gc.nl + 2);
      np', nl', p' := FindPlaced(c, body, s.els.value, KElse(s, k), g, ga.np, ga.nl, p + |gc.code| + 1 + |ga.code| + 2);
    }
  }

  lemma {:induction false} FindItemsPlaced(c: Ctx, body: Stmt, items: seq<Stmt>, k: Cont, g: Goal, np: nat, nl: nat, p: nat)
    returns (np': nat, nl': nat, p': nat)
    requires ItemsAt(c, items, np, nl, p) && KMatch(c, k, p + |GenItems(items, np, nl).code|) && FindItems(items, k, g).Some?
    requires ItemsOk(items, JumpsOf(k, body), c.bound) && KOk(k, body, c.bound)
    ensures Landed(c, body, g, FindItems(items, k, g).value, np', nl', p')
    decreases items, 0
  {
    hide CodeAt, GenStmt, GenItems;
    ItemsParts(c, items, np, nl, p);
    var h := GenStmt(items[0], np, nl);
    PushSeq(c, items[1..], k, p + |h.code|, h.np, h.nl);
    if Find(items[0], KSeq(items[1..], k), g).Some? {
      np', nl', p' := FindPlaced(c, body, items[0], KSeq(items[1..], k), g, np, nl, p);
    } else {
      np', nl', p' := FindItemsPlaced(c, body, items[1..], k, g, h.np, h.nl, p + |h.code|);
    }
  }

  /** Work left before the machine must take a step. */
  function Size(s: Stmt): nat
    decreases s, 1
  {
    match s
    case Block(items) => 2 + ItemsSize(items)
    case For(_, i, _, _, _) => 2 + Size(i)
    case _ => 1
  }

  function ItemsSize(items: seq<Stmt>): nat
    decreases items, 0
  {
    if items == [] then 0 else 1 + Size(items[0]) + ItemsSize(items[1..])
  }

  function KSize(k: Cont): nat {
    match k
    case KStop => 0
    case KSeq(rest, k') => 1 + ItemsSize(rest) + KSize(k')
    case _ => 1 + KSize(k.k)
  }

  function Measure(st: State): nat {
    match st
    case Run(s, k, _) => Size(s) + KSize(k)
    case Resume(k, _) => KSize(k)
    case _ => 0
  }

  /** The machine has caught up with one source step. It moves unless the source has less left
      to do, so it cannot stand still for ever. */
  ghost predicate Stepped(c: Ctx, body: Stmt, st: State, p: nat, s: Store, n: nat, ir': IrState) {
    && IrSteps(c.code, At(p, s), n, c.tgt) == ir'
    && Matched(c, body, Step(body, st, false, c.src), ir')
    && (n == 0 ==> Measure(Step(body, st, false, c.src)) < Measure(st))
  }

  /** An expression's code at statement level, where its temporaries are free to be reused. */
  lemma ExprRun(c: Ctx, e: Expr, np: nat, nl: nat, p: nat, m: Store, s: Store) returns (n: nat, s': Store)
    requires ValidCtx(c) && ExprOk(e, c.bound) && ExprAt(c, e, np, nl, p) && Agree(m, s, c.bound)
    requires Eval(e, m, false, c.src).Ok?
    ensures var g, r := GenExpr(e, np, nl), Eval(e, m, false, c.src);
            && Go(c, p, s, n) == At(p + |g.code|, s') && Agree(r.st, s', c.bound)
            && ReadVal(g.val, s') == Read(r.o, r.st)
            && np <= g.np && (g.val.Pseudo? ==> g.val.id < g.np) && TyOf(g.val) == TypeOf(e)
  {
    hide Eval, GenExpr, WellTyped, VarsBelow, ValidCtx, CodeAt, IrSteps, Agree;
    n, s' := ExprSim(c, e, np, nl, p, m, s);
    var g, r := GenExpr(e, np, nl), Eval(e, m, false, c.src);
    GenMono(e, np, nl);
    ReadHolds(g.val, r.o, TypeOf(e), r.st, s', np, g.np, c.bound);
  }

  lemma {:induction false} DeclsSim(c: Ctx, ds: seq<Decl>, np: nat, nl: nat, p: nat, m: Store, s: Store)
    returns (n: nat, s': Store)
    requires ValidCtx(c) && DeclsOk(ds, c.bound) && c.bound <= np && CodeAt(c.code, p, GenDecls(ds, np, nl).code)
    requires Agree(m, s, c.bound) && RunDecls(ds, m, false, c.src).Some?
    ensures Go(c, p, s, n) == At(p + |GenDecls(ds, np, nl).code|, s')
    ensures Agree(RunDecls(ds, m, false, c.src).value, s', c.bound)
  {
    hide Eval, GenExpr, WellTyped, VarsBelow, ValidCtx, CodeAt, IrSteps, Agree;
    GoNone(c, p, s);
    if ds == [] {
      n, s' := 0, s;
    } else if !ds[0].isObject || !ds[0].isAuto || ds[0].init.None? {
      n, s' := DeclsSim(c, ds[1..], np, nl, p, m, s);
    } else {
      var e, x := ds[0].init.value, ds[0].sym;
      var g := GenExpr(e, np, nl);
      var h := GenDecls(ds[1..], g.np, g.nl);
      CodeSplit(c.code, p, g.code, [ICopy(g.val, Object(x))] + h.code);
      CodeSplit(c.code, p + |g.code|, [ICopy(g.val, Object(x))], h.code);
      GenMono(e, np, nl);
      var n1, s1 := ExprRun(c, e, np, nl, p, m, s);
      var r := Eval(e, m, false, c.src);
      var v := Read(r.o, r.st);
      GoStore(c, p, s, n1, p + |g.code|, s1, Object(x), v);
      var s2 := WriteVal(Object(x), v, s1);
      WriteObject(r.st, s1, x, v, c.bound, np);
      var n3, s3 := DeclsSim(c, ds[1..], g.np, g.nl, p + |g.code| + 1, WriteSym(r.st, x, v), s2);
      GoOn(c, p, s, n1 + 1, p + |g.code| + 1, s2, n3, p + |g.code| + 1 + |h.code|, s3);
      n, s' := n1 + 1 + n3, s3;
    }
  }

  /** Leaving the innermost loop or switch: its break label stands right before the code of the
      continuation reached. */
  lemma {:induction false} BreakPlaced(c: Ctx, body: Stmt, k: Cont, p: nat, t: nat, m: Store, s: Store)
    requires ValidCtx(c) && KMatch(c, k, p) && KOk(k, body, c.bound) && BrkOf(k) == Some(t) && Agree(m, s, c.bound)
    ensures var q := Lookup(c.code, Lbl(LBreak, t));
            InstrAt(c, q, ILabel(Lbl(LBreak, t))) && Matched(c, body, BreakFrom(k, m), At(q + 1, s))
  {
    hide CodeAt, GenStmt, GenExpr, GenItems, StmtOk, ItemsOk, Lookup, Agree, ResumeAt;
    if k.KSeq? {
      var np: nat, nl: nat :| SeqMatch(c, k, p, np, nl);
      BreakPlaced(c, body, k.k, p + |GenItems(k.rest, np, nl).code|, t, m, s);
    } else {
      var q: nat, np: nat, nl: nat :| FrameMatch(c, k, p, q, np, nl);
      var end := q + |GenStmt(k.s, np, nl).code|;
      if k.KThen? || k.KElse? {
        BreakPlaced(c, body, k.k, end, t, m, s);
      } else {
        LoopEnd(c, k.s, np, nl, q);
        LookupAt(c.code, end - 1, Lbl(LBreak, t));
      }
    }
  }

  /** Loops and switches end with their break label. */
  lemma LoopEnd(c: Ctx, s: Stmt, np: nat, nl: nat, p: nat)
    requires StmtAt(c, s, np, nl, p) && (s.For? || s.While? || s.DoWhile? || s.Switch?)
    ensures |GenStmt(s, np, nl).code| > 0
    ensures InstrAt(c, p + |GenStmt(s, np, nl).code| - 1, ILabel(Lbl(LBreak, IdOf(s))))
  {
    hide CodeAt, GenStmt, GenExpr, ForLayout, GenTests;
    if s.For? {
      ForParts(c, s, np, nl, p);
      ForOrder(s, np, nl, p);
    } else if s.While? { WhileParts(c, s, np, nl, p); }
    else if s.DoWhile? { DoParts(c, s, np, nl, p); }
    else { SwitchParts(c, s, np, nl, p); }
  }

  lemma {:induction false} ContinuePlaced(c: Ctx, body: Stmt, k: Cont, p: nat, t: nat, m: Store, s: Store)
    requires ValidCtx(c) && KMatch(c, k, p) && KOk(k, body, c.bound) && CntOf(k) == Some(t) && Agree(m, s, c.bound)
    ensures var q := Lookup(c.code, Lbl(LContinue, t));
            InstrAt(c, q, ILabel(Lbl(LContinue, t))) && Matched(c, body, ContinueFrom(k, m), At(q, s))
  {
    hide CodeAt, GenStmt, GenExpr, GenItems, StmtOk, ItemsOk, Lookup, Agree, ForLayout, GenTests;
    if k.KSeq? {
      var np: nat, nl: nat :| SeqMatch(c, k, p, np, nl);
      ContinuePlaced(c, body, k.k, p + |GenItems(k.rest, np, nl).code|, t, m, s);
    } else {
      var q: nat, np: nat, nl: nat :| FrameMatch(c, k, p, q, np, nl);
      var end := q + |GenStmt(k.s, np, nl).code|;
      if k.KThen? || k.KElse? || k.KSwitch? {
        ContinuePlaced(c, body, k.k, end, t, m, s);
      } else if k.KWhile? {
        WhileParts(c, k.s, np, nl, q);
        LookupAt(c.code, q, Lbl(LContinue, t));
        assert RunAt(c, k.s, k.k, np, nl, q);
      } else {
        LoopCont(c, k, np, nl, q);
        LookupAt(c.code, p, Lbl(LContinue, t));
      }
    }
  }

  lemma LoopCont(c: Ctx, k: Cont, np: nat, nl: nat, p: nat)
    requires IsFrame(k) && (k.KFor? || k.KDo?) && StmtAt(c, k.s, np, nl, p)
    ensures InstrAt(c, p + ResumeAt(k, np, nl), ILabel(Lbl(LContinue, IdOf(k.s))))
  {
    hide CodeAt, GenStmt, GenExpr, ForLayout, GenTests;
    if k.KFor? {
      ForParts(c, k.s, np, nl, p);
      ForShift(k.s, np, nl, p);
    } else {
      DoParts(c, k.s, np, nl, p);
    }
  }
}
