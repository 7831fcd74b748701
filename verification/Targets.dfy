/** Jump closure: every jump of the code, in dead code too, names a label that is defined exactly once,
    in its own function. */
module Targets {
  import opened Arith
  import opened Ast
  import opened Semantics
  import opened Ir
  import opened IrGen
  import opened StmtParts
  import opened Labels
  import opened Program

  function TargetOf(i: Instr): Option<Lbl> {
    match i
    case IJump(l) => Some(l)
    case IJumpIfZero(_, l) => Some(l)
    case IJumpIfNotZero(_, l) => Some(l)
    case _ => None
  }

  /** Some jump of the code goes to 'l'. */
  predicate JumpsTo(code: seq<Instr>, l: Lbl) {
    code != [] && (TargetOf(code[0]) == Some(l) || JumpsTo(code[1..], l))
  }

  lemma {:induction false} JumpsAppend(a: seq<Instr>, b: seq<Instr>, l: Lbl)
    ensures JumpsTo(a + b, l) <==> JumpsTo(a, l) || JumpsTo(b, l)
  {
    if a == [] {
      assert a + b == b;
    } else {
      assert (a + b)[1..] == a[1..] + b;
      JumpsAppend(a[1..], b, l);
    }
  }

  lemma JumpsOne(i: Instr, l: Lbl)
    ensures JumpsTo([i], l) <==> TargetOf(i) == Some(l)
  {
  }

  lemma JumpsTwo(i: Instr, j: Instr, l: Lbl)
    ensures JumpsTo([i, j], l) <==> TargetOf(i) == Some(l) || TargetOf(j) == Some(l)
  {
    assert [i, j] == [i] + [j];
    JumpsAppend([i], [j], l);
    JumpsOne(i, l);
    JumpsOne(j, l);
  }

  lemma JumpsAppend4(a: seq<Instr>, b: seq<Instr>, c: seq<Instr>, d: seq<Instr>, l: Lbl)
    ensures JumpsTo(a + (b + (c + d)), l) <==> JumpsTo(a, l) || JumpsTo(b, l) || JumpsTo(c, l) || JumpsTo(d, l)
  {
    JumpsAppend(a, b + (c + d), l);
    JumpsAppend(b, c + d, l);
    JumpsAppend(c, d, l);
  }

  lemma {:induction false} JumpsAt(code: seq<Instr>, k: nat)
    requires k < |code| && TargetOf(code[k]).Some?
    ensures JumpsTo(code, TargetOf(code[k]).value)
  {
    if k > 0 { JumpsAt(code[1..], k - 1); }
  }

  /** An expression jumps only to temporary labels that it draws itself. */
  predicate Inside(l: Lbl, nl: nat, nl2: nat) {
    l.kind.LTemp? && nl <= l.id < nl2
  }

  lemma {:induction false} ExprJumps(e: Expr, np: nat, nl: nat, l: Lbl)
    requires JumpsTo(GenExpr(e, np, nl).code, l)
    ensures Inside(l, nl, GenExpr(e, np, nl).nl)
    decreases e, 1
  {
    hide JumpsTo, GenArgs;
    match e
    case Unary(op, a, t) =>
      var g := GenExpr(a, np, nl);
      if !op.Plus? { Straight(g.code, IUnary(op, g.val, Pseudo(t, g.np)), l); }
      ExprJumps(a, np, nl, l);
    case Binary(op, a, b, t) => if IsLogical(op) { LogicalJumps(e, np, nl, l); } else { BinaryJumps(e, np, nl, l); }
    case IncDec(prefix, inc, s) =>
      var i := IBinary(if inc then Add else Sub, Object(s), Const(s.ty, 1), Object(s));
      JumpsOne(i, l);
      JumpsTwo(ICopy(Object(s), Pseudo(s.ty, np)), i, l);
    case Assign(s, a) =>
      var g := GenExpr(a, np, nl);
      Straight(g.code, ICopy(g.val, Object(s)), l);
      ExprJumps(a, np, nl, l);
    case Compound(_, _, _, _) => CompoundJumps(e, np, nl, l);
    case Conditional(_, _, _, _) => ConditionalJumps(e, np, nl, l);
    case Call(fn, _, args, t) =>
      var g := GenArgs(args, np, nl);
      Straight(g.code, ICall(fn, g.vals, if t.Void? then NoValue else Pseudo(t, g.np)), l);
      ArgsJumps(args, np, nl, l);
    case Cast(t, a) =>
      var g := GenExpr(a, np, nl);
      if !t.Void? { ConvertJumps(g.val, t, g.np, g.nl, g.code, l); }
      ExprJumps(a, np, nl, l);
    case IntConst(_) => NoJumps(l);
    case LongConst(_) => NoJumps(l);
    case Ident(_) => NoJumps(l);
  }

  lemma NoJumps(l: Lbl)
    ensures !JumpsTo([], l)
  {
  }

  lemma Straight(code: seq<Instr>, i: Instr, l: Lbl)
    requires TargetOf(i).None?
    ensures JumpsTo(code + [i], l) <==> JumpsTo(code, l)
  {
    JumpsAppend(code, [i], l);
    JumpsOne(i, l);
  }

  lemma ConvertJumps(v: Value, t: Ty, np: nat, nl: nat, code: seq<Instr>, l: Lbl)
    ensures JumpsTo(code + GenConvert(v, t, np, nl).code, l) <==> JumpsTo(code, l)
    ensures !JumpsTo(GenConvert(v, t, np, nl).code, l) && GenConvert(v, t, np, nl).nl == nl
  {
    var conv := GenConvert(v, t, np, nl).code;
    JumpsAppend(code, conv, l);
    if conv != [] { JumpsOne(conv[0], l); }
  }

  lemma {:induction false} BinaryJumps(e: Expr, np: nat, nl: nat, l: Lbl)
    requires e.Binary? && !IsLogical(e.bop) && JumpsTo(GenExpr(e, np, nl).code, l)
    ensures Inside(l, nl, GenExpr(e, np, nl).nl)
    decreases e, 0
  {
    hide JumpsTo, GenExpr;
    BinaryCode(e, np, nl);
    var g := GenExpr(e.left, np, nl);
    var h := GenExpr(e.right, g.np, g.nl);
    var i := IBinary(e.bop, g.val, h.val, Pseudo(e.ty, h.np));
    JumpsAppend(g.code, h.code + [i], l);
    Straight(h.code, i, l);
    LabelsMono(e.left, np, nl);
    LabelsMono(e.right, g.np, g.nl);
    if JumpsTo(g.code, l) { ExprJumps(e.left, np, nl, l); } else { ExprJumps(e.right, g.np, g.nl, l); }
  }

  lemma LabelsMono(e: Expr, np: nat, nl: nat)
    ensures GenExpr(e, np, nl).nl >= nl
  {
    ExprLabels(e, np, nl, Temp(0));
  }

  lemma {:induction false} CompoundJumps(e: Expr, np: nat, nl: nat, l: Lbl)
    requires e.Compound? && JumpsTo(GenExpr(e, np, nl).code, l)
    ensures Inside(l, nl, GenExpr(e, np, nl).nl)
    decreases e, 0
  {
    hide JumpsTo, GenExpr, GenConvert;
    CompoundCode(e, np, nl);
    var g := GenExpr(e.rvalue, np, nl);
    var x := Object(e.sym);
    var left := GenConvert(x, e.opTy, g.np, g.nl);
    var result := Pseudo(e.opTy, left.np);
    var op := IBinary(e.bop, left.val, g.val, result);
    var back := GenConvert(result, e.sym.ty, left.np + 1, left.nl);
    ConvertJumps(x, e.opTy, g.np, g.nl, [], l);
    ConvertJumps(result, e.sym.ty, left.np + 1, left.nl, [], l);
    JumpsOne(op, l);
    JumpsAppend4(g.code, left.code, [op], back.code + [ICopy(back.val, x)], l);
    Straight(back.code, ICopy(back.val, x), l);
    ExprJumps(e.rvalue, np, nl, l);
  }

  lemma {:induction false} LogicalJumps(e: Expr, np: nat, nl: nat, l: Lbl)
    requires e.Binary? && IsLogical(e.bop) && JumpsTo(GenExpr(e, np, nl).code, l)
    ensures Inside(l, nl, GenExpr(e, np, nl).nl)
    decreases e, 0
  {
    hide JumpsTo, GenExpr;
    LogicalCode(e, np, nl);
    var g := GenExpr(e.left, np + 1, nl + 2);
    var h := GenExpr(e.right, g.np, g.nl);
    LabelsMono(e.left, np + 1, nl + 2);
    LabelsMono(e.right, g.np, g.nl);
    var j1, j2 := ShortJump(e.bop, g.val, nl), ShortJump(e.bop, h.val, nl);
    var tail := ShortTail(e.bop, Pseudo(e.ty, np), nl);
    JumpsAppend(g.code + j1, h.code + (j2 + tail), l);
    JumpsAppend(g.code, j1, l);
    JumpsAppend(h.code, j2 + tail, l);
    JumpsAppend(j2, tail, l);
    JumpsOne(j1[0], l);
    JumpsOne(j2[0], l);
    if JumpsTo(g.code, l) { ExprJumps(e.left, np + 1, nl + 2, l); }
    else if JumpsTo(h.code, l) { ExprJumps(e.right, g.np, g.nl, l); }
    else if JumpsTo(tail, l) { TailJumps(e.bop, Pseudo(e.ty, np), nl, l); }
  }

  lemma TailJumps(op: BinOp, d: Value, nl: nat, l: Lbl)
    requires JumpsTo(ShortTail(op, d, nl), l)
    ensures Inside(l, nl, nl + 2)
  {
    hide JumpsTo;
    var t := ShortTail(op, d, nl);
    assert t == [t[0], t[1]] + ([t[2], t[3]] + [t[4]]);
    JumpsAppend([t[0], t[1]], [t[2], t[3]] + [t[4]], l);
    JumpsAppend([t[2], t[3]], [t[4]], l);
    JumpsTwo(t[0], t[1], l);
    JumpsTwo(t[2], t[3], l);
    JumpsOne(t[4], l);
  }

  lemma CopyJumps(v: Value, d: Value, l: Lbl)
    ensures !JumpsTo(CopyTo(v, d), l)
  {
    JumpsOne(ICopy(v, d), l);
  }

  lemma {:induction false} ConditionalJumps(e: Expr, np: nat, nl: nat, l: Lbl)
    requires e.Conditional? && JumpsTo(GenExpr(e, np, nl).code, l)
    ensures Inside(l, nl, GenExpr(e, np, nl).nl)
    decreases e, 0
  {
    hide JumpsTo, GenExpr, CopyTo;
    ConditionalCode(e, np, nl);
    var dst, np0 := CondDst(e, np), CondNp(e, np);
    var gc := GenExpr(e.cond, np0, nl + 2);
    var ga := GenExpr(e.thn, gc.np, gc.nl);
    var gb := GenExpr(e.els, ga.np, ga.nl);
    LabelsMono(e.cond, np0, nl + 2);
    LabelsMono(e.thn, gc.np, gc.nl);
    LabelsMono(e.els, ga.np, ga.nl);
    var j, mid, end := [IJumpIfZero(gc.val, Temp(nl))], [IJump(Temp(nl + 1)), ILabel(Temp(nl))], [ILabel(Temp(nl + 1))];
    var ca, cb := CopyTo(ga.val, dst), CopyTo(gb.val, dst);
    var rest := mid + (gb.code + (cb + end));
    JumpsAppend4(gc.code, j, ga.code, ca + rest, l);
    JumpsAppend(ca, rest, l);
    JumpsAppend4(mid, gb.code, cb, end, l);
    CopyJumps(ga.val, dst, l);
    CopyJumps(gb.val, dst, l);
    JumpsOne(j[0], l);
    JumpsTwo(mid[0], mid[1], l);
    JumpsOne(end[0], l);
    if JumpsTo(gc.code, l) { ExprJumps(e.cond, np0, nl + 2, l); }
    else if JumpsTo(ga.code, l) { ExprJumps(e.thn, gc.np, gc.nl, l); }
    else if JumpsTo(gb.code, l) { ExprJumps(e.els, ga.np, ga.nl, l); }
  }

  lemma {:induction false} ArgsJumps(args: seq<Expr>, np: nat, nl: nat, l: Lbl)
    requires JumpsTo(GenArgs(args, np, nl).code, l)
    ensures Inside(l, nl, GenArgs(args, np, nl).nl)
    decreases args, 0
  {
    hide GenExpr;
    if args != [] {
      var g := GenExpr(args[0], np, nl);
      LabelsMono(args[0], np, nl);
      ArgsLabels(args[1..], g.np, g.nl, l);
      JumpsAppend(g.code, GenArgs(args[1..], g.np, g.nl).code, l);
      if JumpsTo(g.code, l) { ExprJumps(args[0], np, nl, l); } else { ArgsJumps(args[1..], g.np, g.nl, l); }
    }
  }

  lemma {:induction false} DeclsJumps(ds: seq<Decl>, np: nat, nl: nat, l: Lbl)
    requires JumpsTo(GenDecls(ds, np, nl).code, l)
    ensures Inside(l, nl, GenDecls(ds, np, nl).nl)
  {
    hide GenExpr;
    if ds != [] {
      if !ds[0].isObject || !ds[0].isAuto || ds[0].init.None? {
        DeclsJumps(ds[1..], np, nl, l);
      } else {
        var g := GenExpr(ds[0].init.value, np, nl);
        var h := GenDecls(ds[1..], g.np, g.nl);
        var i := ICopy(g.val, Object(ds[0].sym));
        LabelsMono(ds[0].init.value, np, nl);
        DeclsLabels(ds[1..], g.np, g.nl, l);
        JumpsAppend(g.code, [i] + h.code, l);
        JumpsAppend([i], h.code, l);
        JumpsOne(i, l);
        if JumpsTo(g.code, l) { ExprJumps(ds[0].init.value, np, nl, l); } else { DeclsJumps(ds[1..], g.np, g.nl, l); }
      }
    }
  }

  lemma OptionalJumps(e: Option<Expr>, np: nat, nl: nat, l: Lbl)
    requires JumpsTo(GenOptional(e, np, nl).code, l)
    ensures Inside(l, nl, GenOptional(e, np, nl).nl)
  {
    if e.Some? { ExprJumps(e.value, np, nl, l); }
  }

  lemma {:induction false} TestsJumps(cases: seq<CaseRef>, v: Value, np: nat, l: Lbl) returns (k: nat)
    requires JumpsTo(GenTests(cases, v, np), l)
    ensures k < |cases| && l == Lbl(LCase, cases[k].id)
  {
    var i := IBinary(Eq, v, Const(TyOf(v), cases[0].value), Pseudo(Int, np));
    var j := IJumpIfNotZero(Pseudo(Int, np), Lbl(LCase, cases[0].id));
    JumpsAppend([i, j], GenTests(cases[1..], v, np + 1), l);
    JumpsTwo(i, j, l);
    if l == Lbl(LCase, cases[0].id) { return 0; }
    k := TestsJumps(cases[1..], v, np + 1, l);
    k := k + 1;
  }

  /** Every case a switch lists is marked in its body. */
  lemma {:induction false} CaseDefined(s: Stmt, k: nat)
    requires k < |CaseList(s)|
    ensures Defines(s, Lbl(LCase, CaseList(s)[k].id)) >= 1
    decreases s, 1
  {
    match s
    case Block(items) => CaseDefinedItems(items, k);
    case If(_, a, b) => if k < |CaseList(a)| { CaseDefined(a, k); } else { CaseDefined(b.value, k - |CaseList(a)|); }
    case For(_, _, _, _, b) => CaseDefined(b, k);
    case While(_, _, b) => CaseDefined(b, k);
    case DoWhile(_, _, b) => CaseDefined(b, k);
    case Case(_, _, _, b) => if k > 0 { CaseDefined(b, k - 1); }
    case Default(_, b) => CaseDefined(b, k);
    case Label(_, _, b) => CaseDefined(b, k);
  }

  lemma {:induction false} CaseDefinedItems(items: seq<Stmt>, k: nat)
    requires k < |CaseListItems(items)|
    ensures DefinesInItems(items, Lbl(LCase, CaseListItems(items)[k].id)) >= 1
    decreases items, 0
  {
    var n := |CaseList(items[0])|;
    if k < n { CaseDefined(items[0], k); } else { CaseDefinedItems(items[1..], k - n); }
  }

  lemma {:induction false} DefaultDefined(s: Stmt)
    requires DefaultOf(s).Some?
    ensures Defines(s, Lbl(LCase, DefaultOf(s).value)) >= 1
    decreases s, 1
  {
    match s
    case Block(items) => DefaultDefinedItems(items);
    case If(_, a, b) => if DefaultOf(a).Some? { DefaultDefined(a); } else { DefaultDefined(b.value); }
    case For(_, _, _, _, b) => DefaultDefined(b);
    case While(_, _, b) => DefaultDefined(b);
    case DoWhile(_, _, b) => DefaultDefined(b);
    case Case(_, _, _, b) => DefaultDefined(b);
    case Default(_, _) =>
    case Label(_, _, b) => DefaultDefined(b);
  }

  lemma {:induction false} DefaultDefinedItems(items: seq<Stmt>)
    requires DefaultOfItems(items).Some?
    ensures DefinesInItems(items, Lbl(LCase, DefaultOfItems(items).value)) >= 1
    decreases items, 0
  {
    if DefaultOf(items[0]).Some? { DefaultDefined(items[0]); } else { DefaultDefinedItems(items[1..]); }
  }

  /** The label a 'goto' finds is defined. */
  lemma {:induction false} FoundDefined(s: Stmt, k: Cont, n: string)
    requires Find(s, k, ByName(n)).Some?
    ensures Defines(s, Lbl(LUser, IdOf(Find(s, k, ByName(n)).value.0))) >= 1
    decreases s, 1
  {
    match s
    case Block(items) => FoundDefinedItems(items, k, n);
    case If(_, a, b) =>
      if Find(a, KThen(s, k), ByName(n)).Some? { FoundDefined(a, KThen(s, k), n); } else { FoundDefined(b.value, KElse(s, k), n); }
    case For(_, _, _, _, b) => FoundDefined(b, KFor(s, k), n);
    case While(_, _, b) => FoundDefined(b, KWhile(s, k), n);
    case DoWhile(_, _, b) => FoundDefined(b, KDo(s, k), n);
    case Switch(_, _, b, _, _) => FoundDefined(b, KSwitch(s, k), n);
    case Case(_, _, _, b) => FoundDefined(b, k, n);
    case Default(_, b) => FoundDefined(b, k, n);
    case Label(_, l, b) => if l != n { FoundDefined(b, k, n); }
  }

  lemma {:induction false} FoundDefinedItems(items: seq<Stmt>, k: Cont, n: string)
    requires FindItems(items, k, ByName(n)).Some?
    ensures DefinesInItems(items, Lbl(LUser, IdOf(FindItems(items, k, ByName(n)).value.0))) >= 1
    decreases items, 0
  {
    if Find(items[0], KSeq(items[1..], k), ByName(n)).Some? {
      FoundDefined(items[0], KSeq(items[1..], k), n);
    } else {
      FoundDefinedItems(items[1..], k, n);
    }
  }

  /** A label that the surroundings of a statement define. */
  predicate Outer(l: Lbl, j: Jumps) {
    match l.kind
    case LBreak => j.brk == Some(l.id)
    case LContinue => j.cnt == Some(l.id)
    case LUser => Defines(j.body, l) >= 1
    case _ => false
  }

  /** A label that the code of 's' may jump to. */
  predicate Aimed(l: Lbl, s: Stmt, j: Jumps, nl: nat, nl2: nat) {
    if l.kind.LTemp? then Inside(l, nl, nl2) else Defines(s, l) >= 1 || Outer(l, j)
  }

  lemma {:induction false} StmtJumps(s: Stmt, j: Jumps, bound: nat, np: nat, nl: nat, l: Lbl)
    requires StmtOk(s, j, bound) && JumpsTo(GenStmt(s, np, nl).code, l)
    ensures Aimed(l, s, j, nl, GenStmt(s, np, nl).nl)
    decreases s, 1
  {
    hide GenExpr, JumpsTo, GenDecls, ExprOk, CondOk, DeclsOk, Find;
    match s
    case Null => NoJumps(l);
    case ExprStmt(e) => ExprJumps(e, np, nl, l);
    case DeclStmt(ds) => DeclsJumps(ds, np, nl, l);
    case Block(items) => ItemsJumps(items, j, bound, np, nl, l);
    case Return(e) =>
      var g := GenOptional(e, np, nl);
      Straight(g.code, IReturn(g.val), l);
      OptionalJumps(e, np, nl, l);
    case If(_, _, _) => IfJumps(s, j, bound, np, nl, l);
    case For(_, _, _, _, _) => ForJumps(s, j, bound, np, nl, l);
    case While(_, _, _) => WhileJumps(s, j, bound, np, nl, l);
    case DoWhile(_, _, _) => DoJumps(s, j, bound, np, nl, l);
    case Switch(_, _, _, _, _) => SwitchJumps(s, j, bound, np, nl, l);
    case Case(_, _, _, _) => MarkedJumps(s, j, bound, np, nl, l);
    case Default(_, _) => MarkedJumps(s, j, bound, np, nl, l);
    case Label(_, _, _) => MarkedJumps(s, j, bound, np, nl, l);
    case Break(t) => JumpsOne(IJump(Lbl(LBreak, t)), l);
    case Continue(t) => JumpsOne(IJump(Lbl(LContinue, t)), l);
    case Goto(n, t) =>
      JumpsOne(IJump(Lbl(LUser, t)), l);
      FoundDefined(j.body, KStop, n);
  }

  lemma {:induction false} ItemsJumps(items: seq<Stmt>, j: Jumps, bound: nat, np: nat, nl: nat, l: Lbl)
    requires ItemsOk(items, j, bound) && JumpsTo(GenItems(items, np, nl).code, l)
    ensures if l.kind.LTemp? then Inside(l, nl, GenItems(items, np, nl).nl) else DefinesInItems(items, l) >= 1 || Outer(l, j)
    decreases items, 0
  {
    hide StmtOk, GenStmt;
    if items != [] {
      var g := GenStmt(items[0], np, nl);
      StmtLabels(items[0], np, nl, l);
      ItemsLabels(items[1..], g.np, g.nl, l);
      JumpsAppend(g.code, GenItems(items[1..], g.np, g.nl).code, l);
      if JumpsTo(g.code, l) { StmtJumps(items[0], j, bound, np, nl, l); } else { ItemsJumps(items[1..], j, bound, g.np, g.nl, l); }
    }
  }

  lemma {:induction false} MarkedJumps(s: Stmt, j: Jumps, bound: nat, np: nat, nl: nat, l: Lbl)
    requires (s.Case? || s.Default? || s.Label?) && StmtOk(s, j, bound) && JumpsTo(GenStmt(s, np, nl).code, l)
    ensures Aimed(l, s, j, nl, GenStmt(s, np, nl).nl)
    decreases s, 0
  {
    hide JumpsTo, Find;
    var i := ILabel(MarkOf(s));
    JumpsAppend([i], GenStmt(s.stmt, np, nl).code, l);
    JumpsOne(i, l);
    StmtJumps(s.stmt, j, bound, np, nl, l);
  }

  lemma {:induction false} IfJumps(s: Stmt, j: Jumps, bound: nat, np: nat, nl: nat, l: Lbl)
    requires s.If? && StmtOk(s, j, bound) && JumpsTo(GenStmt(s, np, nl).code, l)
    ensures Aimed(l, s, j, nl, GenStmt(s, np, nl).nl)
    decreases s, 0
  {
    hide JumpsTo, GenExpr, GenStmt, Find, CondOk;
    var gc := GenExpr(s.cond, np, nl);
    LabelsMono(s.cond, np, nl);
    if s.els.None? {
      var ga := GenStmt(s.thn, gc.np, gc.nl + 1);
      StmtLabels(s.thn, gc.np, gc.nl + 1, l);
      var b, end := IJumpIfZero(gc.val, Temp(gc.nl)), ILabel(Temp(gc.nl));
      IfPlainGen(s, np, nl);
      JumpsAppend4(gc.code, [b], ga.code, [end], l);
      JumpsOne(b, l);
      JumpsOne(end, l);
      if JumpsTo(gc.code, l) { ExprJumps(s.cond, np, nl, l); }
      else if JumpsTo(ga.code, l) { StmtJumps(s.thn, j, bound, gc.np, gc.nl + 1, l); }
    } else {
      var ga := GenStmt(s.thn, gc.np, gc.nl + 2);
      var gb := GenStmt(s.els.value, ga.np, ga.nl);
      StmtLabels(s.thn, gc.np, gc.nl + 2, l);
      StmtLabels(s.els.value, ga.np, ga.nl, l);
      var b, end := IJumpIfZero(gc.val, Temp(gc.nl + 1)), ILabel(Temp(gc.nl));
      var mid := [IJump(Temp(gc.nl)), ILabel(Temp(gc.nl + 1))];
      IfElseGen(s, np, nl);
      JumpsAppend4(gc.code, [b], ga.code, mid + (gb.code + [end]), l);
      JumpsAppend(mid, gb.code + [end], l);
      JumpsAppend(gb.code, [end], l);
      JumpsTwo(mid[0], mid[1], l);
      JumpsOne(b, l);
      JumpsOne(end, l);
      if JumpsTo(gc.code, l) { ExprJumps(s.cond, np, nl, l); }
      else if JumpsTo(ga.code, l) { StmtJumps(s.thn, j, bound, gc.np, gc.nl + 2, l); }
      else if JumpsTo(gb.code, l) { StmtJumps(s.els.value, j, bound, ga.np, ga.nl, l); }
    }
  }

  lemma {:induction false} WhileJumps(s: Stmt, j: Jumps, bound: nat, np: nat, nl: nat, l: Lbl)
    requires s.While? && StmtOk(s, j, bound) && JumpsTo(GenStmt(s, np, nl).code, l)
    ensures Aimed(l, s, j, nl, GenStmt(s, np, nl).nl)
    decreases s, 0
  {
    hide JumpsTo, GenExpr, GenStmt, Find, CondOk;
    WhileGen(s, np, nl);
    var gc := GenExpr(s.cond, np, nl);
    var gb := GenStmt(s.body, gc.np, gc.nl);
    LabelsMono(s.cond, np, nl);
    StmtLabels(s.body, gc.np, gc.nl, l);
    var start, b := ILabel(Lbl(LContinue, s.id)), IJumpIfZero(gc.val, Lbl(LBreak, s.id));
    var e1, e2 := IJump(Lbl(LContinue, s.id)), ILabel(Lbl(LBreak, s.id));
    JumpsAppend4([start], gc.code, [b], gb.code + [e1, e2], l);
    JumpsAppend(gb.code, [e1, e2], l);
    JumpsTwo(e1, e2, l);
    JumpsOne(start, l);
    JumpsOne(b, l);
    if JumpsTo(gc.code, l) { ExprJumps(s.cond, np, nl, l); }
    else if JumpsTo(gb.code, l) { StmtJumps(s.body, j.(brk := Some(s.id), cnt := Some(s.id)), bound, gc.np, gc.nl, l); }
  }

  lemma {:induction false} DoJumps(s: Stmt, j: Jumps, bound: nat, np: nat, nl: nat, l: Lbl)
    requires s.DoWhile? && StmtOk(s, j, bound) && JumpsTo(GenStmt(s, np, nl).code, l)
    ensures Aimed(l, s, j, nl, GenStmt(s, np, nl).nl)
    decreases s, 0
  {
    hide JumpsTo, GenExpr, GenStmt, Find, CondOk;
    DoGen(s, np, nl);
    var gb := GenStmt(s.body, np, nl + 1);
    var gc := GenExpr(s.cond, gb.np, gb.nl);
    StmtLabels(s.body, np, nl + 1, l);
    LabelsMono(s.cond, gb.np, gb.nl);
    var start, mid := ILabel(Temp(nl)), ILabel(Lbl(LContinue, s.id));
    var e1, e2 := IJumpIfNotZero(gc.val, Temp(nl)), ILabel(Lbl(LBreak, s.id));
    JumpsAppend4([start], gb.code, [mid], gc.code + [e1, e2], l);
    JumpsAppend(gc.code, [e1, e2], l);
    JumpsTwo(e1, e2, l);
    JumpsOne(start, l);
    JumpsOne(mid, l);
    if JumpsTo(gc.code, l) { ExprJumps(s.cond, gb.np, gb.nl, l); }
    else if JumpsTo(gb.code, l) { StmtJumps(s.body, j.(brk := Some(s.id), cnt := Some(s.id)), bound, np, nl + 1, l); }
  }

  lemma {:induction false} SwitchJumps(s: Stmt, j: Jumps, bound: nat, np: nat, nl: nat, l: Lbl)
    requires s.Switch? && StmtOk(s, j, bound) && JumpsTo(GenStmt(s, np, nl).code, l)
    ensures Aimed(l, s, j, nl, GenStmt(s, np, nl).nl)
    decreases s, 0
  {
    hide JumpsTo, GenExpr, GenStmt, GenTests, Find, CondOk, CaseList, DefaultOf;
    SwitchGen(s, np, nl);
    var gc := GenExpr(s.cond, np, nl);
    var gb := GenStmt(s.body, gc.np + |s.cases|, gc.nl);
    var tests := GenTests(s.cases, gc.val, gc.np);
    LabelsMono(s.cond, np, nl);
    StmtLabels(s.body, gc.np + |s.cases|, gc.nl, l);
    var b, end := IJump(SwitchElse(s.id, s.dflt)), ILabel(Lbl(LBreak, s.id));
    JumpsAppend4(gc.code, tests, [b], gb.code + [end], l);
    JumpsAppend(gb.code, [end], l);
    JumpsOne(b, l);
    JumpsOne(end, l);
    if JumpsTo(gc.code, l) { ExprJumps(s.cond, np, nl, l); }
    else if JumpsTo(tests, l) {
      var k := TestsJumps(s.cases, gc.val, gc.np, l);
      CaseDefined(s.body, k);
    } else if JumpsTo(gb.code, l) {
      StmtJumps(s.body, j.(brk := Some(s.id)), bound, gc.np + |s.cases|, gc.nl, l);
    } else if s.dflt.Some? {
      DefaultDefined(s.body);
    }
  }

  lemma {:induction false} ForJumps(s: Stmt, j: Jumps, bound: nat, np: nat, nl: nat, l: Lbl)
    requires s.For? && StmtOk(s, j, bound) && JumpsTo(GenStmt(s, np, nl).code, l)
    ensures Aimed(l, s, j, nl, GenStmt(s, np, nl).nl)
    decreases s, 0
  {
    hide JumpsTo, GenOptional, GenStmt, Find, CondOk, ExprOk, ExitTest;
    ForGen(s, np, nl);
    var f := ForLayout(s, np, nl, 0);
    StmtLabels(s.init, np, nl + 1, l);
    OptionalLabels(s.test, f.gi.np, f.gi.nl, l);
    StmtLabels(s.body, f.gt.np, f.gt.nl, l);
    OptionalLabels(s.post, f.gb.np, f.gb.nl, l);
    var start, mid := ILabel(Temp(nl)), ILabel(Lbl(LContinue, s.id));
    var e1, e2 := IJump(Temp(nl)), ILabel(Lbl(LBreak, s.id));
    var ex := ExitTest(s.test, f.gt.val, s.id);
    ExitJumps(s.test, f.gt.val, s.id, l);
    JumpsAppend4(f.gi.code, [start], f.gt.code, ex + (f.gb.code + ([mid] + (f.gp.code + [e1, e2]))), l);
    JumpsAppend4(ex, f.gb.code, [mid], f.gp.code + [e1, e2], l);
    JumpsAppend(f.gp.code, [e1, e2], l);
    JumpsTwo(e1, e2, l);
    JumpsOne(start, l);
    JumpsOne(mid, l);
    if JumpsTo(f.gi.code, l) { StmtJumps(s.init, j.(brk := None, cnt := None), bound, np, nl + 1, l); }
    else if JumpsTo(f.gt.code, l) { OptionalJumps(s.test, f.gi.np, f.gi.nl, l); }
    else if JumpsTo(f.gb.code, l) { StmtJumps(s.body, j.(brk := Some(s.id), cnt := Some(s.id)), bound, f.gt.np, f.gt.nl, l); }
    else if JumpsTo(f.gp.code, l) { OptionalJumps(s.post, f.gb.np, f.gb.nl, l); }
  }

  lemma ExitJumps(t: Option<Expr>, v: Value, id: nat, l: Lbl)
    ensures JumpsTo(ExitTest(t, v, id), l) ==> l == Lbl(LBreak, id)
  {
    JumpsOne(IJumpIfZero(v, Lbl(LBreak, id)), l);
  }

  /** Jump closure: every jump of a function's code finds its label in the code, exactly once. */
  lemma JumpsClosed(body: Stmt, ret: Ty, np: nat, nl: nat, k: nat)
    requires BodyOk(body, np)
    requires var code := GenFunction(body, ret, np, nl).code; k < |code| && TargetOf(code[k]).Some?
    ensures var code := GenFunction(body, ret, np, nl).code; Count(code, TargetOf(code[k]).value) == 1
  {
    hide GenStmt, StmtOk, JumpsTo, Count;
    var g := GenStmt(body, np, nl);
    var code := GenFunction(body, ret, np, nl).code;
    var l := TargetOf(code[k]).value;
    JumpsAt(code, k);
    Straight(g.code, code[|g.code|], l);
    StmtJumps(body, Jumps(None, None, body), np, np, nl, l);
    StmtLabels(body, np, nl, l);
    FunctionLabels(body, ret, np, nl);
    CountPlain(g.code, code[|g.code|], l);
  }

  /** The code of the first 'n' functions, one after the other, as it is printed. */
  function File(prog: seq<Fn>, n: nat, np: nat, nl: nat): seq<Instr>
    requires n <= |prog|
  {
    if n == 0 then [] else File(prog, n - 1, np, nl) + CodeOf(prog, n - 1, np, nl)
  }

  /** The number of definitions of 'l' in the whole file. */
  lemma {:induction false} FileCount(prog: seq<Fn>, n: nat, np: nat, nl: nat, l: Lbl)
    requires n <= |prog|
    ensures StartOf(prog, n, np, nl).1 >= nl
    ensures Count(File(prog, n, np, nl), l) <=
            if l.kind.LTemp? then Drawn(l, nl, StartOf(prog, n, np, nl).1) else IdTotal(prog, n, l.id)
  {
    hide GenStmt, Count;
    if n == 0 {
      CountNone(l);
    } else {
      FileCount(prog, n - 1, np, nl, l);
      var (a, b) := StartOf(prog, n - 1, np, nl);
      var f := prog[n - 1];
      var g := GenStmt(f.body, a, b);
      var code := CodeOf(prog, n - 1, np, nl);
      CountAppend(File(prog, n - 1, np, nl), code, l);
      CountPlain(g.code, code[|g.code|], l);
      StmtLabels(f.body, a, b, l);
      DefinesBound(f.body, l);
    }
  }

  /** Labels are names of the whole file: no label is defined twice in it. */
  lemma FileLabels(prog: seq<Fn>, np: nat, nl: nat)
    requires NumberedApart(prog)
    ensures UniqueLabels(File(prog, |prog|, np, nl))
  {
    hide Count, IdTotal, File, StartOf;
    forall l ensures Count(File(prog, |prog|, np, nl), l) <= 1 {
      FileCount(prog, |prog|, np, nl, l);
      assert IdTotal(prog, |prog|, l.id) <= 1;
    }
  }
}
