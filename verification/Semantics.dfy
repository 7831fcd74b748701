/** Meaning of the analysed program: expressions evaluate left to right, statements run as a
    small-step machine over a continuation, so that a jump may enter or leave any statement. */
module Semantics {
  import opened Arith
  import opened Ast

  /** A call of a function defined outside the program. */
  datatype Event = Event(fn: nat, args: seq<int>, result: int)

  /** Automatic objects, static objects, and the outside calls made so far. An object outside the
      map reads as 0; objects never assigned keep whatever the initial map holds. */
  datatype Store = Store(locals: map<nat, int>, statics: map<nat, int>, trace: seq<Event>)

  function Local(s: Store, id: nat): int {
    if id in s.locals then s.locals[id] else 0
  }

  function Static(s: Store, id: nat): int {
    if id in s.statics then s.statics[id] else 0
  }

  function ReadSym(s: Store, sym: Symbol): int {
    if sym.isStatic then Static(s, sym.id) else Local(s, sym.id)
  }

  function WriteSym(s: Store, sym: Symbol, v: int): Store {
    if sym.isStatic then s.(statics := s.statics[sym.id := v]) else s.(locals := s.locals[sym.id := v])
  }

  /** What a called function does, given its arguments, the static objects and the outside calls
      so far: its result and what it leaves of them. None: it does not return. */
  datatype CallResult = CallResult(result: int, statics: map<nat, int>, trace: seq<Event>)
  type Callees = (nat, seq<int>, map<nat, int>, seq<Event>) -> Option<CallResult>

  /** A call of 'fn'; None when it does not return. */
  function DoCall(s: Store, fn: nat, args: seq<int>, callees: Callees): Option<(int, Store)> {
    match callees(fn, args, s.statics, s.trace)
    case None => None
    case Some(r) => Some((r.result, s.(statics := r.statics, trace := r.trace)))
  }

  function UnaryValue(op: UnOp, v: int, w: Width): int {
    match op
    case Plus => v
    case Neg => Wrap(-v, w)
    case BitNot => Wrap(-v - 1, w)
    case LogNot => if v == 0 then 1 else 0
  }

  function Truth(b: bool): int {
    if b then 1 else 0
  }

  /** Signed overflow wraps; division by zero, the overflowing quotient and shift counts outside
      the width have no value. */
  function BinaryValue(op: BinOp, a: int, b: int, w: Width): Option<int> {
    match op
    case Add => Some(Wrap(a + b, w))
    case Sub => Some(Wrap(a - b, w))
    case Mul => Some(Wrap(a * b, w))
    case Div => if b == 0 || !InRange(TruncDiv(a, b), w) then None else Some(TruncDiv(a, b))
    case Rem => if b == 0 || !InRange(TruncDiv(a, b), w) then None else Some(TruncRem(a, b))
    case And => Some(Wrap(Bitwise(BitAnd, a, b, Bits(w)), w))
    case Or => Some(Wrap(Bitwise(BitOr, a, b, Bits(w)), w))
    case Xor => Some(Wrap(Bitwise(BitXor, a, b, Bits(w)), w))
    case Shl => if 0 <= b < Bits(w) then Some(Wrap(a * Pow2(b), w)) else None
    case Shr => if 0 <= b < Bits(w) then Some(a / Pow2(b)) else None
    case Eq => Some(Truth(a == b))
    case Ne => Some(Truth(a != b))
    case Lt => Some(Truth(a < b))
    case Le => Some(Truth(a <= b))
    case Gt => Some(Truth(a > b))
    case Ge => Some(Truth(a >= b))
    case LogAnd => Some(Truth(a != 0 && b != 0))
    case LogOr => Some(Truth(a != 0 || b != 0))
  }

  /** An evaluated subexpression: a value, or an object whose value is fetched when it is consumed. */
  datatype Operand = Val(v: int) | Var(sym: Symbol)

  function Read(o: Operand, s: Store): int {
    match o case Val(v) => v case Var(sym) => ReadSym(s, sym)
  }

  /** When 'early', an object is fetched as soon as it is evaluated. */
  function Settle(o: Operand, s: Store, early: bool): Operand {
    if early then Val(Read(o, s)) else o
  }

  datatype Result = Stuck | Ok(o: Operand, st: Store)
  datatype Results = StuckArgs | OkArgs(os: seq<Operand>, st: Store)

  /** Left-to-right evaluation. 'early' is the value semantics of C. Without it, an operand that is
      an object is fetched only when the operation that needs it runs. */
  function Eval(e: Expr, m: Store, early: bool, callees: Callees): Result
    decreases e, 1
  {
    match e
    case IntConst(v) => Ok(Val(v), m)
    case LongConst(v) => Ok(Val(v), m)
    case Ident(s) => Ok(Settle(Var(s), m, early), m)
    case Unary(op, a, t) =>
      var r := Eval(a, m, early, callees);
      if r.Stuck? || op.Plus? then r
      else Ok(Val(UnaryValue(op, Read(r.o, r.st), WidthOf(t))), r.st)
    case Binary(op, a, b, t) =>
      var l := Eval(a, m, early, callees);
      if l.Stuck? then Stuck
      else if IsLogical(op) && (Read(l.o, l.st) == 0) == op.LogAnd? then
        Ok(Val(Truth(op.LogOr?)), l.st)
      else
        var r := Eval(b, l.st, early, callees);
        if r.Stuck? then Stuck
        else if IsLogical(op) then Ok(Val(Truth(Read(r.o, r.st) != 0)), r.st)
        else
          var v := BinaryValue(op, Read(l.o, r.st), Read(r.o, r.st), WidthOf(if IsCompare(op) then TypeOf(a) else t));
          if v.None? then Stuck else Ok(Val(v.value), r.st)
    case IncDec(prefix, inc, s) =>
      var was := ReadSym(m, s);
      var m' := WriteSym(m, s, Wrap(if inc then was + 1 else was - 1, WidthOf(s.ty)));
      Ok(if prefix then Settle(Var(s), m', early) else Val(was), m')
    case Assign(s, a) =>
      var r := Eval(a, m, early, callees);
      if r.Stuck? then Stuck else
      var m' := WriteSym(r.st, s, Read(r.o, r.st));
      Ok(Settle(Var(s), m', early), m')
    case Compound(op, t, s, a) =>
      var l := Settle(Var(s), m, early);
      var r := Eval(a, m, early, callees);
      if r.Stuck? then Stuck else
      var v := BinaryValue(op, ConvertFrom(Read(l, r.st), s.ty, t), Read(r.o, r.st), WidthOf(t));
      if v.None? then Stuck else
      var m' := WriteSym(r.st, s, ConvertFrom(v.value, t, s.ty));
      Ok(Settle(Var(s), m', early), m')
    case Conditional(c, a, b, t) =>
      var r := Eval(c, m, early, callees);
      if r.Stuck? then Stuck else
      var q := if Read(r.o, r.st) != 0 then Eval(a, r.st, early, callees) else Eval(b, r.st, early, callees);
      if q.Stuck? then Stuck else Ok(Val(if t.Void? then 0 else Read(q.o, q.st)), q.st)
    case Call(fn, _, args, t) =>
      var r := EvalArgs(args, m, early, callees);
      if r.StuckArgs? then Stuck else
      var c := DoCall(r.st, fn, ReadAll(r.os, r.st), callees);
      if c.None? then Stuck else Ok(Val(if t.Void? then 0 else c.value.0), c.value.1)
    case Cast(t, a) =>
      var r := Eval(a, m, early, callees);
      if r.Stuck? then Stuck
      else if t.Void? then Ok(Val(0), r.st)
      else if TypeOf(a) == t then r
      else Ok(Val(Convert(Read(r.o, r.st), t)), r.st)
  }

  function EvalArgs(args: seq<Expr>, m: Store, early: bool, callees: Callees): (r: Results)
    ensures r.OkArgs? ==> |r.os| == |args|
    decreases args, 0
  {
    if args == [] then OkArgs([], m) else
    var r := Eval(args[0], m, early, callees);
    if r.Stuck? then StuckArgs else
    var q := EvalArgs(args[1..], r.st, early, callees);
    if q.StuckArgs? then StuckArgs else OkArgs([r.o] + q.os, q.st)
  }

  function ReadAll(os: seq<Operand>, s: Store): (vs: seq<int>)
    ensures |vs| == |os|
  {
    if os == [] then [] else [Read(os[0], s)] + ReadAll(os[1..], s)
  }

  /** Initialisation of the automatic objects of a declaration, in order. */
  function RunDecls(ds: seq<Decl>, m: Store, early: bool, callees: Callees): Option<Store> {
    if ds == [] then Some(m)
    else if !ds[0].isObject || !ds[0].isAuto || ds[0].init.None? then RunDecls(ds[1..], m, early, callees)
    else
      var r := Eval(ds[0].init.value, m, early, callees);
      if r.Stuck? then None
      else RunDecls(ds[1..], WriteSym(r.st, ds[0].sym, Read(r.o, r.st)), early, callees)
  }

  /** What remains to run, one frame per enclosing statement. */
  datatype Cont =
    | KStop
    | KSeq(rest: seq<Stmt>, k: Cont)
    | KThen(s: Stmt, k: Cont)
    | KElse(s: Stmt, k: Cont)
    | KInit(s: Stmt, k: Cont)
    | KFor(s: Stmt, k: Cont)
    | KWhile(s: Stmt, k: Cont)
    | KDo(s: Stmt, k: Cont)
    | KSwitch(s: Stmt, k: Cont)

  /** A jump destination inside a statement. */
  datatype Goal = ByName(name: string) | ByValue(value: int) | ByDefault

  /** The labelled statement a jump reaches within 's', with the continuation it gets there. Case
      labels of a nested switch belong to that switch. */
  function Find(s: Stmt, k: Cont, g: Goal): Option<(Stmt, Cont)>
    decreases s, 1
  {
    match s
    case Block(items) => FindItems(items, k, g)
    case If(_, a, b) =>
      var r := Find(a, KThen(s, k), g);
      if r.Some? then r
      else if b.Some? then Find(b.value, KElse(s, k), g)
      else None
    case For(_, _, _, _, b) => Find(b, KFor(s, k), g)
    case While(_, _, b) => Find(b, KWhile(s, k), g)
    case DoWhile(_, _, b) => Find(b, KDo(s, k), g)
    case Switch(_, _, b, _, _) => if g.ByName? then Find(b, KSwitch(s, k), g) else None
    case Case(_, _, v, b) => if g == ByValue(v) then Some((s, k)) else Find(b, k, g)
    case Default(_, b) => if g.ByDefault? then Some((s, k)) else Find(b, k, g)
    case Label(_, n, b) => if g == ByName(n) then Some((s, k)) else Find(b, k, g)
    case _ => None
  }

  function FindItems(items: seq<Stmt>, k: Cont, g: Goal): Option<(Stmt, Cont)>
    decreases items, 0
  {
    if items == [] then None else
    var r := Find(items[0], KSeq(items[1..], k), g);
    if r.Some? then r else FindItems(items[1..], k, g)
  }

  /** 'Run' has a statement to execute, 'Resume' has just finished one. */
  datatype State =
    | Run(s: Stmt, k: Cont, m: Store)
    | Resume(k: Cont, m: Store)
    | Finished(v: int, m: Store)
    | Wrong

  /** 'break' leaves the innermost enclosing loop or switch. */
  function BreakFrom(k: Cont, m: Store): State {
    match k
    case KStop => Wrong
    case KFor(_, k') => Resume(k', m)
    case KWhile(_, k') => Resume(k', m)
    case KDo(_, k') => Resume(k', m)
    case KSwitch(_, k') => Resume(k', m)
    case KSeq(_, k') => BreakFrom(k', m)
    case KThen(_, k') => BreakFrom(k', m)
    case KElse(_, k') => BreakFrom(k', m)
    case KInit(_, k') => BreakFrom(k', m)
  }

  /** 'continue' ends the body of the innermost enclosing loop; in a 'while' the test is next. */
  function ContinueFrom(k: Cont, m: Store): State {
    match k
    case KStop => Wrong
    case KFor(_, _) => Resume(k, m)
    case KWhile(s, k') => Run(s, k', m)
    case KDo(_, _) => Resume(k, m)
    case KSwitch(_, k') => ContinueFrom(k', m)
    case KSeq(_, k') => ContinueFrom(k', m)
    case KThen(_, k') => ContinueFrom(k', m)
    case KElse(_, k') => ContinueFrom(k', m)
    case KInit(_, k') => ContinueFrom(k', m)
  }

  function RunStmt(body: Stmt, s: Stmt, k: Cont, m: Store, early: bool, callees: Callees): State {
    match s
    case Null => Resume(k, m)
    case ExprStmt(e) =>
      var r := Eval(e, m, early, callees);
      if r.Stuck? then Wrong else Resume(k, r.st)
    case DeclStmt(ds) =>
      var r := RunDecls(ds, m, early, callees);
      if r.None? then Wrong else Resume(k, r.value)
    case Block(items) => Resume(KSeq(items, k), m)
    case Return(None) => Finished(0, m)
    case Return(Some(e)) =>
      var r := Eval(e, m, early, callees);
      if r.Stuck? then Wrong else Finished(Read(r.o, r.st), r.st)
    case If(c, a, b) =>
      var r := Eval(c, m, early, callees);
      if r.Stuck? then Wrong
      else if Read(r.o, r.st) != 0 then Run(a, KThen(s, k), r.st)
      else if b.Some? then Run(b.value, KElse(s, k), r.st)
      else Resume(k, r.st)
    case For(_, i, _, _, _) => Run(i, KInit(s, k), m)
    case While(_, c, b) =>
      var r := Eval(c, m, early, callees);
      if r.Stuck? then Wrong
      else if Read(r.o, r.st) != 0 then Run(b, KWhile(s, k), r.st)
      else Resume(k, r.st)
    case DoWhile(_, _, b) => Run(b, KDo(s, k), m)
    case Switch(_, c, b, _, _) =>
      var r := Eval(c, m, early, callees);
      if r.Stuck? then Wrong else
      var t := Find(b, KSwitch(s, k), ByValue(Read(r.o, r.st)));
      var d := Find(b, KSwitch(s, k), ByDefault);
      if t.Some? then Run(t.value.0, t.value.1, r.st)
      else if d.Some? then Run(d.value.0, d.value.1, r.st)
      else Resume(k, r.st)
    case Case(_, _, _, b) => Run(b, k, m)
    case Default(_, b) => Run(b, k, m)
    case Label(_, _, b) => Run(b, k, m)
    case Break(_) => BreakFrom(k, m)
    case Continue(_) => ContinueFrom(k, m)
    case Goto(n, _) =>
      var t := Find(body, KStop, ByName(n));
      if t.Some? then Run(t.value.0, t.value.1, m) else Wrong
  }

  /** The controlling test of a 'for' loop; an absent one is true. */
  function TestFor(s: Stmt, k: Cont, m: Store, early: bool, callees: Callees): State
    requires s.For?
  {
    if s.test.None? then Run(s.body, KFor(s, k), m) else
    var r := Eval(s.test.value, m, early, callees);
    if r.Stuck? then Wrong
    else if Read(r.o, r.st) != 0 then Run(s.body, KFor(s, k), r.st)
    else Resume(k, r.st)
  }

  /** A function body that runs off its end returns 0. */
  function ResumeStep(k: Cont, m: Store, early: bool, callees: Callees): State {
    match k
    case KStop => Finished(0, m)
    case KSeq(rest, k') => if rest == [] then Resume(k', m) else Run(rest[0], KSeq(rest[1..], k'), m)
    case KThen(_, k') => Resume(k', m)
    case KElse(_, k') => Resume(k', m)
    case KSwitch(_, k') => Resume(k', m)
    case KWhile(s, k') => Run(s, k', m)
    case KInit(s, k') => if s.For? then TestFor(s, k', m, early, callees) else Wrong
    case KFor(s, k') =>
      if !s.For? then Wrong
      else if s.post.None? then TestFor(s, k', m, early, callees)
      else
        var r := Eval(s.post.value, m, early, callees);
        if r.Stuck? then Wrong else TestFor(s, k', r.st, early, callees)
    case KDo(s, k') =>
      if !s.DoWhile? then Wrong else
      var r := Eval(s.cond, m, early, callees);
      if r.Stuck? then Wrong
      else if Read(r.o, r.st) != 0 then Run(s, k', r.st)
      else Resume(k', r.st)
  }

  function Step(body: Stmt, st: State, early: bool, callees: Callees): State {
    match st
    case Run(s, k, m) => RunStmt(body, s, k, m, early, callees)
    case Resume(k, m) => ResumeStep(k, m, early, callees)
    case Finished(_, _) => st
    case Wrong => Wrong
  }

  function Steps(body: Stmt, st: State, n: nat, early: bool, callees: Callees): State
    decreases n
  {
    if n == 0 then st else Steps(body, Step(body, st, early, callees), n - 1, early, callees)
  }
}
