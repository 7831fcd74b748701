/** The abstract syntax tree after semantic analysis: every name is a symbol, every implicit
    conversion is a cast, and jumps carry the statement they reach. */
module Ast {
  import opened Arith

  datatype Ty = Void | Int | Long | Function(ret: Ty, params: seq<Ty>)

  predicate IsArithmetic(t: Ty) {
    t.Int? || t.Long?
  }

  /** Size class of an operand: 8-byte types are quadwords, everything else a longword. */
  function WidthOf(t: Ty): Width {
    if t.Long? then W64 else W32
  }

  predicate Fits(v: int, t: Ty) {
    InRange(v, WidthOf(t))
  }

  /** A value converted to a scalar type; a 'long' holds every value the program computes. */
  function Convert(v: int, t: Ty): int {
    if t.Int? then Wrap(v, W32) else v
  }

  /** Conversion between types; a value keeps its own type unchanged. */
  function ConvertFrom(v: int, from: Ty, to: Ty): int {
    if from == to then v else Convert(v, to)
  }

  /** An object with its declared type; 'isStatic' is static storage duration. */
  datatype Symbol = Symbol(id: nat, ty: Ty, isStatic: bool)

  datatype UnOp = Plus | Neg | BitNot | LogNot

  datatype BinOp =
    | Add | Sub | Mul | Div | Rem | And | Or | Xor | Shl | Shr
    | Eq | Ne | Lt | Le | Gt | Ge
    | LogAnd | LogOr

  predicate IsLogical(op: BinOp) { op.LogAnd? || op.LogOr? }
  predicate IsShift(op: BinOp) { op.Shl? || op.Shr? }
  predicate IsCompare(op: BinOp) { op.Eq? || op.Ne? || op.Lt? || op.Le? || op.Gt? || op.Ge? }

  datatype Expr =
    | IntConst(value: int)
    | LongConst(value: int)
    | Ident(sym: Symbol)
    | Unary(uop: UnOp, operand: Expr, ty: Ty)
    | Binary(bop: BinOp, left: Expr, right: Expr, ty: Ty)
    | IncDec(prefix: bool, inc: bool, sym: Symbol)
    | Assign(sym: Symbol, rvalue: Expr)
    | Compound(bop: BinOp, opTy: Ty, sym: Symbol, rvalue: Expr)
    | Conditional(cond: Expr, thn: Expr, els: Expr, ty: Ty)
    | Call(fn: nat, params: seq<Ty>, args: seq<Expr>, ty: Ty)
    | Cast(target: Ty, operand: Expr)

  function TypeOf(e: Expr): Ty {
    match e
    case IntConst(_) => Int
    case LongConst(_) => Long
    case Ident(s) => s.ty
    case IncDec(_, _, s) => s.ty
    case Assign(s, _) => s.ty
    case Compound(_, _, s, _) => s.ty
    case Cast(t, _) => t
    case Unary(_, _, t) => t
    case Binary(_, _, _, t) => t
    case Conditional(_, _, _, t) => t
    case Call(_, _, _, t) => t
  }

  /** The type rules that error-free analysis establishes, together with arithmetic conditions
      and cast operands, which the analysis leaves unchecked. */
  predicate WellTyped(e: Expr)
    decreases e, 1
  {
    match e
    case IntConst(v) => Fits(v, Int)
    case LongConst(v) => Fits(v, Long)
    case Ident(s) => IsArithmetic(s.ty) || s.ty.Function?
    case Unary(op, a, t) =>
      WellTyped(a) && IsArithmetic(TypeOf(a)) && t == (if op.LogNot? then Int else TypeOf(a))
    case Binary(op, a, b, t) =>
      && WellTyped(a) && WellTyped(b) && IsArithmetic(TypeOf(a)) && IsArithmetic(TypeOf(b))
      && (if IsLogical(op) then t == Int
          else if IsShift(op) then t == TypeOf(a)
          else if IsCompare(op) then t == Int && TypeOf(a) == TypeOf(b)
          else t == TypeOf(a) == TypeOf(b))
    case IncDec(_, _, s) => IsArithmetic(s.ty)
    case Assign(s, r) => IsArithmetic(s.ty) && WellTyped(r) && TypeOf(r) == s.ty
    case Compound(op, t, s, r) =>
      && IsArithmetic(s.ty) && IsArithmetic(t) && WellTyped(r) && IsArithmetic(TypeOf(r))
      && !IsLogical(op) && !IsCompare(op)
      && (if IsShift(op) then t == s.ty else TypeOf(r) == t)
    case Conditional(c, a, b, t) =>
      && WellTyped(c) && WellTyped(a) && WellTyped(b) && IsArithmetic(TypeOf(c))
      && t == TypeOf(a) == TypeOf(b) && (IsArithmetic(t) || t.Void?)
    case Call(_, params, args, t) =>
      && WellTypedArgs(args, params) && (IsArithmetic(t) || t.Void?)
    case Cast(t, a) =>
      && WellTyped(a)
      && (t.Void? || (IsArithmetic(t) && IsArithmetic(TypeOf(a))))
  }

  predicate WellTypedArgs(args: seq<Expr>, params: seq<Ty>)
    decreases args, 0
  {
    && |args| == |params|
    && (args == [] || (WellTyped(args[0]) && TypeOf(args[0]) == params[0] && IsArithmetic(params[0])
                       && WellTypedArgs(args[1..], params[1..])))
  }

  datatype Decl = Decl(isObject: bool, isAuto: bool, sym: Symbol, init: Option<Expr>)

  /** One entry of a switch's case list: the folded value and the statement that carries it. */
  datatype CaseRef = CaseRef(value: int, id: nat)

  datatype Stmt =
    | Null
    | ExprStmt(e: Expr)
    | DeclStmt(decls: seq<Decl>)
    | Block(items: seq<Stmt>)
    | Return(result: Option<Expr>)
    | If(cond: Expr, thn: Stmt, els: Option<Stmt>)
    | For(id: nat, init: Stmt, test: Option<Expr>, post: Option<Expr>, body: Stmt)
    | While(id: nat, cond: Expr, body: Stmt)
    | DoWhile(id: nat, cond: Expr, body: Stmt)
    | Switch(id: nat, cond: Expr, body: Stmt, cases: seq<CaseRef>, dflt: Option<nat>)
    | Case(id: nat, expr: Expr, value: int, stmt: Stmt)
    | Default(id: nat, stmt: Stmt)
    | Label(id: nat, name: string, stmt: Stmt)
    | Break(target: nat)
    | Continue(target: nat)
    | Goto(name: string, target: nat)
}
