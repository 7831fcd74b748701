/** The constant folder: 64-bit arithmetic followed by a conversion agrees with run-time arithmetic
    at the width of the type. */
module Folding {
  import opened Arith
  import opened Ast
  import opened Semantics
  import opened AsmArith
  import opened Memory

  function FoldUnary(op: UnOp, v: int): int {
    match op
    case Plus => v
    case Neg => Wrap(0 - v, W64)
    case BitNot => -v - 1
    case LogNot => if v == 0 then 1 else 0
  }

  /** Division by -1 is a negation, so that the overflowing quotient wraps. */
  function FoldBinary(op: BinOp, a: int, b: int, t: Ty): Option<int> {
    match op
    case Add => Some(Wrap(a + b, W64))
    case Sub => Some(Wrap(a - b, W64))
    case Mul => Some(Wrap(a * b, W64))
    case Div => if b == 0 then None else if b == -1 then Some(Wrap(0 - a, W64)) else Some(TruncDiv(a, b))
    case Rem => if b == 0 then None else if b == -1 then Some(0) else Some(TruncRem(a, b))
    case And => Some(Wrap(Bitwise(BitAnd, a, b, 64), W64))
    case Or => Some(Wrap(Bitwise(BitOr, a, b, 64), W64))
    case Xor => Some(Wrap(Bitwise(BitXor, a, b, 64), W64))
    case Shl => if b < 0 || b >= Bits(WidthOf(t)) then None else Some(Wrap(a * Pow2(b), W64))
    case Shr => if b < 0 || b >= Bits(WidthOf(t)) then None else Some(a / Pow2(b))
    case Eq => Some(Truth(a == b))
    case Ne => Some(Truth(a != b))
    case Lt => Some(Truth(a < b))
    case Le => Some(Truth(a <= b))
    case Gt => Some(Truth(a > b))
    case Ge => Some(Truth(a >= b))
    case LogAnd => Some(Truth(b != 0))
    case LogOr => Some(Truth(b != 0))
  }

  /** The value of a constant expression, held in 64 bits and cut to 32 for an 'int'; None when the folder
      gives up. */
  function Fold(e: Expr): Option<int> {
    match e
    case IntConst(v) => Some(v)
    case LongConst(v) => Some(v)
    case Cast(t, a) =>
      if !IsArithmetic(t) || Fold(a).None? then None else Some(Convert(Fold(a).value, t))
    case Unary(op, a, t) =>
      if Fold(a).None? then None else Some(Convert(FoldUnary(op, Fold(a).value), t))
    case Conditional(c, a, b, _) =>
      if Fold(c).None? then None else if Fold(c).value != 0 then Fold(a) else Fold(b)
    case Binary(op, a, b, t) =>
      if Fold(a).None? then None
      else if op.LogAnd? && Fold(a).value == 0 then Some(0)
      else if op.LogOr? && Fold(a).value != 0 then Some(1)
      else if Fold(b).None? then None
      else
        var r := FoldBinary(op, Fold(a).value, Fold(b).value, t);
        if r.None? then None else Some(Convert(r.value, t))
    case _ => None
  }

  /** Cutting 64 bits to the width of the type is what working at that width gives. */
  lemma CutWrap(x: int, t: Ty)
    requires IsArithmetic(t)
    ensures Convert(Wrap(x, W64), t) == Wrap(x, WidthOf(t))
  {
    if t.Int? { Cut(x); }
  }

  lemma Cut(x: int)
    ensures Wrap(Wrap(x, W64), W32) == Wrap(x, W32)
  {
    hide Wrap;
    var k := WrapDiff(x, W64);
    var y := Wrap(x, W64);
    assert k * Modulus(W64) == (k * 0x1_0000_0000) * Modulus(W32);
    WrapShift(y, k * 0x1_0000_0000, W32);
  }

  lemma CutInRange(x: int, t: Ty)
    requires IsArithmetic(t) && InRange(x, WidthOf(t))
    ensures Convert(x, t) == x && InRange(x, W64)
  {
  }

  lemma FoldConvertFits(x: int, t: Ty)
    requires IsArithmetic(t) && InRange(x, W64)
    ensures Fits(Convert(x, t), t)
  {
  }

  /** The low bits of a bitwise result depend on the low bits only. */
  lemma {:induction false} BitwiseLow(f: BitFn, a: int, b: int, k: nat, n: nat)
    requires k <= n
    ensures Bitwise(f, a, b, n) % Pow2(k) == Bitwise(f, a, b, k)
    decreases k
  {
    hide BitApply, Bitwise;
    if k > 0 {
      BitwiseLow(f, a / 2, b / 2, k - 1, n - 1);
      BitwiseStep(f, a, b, n);
      BitwiseStep(f, a, b, k);
      BitOrNot(f, a % 2, b % 2);
      TwiceMod(BitApply(f, a % 2, b % 2), Bitwise(f, a / 2, b / 2, n - 1), Pow2(k - 1));
    } else {
      BitwiseNone(f, a, b);
      assert Bitwise(f, a, b, n) % 1 == 0;
    }
  }

  lemma BitOrNot(f: BitFn, x: int, y: int)
    ensures 0 <= BitApply(f, x, y) <= 1
  {
  }

  lemma TwiceMod(bit: int, x: int, p: int)
    requires 0 <= bit <= 1 && p >= 1
    ensures (bit + 2 * x) % (2 * p) == bit + 2 * (x % p)
  {
    var q, r := x / p, x % p;
    assert x == p * q + r;
    assert bit + 2 * x == (2 * p) * q + (bit + 2 * r) by { assert 2 * (p * q) == (2 * p) * q; }
    ModUnique(bit + 2 * x, bit + 2 * r, q, 2 * p);
  }

  lemma CutBitwise(f: BitFn, a: int, b: int, t: Ty)
    requires IsArithmetic(t)
    ensures Convert(Wrap(Bitwise(f, a, b, 64), W64), t) == Wrap(Bitwise(f, a, b, Bits(WidthOf(t))), WidthOf(t))
  {
    hide Wrap, Bitwise, Pow2;
    var w := WidthOf(t);
    CutWrap(Bitwise(f, a, b, 64), t);
    BitwiseLow(f, a, b, Bits(w), 64);
    Pow2Bits(w);
    WrapMod(Bitwise(f, a, b, 64), w);
  }

  /** A quotient by anything but -1 and 0 is no larger than the dividend. */
  lemma QuotientSmaller(a: int, b: int, w: Width)
    requires InRange(a, w) && b != 0 && b != -1
    ensures InRange(TruncDiv(a, b), w)
  {
    var n := if a >= 0 then a else -a;
    if b > 0 {
      DivShrinks(n, b);
      if b >= 2 { HalfAtMost(n, b); }
    } else {
      NegDiv(n, b);
      HalfAtMost(n, -b);
    }
  }

  lemma HalfAtMost(n: int, b: int)
    requires n >= 0 && b >= 2
    ensures 0 <= n / b && 2 * (n / b) <= n
  {
    var q := n / b;
    DivShrinks(n, b);
    MulGrows(b - 1, q);
    assert n == b * q + n % b && b * q == (b - 1) * q + q;
  }

  lemma NegDiv(n: int, b: int)
    requires b < 0
    ensures n / b == -(n / -b)
  {
    assert n == -b * (n / -b) + n % -b;
    assert n == b * -(n / -b) + n % -b;
  }

  lemma FoldWrapAgrees(op: BinOp, a: int, b: int, t: Ty)
    requires IsArithmetic(t) && (IsDirect(op) || op.Shl?) && FoldBinary(op, a, b, t).Some?
    ensures var v := Convert(FoldBinary(op, a, b, t).value, t);
            Fits(v, t) && (BinaryValue(op, a, b, WidthOf(t)).Some? ==> BinaryValue(op, a, b, WidthOf(t)) == Some(v))
  {
    hide Wrap, Bitwise, Pow2, Convert;
    match op
    case Add => CutWrap(a + b, t);
    case Sub => CutWrap(a - b, t);
    case Mul => CutWrap(a * b, t);
    case And => CutBitwise(BitAnd, a, b, t);
    case Or => CutBitwise(BitOr, a, b, t);
    case Xor => CutBitwise(BitXor, a, b, t);
    case Shl => CutWrap(a * Pow2(b), t);
  }

  lemma FoldDivideAgrees(op: BinOp, a: int, b: int, t: Ty)
    requires IsArithmetic(t) && (op.Div? || op.Rem?) && Fits(a, t) && Fits(b, t) && b != 0
    ensures var v := Convert(FoldBinary(op, a, b, t).value, t);
            Fits(v, t) && (BinaryValue(op, a, b, WidthOf(t)).Some? ==> BinaryValue(op, a, b, WidthOf(t)) == Some(v))
  {
    hide Wrap, Bitwise, Pow2, TruncDiv, TruncRem, Convert;
    var w := WidthOf(t);
    if b == -1 {
      ByMinusOne(a, w);
      CutWrap(0 - a, t);
      CutInRange(0, t);
    } else {
      QuotientSmaller(a, b, w);
      CutInRange(TruncDiv(a, b), t);
      RemInRange(a, b, w);
      CutInRange(TruncRem(a, b), t);
    }
  }

  lemma FoldShiftAgrees(a: int, b: int, t: Ty)
    requires IsArithmetic(t) && Fits(a, t) && 0 <= b < Bits(WidthOf(t))
    ensures Convert(a / Pow2(b), t) == a / Pow2(b) && Fits(a / Pow2(b), t)
  {
    hide Pow2;
    ShrInRange(a, b, WidthOf(t));
    CutInRange(a / Pow2(b), t);
  }

  lemma FoldCompareAgrees(op: BinOp, a: int, b: int, opTy: Ty)
    requires IsCompare(op)
    ensures FoldBinary(op, a, b, Int).Some?
    ensures var v := Convert(FoldBinary(op, a, b, Int).value, Int);
            Fits(v, Int) && BinaryValue(op, a, b, WidthOf(opTy)) == Some(v)
  {
    hide Bitwise, Pow2, TruncDiv, TruncRem;
  }

  /** One folded operation is the run-time operation, wherever that has a value. */
  lemma FoldBinaryAgrees(op: BinOp, a: int, b: int, opTy: Ty, t: Ty)
    requires IsArithmetic(t) && IsArithmetic(opTy) && !IsLogical(op) && Fits(a, opTy) && FoldBinary(op, a, b, t).Some?
    requires if IsCompare(op) then t.Int? else opTy == t
    requires !IsShift(op) ==> Fits(b, opTy)
    ensures var v := Convert(FoldBinary(op, a, b, t).value, t);
            && Fits(v, t)
            && (BinaryValue(op, a, b, WidthOf(if IsCompare(op) then opTy else t)).Some? ==>
                BinaryValue(op, a, b, WidthOf(if IsCompare(op) then opTy else t)) == Some(v))
  {
    hide Wrap, Bitwise, Pow2, TruncDiv, TruncRem, Convert;
    if IsCompare(op) { FoldCompareAgrees(op, a, b, opTy); }
    else if op.Div? || op.Rem? { FoldDivideAgrees(op, a, b, t); }
    else if op.Shr? { FoldShiftAgrees(a, b, t); }
    else { FoldWrapAgrees(op, a, b, t); }
  }

  lemma ByMinusOne(a: int, w: Width)
    ensures TruncDiv(a, -1) == 0 - a && TruncRem(a, -1) == 0
    ensures InRange(0 - a, w) ==> Wrap(0 - a, w) == 0 - a
  {
    if a >= 0 { NegDiv(a, -1); } else { NegDiv(-a, -1); }
  }

  lemma FoldUnaryAgrees(op: UnOp, a: int, opTy: Ty, t: Ty)
    requires IsArithmetic(t) && IsArithmetic(opTy) && Fits(a, opTy) && t == (if op.LogNot? then Int else opTy)
    ensures var v := Convert(FoldUnary(op, a), t);
            Fits(v, t) && v == UnaryValue(op, a, WidthOf(t))
  {
    hide Wrap, Convert;
    match op
    case Plus => CutInRange(a, t);
    case Neg => CutWrap(0 - a, t);
    case BitNot => CutInRange(-a - 1, t); NotWraps(a, WidthOf(t));
    case LogNot => CutInRange(FoldUnary(op, a), t);
  }

  lemma NotWraps(a: int, w: Width)
    requires InRange(a, w)
    ensures InRange(-a - 1, w) && Wrap(-a - 1, w) == -a - 1
  {
  }

  /** Constant folding agrees with run time: a folded value lies in the range of the expression's type
      and is what evaluation gives, wherever that is defined; and nothing is changed. */
  lemma {:induction false} FoldAgrees(e: Expr, m: Store, early: bool, callees: Callees)
    requires WellTyped(e) && Fold(e).Some?
    ensures IsArithmetic(TypeOf(e)) && Fits(Fold(e).value, TypeOf(e))
    ensures var r := Eval(e, m, early, callees); r.Ok? ==> Read(r.o, r.st) == Fold(e).value && r.st == m
    decreases e
  {
    hide FoldBinary, FoldUnary, Convert, BinaryValue, UnaryValue, Wrap;
    match e
    case IntConst(_) =>
    case LongConst(_) =>
    case Cast(t, a) =>
      FoldAgrees(a, m, early, callees);
      CastAgrees(Fold(a).value, TypeOf(a), t);
    case Unary(op, a, t) =>
      FoldAgrees(a, m, early, callees);
      FoldUnaryAgrees(op, Fold(a).value, TypeOf(a), t);
      PlusKeeps(Fold(a).value, WidthOf(t));
    case Conditional(c, a, b, _) =>
      FoldAgrees(c, m, early, callees);
      if Fold(c).value != 0 { FoldAgrees(a, m, early, callees); } else { FoldAgrees(b, m, early, callees); }
    case Binary(op, a, b, t) => FoldAgreesBinary(e, m, early, callees);
  }

  lemma PlusKeeps(v: int, w: Width)
    ensures UnaryValue(Plus, v, w) == v
  {
  }

  lemma CastAgrees(v: int, from: Ty, t: Ty)
    requires IsArithmetic(from) && IsArithmetic(t) && Fits(v, from)
    ensures Fits(Convert(v, t), t) && Convert(v, t) == ConvertFrom(v, from, t) == Convert(v, t)
  {
  }

  lemma {:induction false} FoldAgreesBinary(e: Expr, m: Store, early: bool, callees: Callees)
    requires e.Binary? && WellTyped(e) && Fold(e).Some?
    ensures IsArithmetic(TypeOf(e)) && Fits(Fold(e).value, TypeOf(e))
    ensures var r := Eval(e, m, early, callees); r.Ok? ==> Read(r.o, r.st) == Fold(e).value && r.st == m
    decreases e, 0
  {
    hide FoldBinary, Convert, BinaryValue, Wrap;
    var a, b, op := e.left, e.right, e.bop;
    FoldAgrees(a, m, early, callees);
    if !(op.LogAnd? && Fold(a).value == 0) && !(op.LogOr? && Fold(a).value != 0) {
      FoldAgrees(b, m, early, callees);
      if IsLogical(op) { FoldLogical(op, Fold(a).value, Fold(b).value, e.ty); }
      else { FoldBinaryAgrees(op, Fold(a).value, Fold(b).value, TypeOf(a), e.ty); }
    }
  }

  lemma FoldLogical(op: BinOp, a: int, b: int, t: Ty)
    requires IsLogical(op) && t.Int?
    ensures FoldBinary(op, a, b, t) == Some(Truth(b != 0)) && Convert(Truth(b != 0), t) == Truth(b != 0)
  {
  }

  /** Typed as analysis types it, whatever the uses it leaves unchecked. */
  predicate Foldable(e: Expr) {
    match e
    case IntConst(v) => Fits(v, Int)
    case LongConst(v) => Fits(v, Long)
    case Unary(_, a, t) => Foldable(a) && IsArithmetic(t)
    case Binary(_, a, b, t) => Foldable(a) && Foldable(b) && IsArithmetic(t)
    case Conditional(c, a, b, t) => Foldable(c) && Foldable(a) && Foldable(b) && TypeOf(a) == t == TypeOf(b)
    case Cast(_, a) => Foldable(a)
    case _ => true
  }

  lemma FoldBinaryRange(op: BinOp, a: int, b: int, t: Ty)
    requires InRange(a, W64) && InRange(b, W64) && FoldBinary(op, a, b, t).Some?
    ensures InRange(FoldBinary(op, a, b, t).value, W64)
  {
    hide Wrap, Bitwise, Pow2, TruncDiv, TruncRem;
    match op
    case Div => if b != -1 { QuotientSmaller(a, b, W64); }
    case Rem => if b != -1 { RemInRange(a, b, W64); }
    case Shr => ShrInRange(a, b, W64);
    case _ =>
  }

  lemma FoldUnaryRange(op: UnOp, a: int)
    requires InRange(a, W64)
    ensures InRange(FoldUnary(op, a), W64)
  {
    hide Wrap;
  }

  /** Whatever is folded lies in the range of its type. */
  lemma {:induction false} FoldInRange(e: Expr)
    requires Foldable(e) && Fold(e).Some?
    ensures InRange(Fold(e).value, W64) && IsArithmetic(TypeOf(e)) && Fits(Fold(e).value, TypeOf(e))
    decreases e
  {
    hide FoldBinary, FoldUnary, Convert, Wrap;
    match e
    case IntConst(_) =>
    case LongConst(_) =>
    case Cast(t, a) => FoldInRange(a); FoldConvertFits(Fold(a).value, t);
    case Unary(op, a, t) =>
      FoldInRange(a);
      FoldUnaryRange(op, Fold(a).value);
      FoldConvertFits(FoldUnary(op, Fold(a).value), t);
    case Conditional(c, a, b, _) => if Fold(c).value != 0 { FoldInRange(a); } else { FoldInRange(b); }
    case Binary(op, a, b, t) =>
      FoldInRange(a);
      if !(op.LogAnd? && Fold(a).value == 0) && !(op.LogOr? && Fold(a).value != 0) {
        FoldInRange(b);
        FoldBinaryRange(op, Fold(a).value, Fold(b).value, t);
        FoldConvertFits(FoldBinary(op, Fold(a).value, Fold(b).value, t).value, t);
      }
  }

  /** An expression of constants, operators, arithmetic casts and conditionals only. */
  predicate Constant(e: Expr) {
    match e
    case IntConst(_) => true
    case LongConst(_) => true
    case Cast(t, a) => IsArithmetic(t) && Constant(a)
    case Unary(_, a, _) => Constant(a)
    case Binary(_, a, b, _) => Constant(a) && Constant(b)
    case Conditional(c, a, b, _) => Constant(c) && Constant(a) && Constant(b)
    case _ => false
  }

  /** The folder gives up on no constant expression that has a value. */
  lemma {:induction false} FoldComplete(e: Expr, m: Store, early: bool, callees: Callees)
    requires WellTyped(e) && Constant(e) && Eval(e, m, early, callees).Ok?
    ensures Fold(e).Some?
    decreases e
  {
    hide Convert, FoldUnary, UnaryValue, Wrap, Bitwise, TruncDiv, TruncRem, Pow2;
    match e
    case IntConst(_) =>
    case LongConst(_) =>
    case Cast(_, a) => FoldComplete(a, m, early, callees);
    case Unary(_, a, _) => FoldComplete(a, m, early, callees);
    case Conditional(c, a, b, _) =>
      FoldComplete(c, m, early, callees);
      FoldAgrees(c, m, early, callees);
      if Fold(c).value != 0 { FoldComplete(a, m, early, callees); } else { FoldComplete(b, m, early, callees); }
    case Binary(op, a, b, t) =>
      FoldComplete(a, m, early, callees);
      FoldAgrees(a, m, early, callees);
      if !(op.LogAnd? && Fold(a).value == 0) && !(op.LogOr? && Fold(a).value != 0) {
        FoldComplete(b, m, early, callees);
        FoldAgrees(b, m, early, callees);
      }
  }

  /** The quotient of the smallest value of the type by -1, or its remainder. */
  predicate Overflows(op: BinOp, a: int, b: int, t: Ty) {
    (op.Div? || op.Rem?) && a == -Modulus(WidthOf(t)) / 2 && b == -1
  }

  /** No division that evaluation reaches overflows. */
  predicate Quiet(e: Expr) {
    match e
    case Cast(_, a) => Quiet(a)
    case Unary(_, a, _) => Quiet(a)
    case Conditional(c, a, b, _) => Quiet(c) && (if Fold(c) == Some(0) then Quiet(b) else Quiet(a))
    case Binary(op, a, b, t) =>
      && Quiet(a)
      && (Fold(a).Some? && Reaches(op, Fold(a).value) ==> Quiet(b))
      && (Fold(a).Some? && Fold(b).Some? ==> !Overflows(op, Fold(a).value, Fold(b).value, t))
    case _ => true
  }

  /** The right operand is evaluated. */
  predicate Reaches(op: BinOp, a: int) {
    !(op.LogAnd? && a == 0) && !(op.LogOr? && a != 0)
  }

  lemma ValueExists(op: BinOp, a: int, b: int, opTy: Ty, t: Ty)
    requires IsArithmetic(t) && IsArithmetic(opTy) && !IsLogical(op) && Fits(a, opTy) && FoldBinary(op, a, b, t).Some?
    requires if IsCompare(op) then t.Int? else opTy == t
    ensures BinaryValue(op, a, b, WidthOf(if IsCompare(op) then opTy else t)).Some? <==> !Overflows(op, a, b, t)
  {
    hide Wrap, Bitwise, Pow2, TruncDiv, TruncRem;
    var w := WidthOf(t);
    if op.Div? || op.Rem? {
      if b == -1 { ByMinusOne(a, w); } else { QuotientSmaller(a, b, w); }
    }
  }

  /** The folder and run time, exactly: where the folder has a value, run time has one if and only if no
      division that is evaluated divides the smallest value of its type by -1. */
  lemma {:induction false} FoldExact(e: Expr, m: Store, early: bool, callees: Callees)
    requires WellTyped(e) && Fold(e).Some?
    ensures Eval(e, m, early, callees).Ok? <==> Quiet(e)
    decreases e
  {
    hide FoldBinary, FoldUnary, Convert, BinaryValue, UnaryValue, Wrap, Overflows;
    match e
    case IntConst(_) =>
    case LongConst(_) =>
    case Cast(_, a) => FoldExact(a, m, early, callees);
    case Unary(_, a, _) => FoldExact(a, m, early, callees);
    case Conditional(c, a, b, _) =>
      FoldExact(c, m, early, callees);
      FoldAgrees(c, m, early, callees);
      if Fold(c).value != 0 { FoldExact(a, m, early, callees); } else { FoldExact(b, m, early, callees); }
    case Binary(_, _, _, _) => FoldExactBinary(e, m, early, callees);
  }

  lemma {:induction false} FoldExactBinary(e: Expr, m: Store, early: bool, callees: Callees)
    requires e.Binary? && WellTyped(e) && Fold(e).Some?
    ensures Eval(e, m, early, callees).Ok? <==> Quiet(e)
    decreases e, 0
  {
    hide FoldBinary, Convert, BinaryValue, Wrap, Overflows;
    var a, b, op := e.left, e.right, e.bop;
    FoldExact(a, m, early, callees);
    FoldAgrees(a, m, early, callees);
    if Reaches(op, Fold(a).value) {
      FoldExact(b, m, early, callees);
      FoldAgrees(b, m, early, callees);
      if !IsLogical(op) { ValueExists(op, Fold(a).value, Fold(b).value, TypeOf(a), e.ty); }
    }
    if IsLogical(op) { assert forall x, y :: !Overflows(op, x, y, e.ty) by { LogicalQuiet(op, e.ty); } }
  }

  lemma LogicalQuiet(op: BinOp, t: Ty)
    requires IsLogical(op)
    ensures forall x, y :: !Overflows(op, x, y, t)
  {
  }

  /** The folder gives MIN / -1 and MIN % -1 a value, run time does not. */
  lemma FoldsOverflow(m: Store, callees: Callees)
    ensures var e := Binary(Div, IntConst(-0x8000_0000), IntConst(-1), Int);
            WellTyped(e) && Fold(e) == Some(-0x8000_0000) && Eval(e, m, true, callees).Stuck?
    ensures var e := Binary(Rem, IntConst(-0x8000_0000), IntConst(-1), Int);
            WellTyped(e) && Fold(e) == Some(0) && Eval(e, m, true, callees).Stuck?
  {
    ByMinusOne(-0x8000_0000, W32);
    assert Wrap(0x8000_0000, W64) == 0x8000_0000 && Wrap(0x8000_0000, W32) == -0x8000_0000;
    assert Fold(IntConst(-0x8000_0000)) == Some(-0x8000_0000) && Fold(IntConst(-1)) == Some(-1);
  }
}
