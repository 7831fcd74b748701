/** Machine arithmetic on unsigned words against signed arithmetic of the program. */
module AsmArith {
  import opened Arith
  import opened Memory
  import A = Ast
  import S = Semantics
  import opened X86

  lemma ModShift(x: int, k: int, m: int)
    requires m >= 1
    ensures (x + k * m) % m == x % m
  {
    var q := x / m;
    assert x + k * m == m * (q + k) + x % m by { assert m * (q + k) == m * q + m * k; }
    ModUnique(x + k * m, x % m, q + k, m);
  }

  /** A word and the signed value it encodes differ by a multiple of the modulus. */
  lemma WrapDiff(u: int, w: Width) returns (k: int)
    ensures u == Wrap(u, w) + k * Modulus(w)
  {
    var m := Modulus(w);
    var r := u % m;
    k := u / m + (if r >= m / 2 then 1 else 0);
    assert u == m * (u / m) + r;
    assert (u / m + 1) * m == (u / m) * m + m;
  }

  lemma WrapShift(x: int, k: int, w: Width)
    ensures Wrap(x + k * Modulus(w), w) == Wrap(x, w)
  {
    ModShift(x, k, Modulus(w));
  }

  lemma AddMatches(ud: int, us: int, w: Width)
    ensures Wrap(ud + us, w) == Wrap(Wrap(ud, w) + Wrap(us, w), w)
    ensures Wrap(ud - us, w) == Wrap(Wrap(ud, w) - Wrap(us, w), w)
  {
    var i := WrapDiff(ud, w);
    var j := WrapDiff(us, w);
    var m := Modulus(w);
    assert ud + us == Wrap(ud, w) + Wrap(us, w) + (i + j) * m by { assert (i + j) * m == i * m + j * m; }
    assert ud - us == Wrap(ud, w) - Wrap(us, w) + (i - j) * m by { assert (i - j) * m == i * m - j * m; }
    WrapShift(Wrap(ud, w) + Wrap(us, w), i + j, w);
    WrapShift(Wrap(ud, w) - Wrap(us, w), i - j, w);
  }

  lemma MulMatches(ud: int, us: int, w: Width)
    ensures Wrap(ud * us, w) == Wrap(Wrap(ud, w) * Wrap(us, w), w)
  {
    hide Wrap;
    var i := WrapDiff(ud, w);
    var j := WrapDiff(us, w);
    var a, b, m := Wrap(ud, w), Wrap(us, w), Modulus(w);
    var k := a * j + i * b + i * j * m;
    MulSplit(a, b, i, j, m);
    WrapShift(a * b, k, w);
  }

  lemma MulSplit(a: int, b: int, i: int, j: int, m: int)
    ensures (a + i * m) * (b + j * m) == a * b + (a * j + i * b + i * j * m) * m
  {
    assert (a + i * m) * (b + j * m) == a * b + a * (j * m) + (i * m) * b + (i * m) * (j * m);
    assert a * (j * m) == (a * j) * m;
    assert (i * m) * b == (i * b) * m;
    assert (i * m) * (j * m) == (i * j * m) * m;
    assert (a * j + i * b + i * j * m) * m == (a * j) * m + (i * b) * m + (i * j * m) * m;
  }

  lemma ShlMatches(ud: int, c: nat, w: Width)
    ensures Wrap(ud * Pow2(c), w) == Wrap(Wrap(ud, w) * Pow2(c), w)
  {
    hide Wrap;
    var i := WrapDiff(ud, w);
    var a, m, p := Wrap(ud, w), Modulus(w), Pow2(c);
    assert (a + i * m) * p == a * p + (i * p) * m by { assert (i * m) * p == (i * p) * m; }
    WrapShift(a * p, i * p, w);
  }

  lemma UnaryMatches(u: int, w: Width)
    ensures Wrap(-u, w) == Wrap(-Wrap(u, w), w)
    ensures Wrap(-u - 1, w) == Wrap(-Wrap(u, w) - 1, w)
  {
    var i := WrapDiff(u, w);
    var m := Modulus(w);
    assert -u == -Wrap(u, w) + (-i) * m by { assert (-i) * m == -(i * m); }
    WrapShift(-Wrap(u, w), -i, w);
    WrapShift(-Wrap(u, w) - 1, -i, w);
  }

  /** Only the low 'n' bits of the operands matter to the low 'n' bits of the result. */
  lemma {:induction false} BitwiseShift(f: BitFn, a: int, b: int, i: int, j: int, n: nat)
    ensures Bitwise(f, a + i * Pow2(n), b + j * Pow2(n), n) == Bitwise(f, a, b, n)
    decreases n
  {
    hide Bitwise, BitApply;
    if n == 0 { BitwiseNone(f, a + i * Pow2(n), b + j * Pow2(n)); BitwiseNone(f, a, b); }
    if n > 0 {
      var p := Pow2(n - 1);
      HalfShift(a, i, p);
      HalfShift(b, j, p);
      BitwiseShift(f, a / 2, b / 2, i, j, n - 1);
      BitwiseStep(f, a + i * (2 * p), b + j * (2 * p), n);
      BitwiseStep(f, a, b, n);
    }
  }

  lemma BitwiseNone(f: BitFn, a: int, b: int)
    ensures Bitwise(f, a, b, 0) == 0
  {
  }

  lemma BitwiseStep(f: BitFn, a: int, b: int, n: nat)
    requires n > 0
    ensures Bitwise(f, a, b, n) == BitApply(f, a % 2, b % 2) + 2 * Bitwise(f, a / 2, b / 2, n - 1)
  {
  }

  lemma HalfShift(a: int, i: int, p: int)
    ensures (a + i * (2 * p)) % 2 == a % 2 && (a + i * (2 * p)) / 2 == a / 2 + i * p
  {
    assert i * (2 * p) == 2 * (i * p);
  }

  lemma Pow2Split(a: nat, b: nat)
    ensures Pow2(a + b) == Pow2(a) * Pow2(b)
    decreases a
  {
    if a > 0 {
      Pow2Split(a - 1, b);
      assert 2 * (Pow2(a - 1) * Pow2(b)) == (2 * Pow2(a - 1)) * Pow2(b);
    }
  }

  lemma Pow2Sixteen()
    ensures Pow2(16) == 0x1_0000
  {
    assert Pow2(2) == 4 && Pow2(4) == 16 && Pow2(6) == 64 && Pow2(8) == 256;
    assert Pow2(10) == 0x400 && Pow2(12) == 0x1000 && Pow2(14) == 0x4000;
  }

  lemma Pow2Bits(w: Width)
    ensures Pow2(Bits(w)) == Modulus(w)
  {
    hide Pow2;
    Pow2Sixteen();
    Pow2Split(16, 16);
    var x := Pow2(16);
    assert x * x == 0x1_0000 * 0x1_0000;
    if w.W64? {
      Pow2Split(32, 32);
      var y := Pow2(32);
      assert y * y == 0x1_0000_0000 * 0x1_0000_0000;
    }
  }

  lemma BitwiseMatches(f: BitFn, ud: int, us: int, w: Width)
    ensures Bitwise(f, ud, us, Bits(w)) == Bitwise(f, Wrap(ud, w), Wrap(us, w), Bits(w))
  {
    hide Wrap, Bitwise, Pow2;
    var i := WrapDiff(ud, w);
    var j := WrapDiff(us, w);
    Pow2Bits(w);
    BitwiseShift(f, Wrap(ud, w), Wrap(us, w), i, j, Bits(w));
  }

  function BinaryOf(op: A.BinOp): BinaryOp {
    match op
    case Add => AddOp
    case Sub => SubOp
    case Mul => ImulOp
    case And => AndOp
    case Or => OrOp
    case Xor => XorOp
    case Shl => SalOp
    case _ => SarOp
  }

  predicate IsDirect(op: A.BinOp) {
    op.Add? || op.Sub? || op.Mul? || op.And? || op.Or? || op.Xor?
  }

  /** Two-operand arithmetic computes the program's value. */
  lemma BinaryMatches(op: A.BinOp, ud: int, us: int, w: Width)
    requires IsDirect(op)
    ensures S.BinaryValue(op, Wrap(ud, w), Wrap(us, w), w) == Some(Wrap(BinaryResult(BinaryOf(op), ud, us, w), w))
  {
    hide Pow2, Bitwise, TruncDiv, TruncRem, Wrap, CmpFlags;
    match op
    case Add => AddMatches(ud, us, w);
    case Sub => AddMatches(ud, us, w);
    case Mul => MulMatches(ud, us, w);
    case And => BitwiseMatches(BitAnd, ud, us, w);
    case Or => BitwiseMatches(BitOr, ud, us, w);
    case Xor => BitwiseMatches(BitXor, ud, us, w);
  }

  lemma ShiftMatches(op: A.BinOp, ud: int, us: int, c: int, w: Width)
    requires A.IsShift(op) && 0 <= c < Bits(w) && us % Bits(w) == c
    ensures S.BinaryValue(op, Wrap(ud, w), c, w) == Some(Wrap(BinaryResult(BinaryOf(op), ud, us, w), w))
  {
    hide Pow2;
    ShlMatches(ud, c, w);
    if op.Shr? { ShrInRange(Wrap(ud, w), c, w); }
  }

  /** Shifting right brings a value toward zero, or to -1. */
  lemma ShrInRange(a: int, c: nat, w: Width)
    requires InRange(a, w)
    ensures InRange(a / Pow2(c), w)
  {
    hide Pow2;
    DivShrinks(a, Pow2(c));
  }

  lemma MulGrows(p: int, q: int)
    requires p >= 1
    ensures q >= 0 ==> p * q >= q
    ensures q <= 0 ==> p * q <= q
  {
    assert p * q == q + (p - 1) * q;
    if q >= 0 { assert (p - 1) * q >= 0; } else { assert (p - 1) * -q >= 0; }
  }

  lemma DivShrinks(a: int, p: int)
    requires p >= 1
    ensures if a >= 0 then 0 <= a / p <= a else a <= a / p < 0
  {
    var q := a / p;
    assert a == p * q + a % p;
    MulGrows(p, q);
    MulGrows(p, q + 1);
    assert p * (q + 1) == p * q + p;
  }

  function CondOf(op: A.BinOp): Cond {
    match op
    case Eq => CondE
    case Ne => CondNE
    case Lt => CondL
    case Le => CondLE
    case Gt => CondG
    case _ => CondGE
  }

  lemma SignedWord(d: int, w: Width)
    requires 0 <= d < Modulus(w)
    ensures Wrap(d, w) == if d >= Modulus(w) / 2 then d - Modulus(w) else d
  {
    assert d % Modulus(w) == d;
  }

  lemma DiffWord(d: int, s: int, w: Width)
    requires 0 <= d < Modulus(w) && 0 <= s < Modulus(w)
    ensures (d - s) % Modulus(w) == if d >= s then d - s else d - s + Modulus(w)
  {
    var m := Modulus(w);
    if d >= s { ModUnique(d - s, d - s, 0, m); } else { ModUnique(d - s, d - s + m, -1, m); }
  }

  /** The flags of 'd - s' tell equality and the signed order. */
  lemma FlagsDecide(d: int, s: int, w: Width)
    requires 0 <= d < Modulus(w) && 0 <= s < Modulus(w)
    ensures var f := CmpFlags(d, s, w);
            f.zero == (Wrap(d, w) == Wrap(s, w)) && (f.sign != f.overflow) == (Wrap(d, w) < Wrap(s, w))
  {
    hide Wrap;
    SignedWord(d, w);
    SignedWord(s, w);
    DiffWord(d, s, w);
    match w
    case W32 =>
    case W64 =>
  }

  /** The flags of a comparison decide every signed relation. */
  lemma CompareMatches(op: A.BinOp, d: int, s: int, w: Width)
    requires A.IsCompare(op) && 0 <= d < Modulus(w) && 0 <= s < Modulus(w)
    ensures S.BinaryValue(op, Wrap(d, w), Wrap(s, w), w) == Some(S.Truth(Holds(CondOf(op), CmpFlags(d, s, w))))
  {
    hide Bitwise, Pow2, TruncDiv, TruncRem, Wrap;
    FlagsDecide(d, s, w);
  }

  /** After sign extension, the machine's division is that of the program. */
  lemma DivideMatches(lo: int, s: int, w: Width)
    requires 0 <= lo < Modulus(w)
    ensures var a, b := Wrap(lo, w), Wrap(s, w);
            var hi := if a < 0 then Modulus(w) - 1 else 0;
            && Divide(hi, lo, s, w) == (if b == 0 || !InRange(TruncDiv(a, b), w) then None
                                        else Some((TruncDiv(a, b), TruncRem(a, b))))
            && S.BinaryValue(A.Div, a, b, w) == (if Divide(hi, lo, s, w).None? then None else Some(Divide(hi, lo, s, w).value.0))
            && S.BinaryValue(A.Rem, a, b, w) == (if Divide(hi, lo, s, w).None? then None else Some(Divide(hi, lo, s, w).value.1))
  {
    hide TruncDiv, TruncRem, Pow2, Bitwise, Wrap;
    SignExtended(lo, w);
  }

  /** The double word that sign extension makes of a dividend is the dividend. */
  lemma SignExtended(lo: int, w: Width)
    requires 0 <= lo < Modulus(w)
    ensures Wrap(if Wrap(lo, w) < 0 then Modulus(w) - 1 else 0, w) * Modulus(w) + lo == Wrap(lo, w)
  {
    var m := Modulus(w);
    assert lo % m == lo;
    assert Wrap(m - 1, w) == -1 && Wrap(0, w) == 0;
  }

  lemma RemInRange(a: int, b: int, w: Width)
    requires b != 0 && InRange(a, w) && InRange(b, w)
    ensures InRange(TruncRem(a, b), w)
  {
    var q := TruncDiv(a, b);
    if a >= 0 {
      assert a - (a / b) * b == a % b;
    } else {
      assert (-a) - ((-a) / b) * b == (-a) % b;
      assert -((-a) / b) * b == -(((-a) / b) * b);
    }
  }
}
