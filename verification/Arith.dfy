/** Two's-complement arithmetic at the two widths the compiler knows, on mathematical integers.
    Every wrap-around, truncation and sign extension of the C program is written out here. */
module Arith {
  datatype Option<+T> = None | Some(value: T)

  /** Operation widths: 32 bits for 'int', 64 bits for 'long'. */
  datatype Width = W32 | W64

  function Modulus(w: Width): (m: int)
    ensures m >= 0x1_0000_0000
  {
    match w case W32 => 0x1_0000_0000 case W64 => 0x1_0000_0000_0000_0000
  }

  function Bits(w: Width): (n: nat)
    ensures n == 32 || n == 64
  {
    match w case W32 => 32 case W64 => 64
  }

  predicate InRange(v: int, w: Width) {
    -Modulus(w) / 2 <= v < Modulus(w) / 2
  }

  /** The signed value whose low bits are those of 'v': what a store of 'v' at width 'w' reads back as. */
  function Wrap(v: int, w: Width): (r: int)
    ensures InRange(r, w)
    ensures r % Modulus(w) == v % Modulus(w)
    ensures InRange(v, w) ==> r == v
  {
    var u := v % Modulus(w);
    if u >= Modulus(w) / 2 then u - Modulus(w) else u
  }

  lemma WrapMod(x: int, w: Width)
    ensures Wrap(x % Modulus(w), w) == Wrap(x, w)
  {
  }

  function Pow2(n: nat): (p: int)
    ensures p >= 1
  {
    if n == 0 then 1 else 2 * Pow2(n - 1)
  }

  /** C division truncates toward zero; Dafny's rounds so that the remainder is never negative. */
  function TruncDiv(a: int, b: int): int
    requires b != 0
  {
    if a >= 0 then a / b else -((-a) / b)
  }

  function TruncRem(a: int, b: int): int
    requires b != 0
  {
    a - TruncDiv(a, b) * b
  }

  function Abs(x: int): nat {
    if x < 0 then -x else x
  }

  /** What quotient and remainder are (section 6.5.5): the remainder is smaller than the divisor and has the sign of
      the dividend. */
  predicate QuotientAndRemainder(a: int, b: int, q: int, r: int) {
    q * b + r == a && Abs(r) < Abs(b) && (r != 0 ==> (r < 0 <==> a < 0))
  }

  /** 'TruncDiv' and 'TruncRem' are quotient and remainder, and there are no others. */
  lemma DivisionTruncates(a: int, b: int, q: int, r: int)
    requires b != 0
    ensures QuotientAndRemainder(a, b, q, r) <==> q == TruncDiv(a, b) && r == TruncRem(a, b)
  {
    hide TruncDiv, TruncRem, QuotientAndRemainder;
    TruncIs(a, b);
    if QuotientAndRemainder(a, b, q, r) { OneQuotient(a, b, q, r, TruncDiv(a, b), TruncRem(a, b)); }
  }

  lemma TruncIs(a: int, b: int)
    requires b != 0
    ensures QuotientAndRemainder(a, b, TruncDiv(a, b), TruncRem(a, b))
  {
    var c := if a >= 0 then a else -a;
    var q, m := c / b, c % b;
    assert c == b * q + m && 0 <= m < Abs(b);
    assert q * b == b * q && (-q) * b == -(b * q);
  }

  lemma OneQuotient(a: int, b: int, q: int, r: int, p: int, s: int)
    requires b != 0 && QuotientAndRemainder(a, b, q, r) && QuotientAndRemainder(a, b, p, s)
    ensures q == p && r == s
  {
    var d := q - p;
    assert d * b == s - r by { assert d * b == q * b - p * b; }
    assert Abs(s - r) < Abs(b);
    if d != 0 { Multiple(d, b); }
  }

  lemma Multiple(k: int, b: int)
    requires k != 0
    ensures Abs(k * b) >= Abs(b)
  {
    var x: int, y: int := Abs(k), Abs(b);
    assert (x - 1) * y >= 0 && x * y == (x - 1) * y + y;
    if k < 0 && b < 0 { assert k * b == x * y; }
    else if k < 0 { assert k * b == 0 - x * y; }
    else if b < 0 { assert k * b == 0 - x * y; }
  }

  datatype BitFn = BitAnd | BitOr | BitXor

  function BitApply(f: BitFn, x: int, y: int): int {
    match f
    case BitAnd => if x == 1 && y == 1 then 1 else 0
    case BitOr => if x == 1 || y == 1 then 1 else 0
    case BitXor => if x == y then 0 else 1
  }

  /** The low 'n' bits of 'a f b' in two's complement, as an unsigned number. Halving rounds
      down, so negative operands contribute their infinite sign extension. */
  function Bitwise(f: BitFn, a: int, b: int, n: nat): (r: int)
    ensures 0 <= r < Pow2(n)
    decreases n
  {
    if n == 0 then 0 else BitApply(f, a % 2, b % 2) + 2 * Bitwise(f, a / 2, b / 2, n - 1)
  }

  /** Bit 'k' of a number in two's complement. */
  function Bit(x: int, k: nat): (b: int)
    ensures b == 0 || b == 1
    decreases k
  {
    if k == 0 then x % 2 else Bit(x / 2, k - 1)
  }

  /** Bit by bit: 'and' where both have it, 'or' where one has, 'xor' where exactly one has. */
  lemma BitwiseBits(a: int, b: int, n: nat, k: nat)
    requires k < n
    ensures Bit(Bitwise(BitAnd, a, b, n), k) == 1 <==> Bit(a, k) == 1 && Bit(b, k) == 1
    ensures Bit(Bitwise(BitOr, a, b, n), k) == 1 <==> Bit(a, k) == 1 || Bit(b, k) == 1
    ensures Bit(Bitwise(BitXor, a, b, n), k) == 1 <==> Bit(a, k) != Bit(b, k)
  {
    hide Bit, Bitwise;
    BitwiseBit(BitAnd, a, b, n, k);
    BitwiseBit(BitOr, a, b, n, k);
    BitwiseBit(BitXor, a, b, n, k);
  }

  lemma {:induction false} BitwiseBit(f: BitFn, a: int, b: int, n: nat, k: nat)
    requires k < n
    ensures Bit(Bitwise(f, a, b, n), k) == BitApply(f, Bit(a, k), Bit(b, k))
    decreases k
  {
    var x := BitApply(f, a % 2, b % 2);
    var rest := Bitwise(f, a / 2, b / 2, n - 1);
    assert Bitwise(f, a, b, n) == x + 2 * rest;
    LowBit(x, rest);
    if k > 0 { BitwiseBit(f, a / 2, b / 2, n - 1, k - 1); }
  }

  lemma LowBit(x: int, rest: int)
    requires x == 0 || x == 1
    ensures (x + 2 * rest) % 2 == x && (x + 2 * rest) / 2 == rest
  {
  }
}
