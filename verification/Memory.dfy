/** Byte-addressed memory with little-endian loads and stores. */
module Memory {
  import opened Arith

  type Octet = x: int | 0 <= x < 256
  type Bytes = map<int, Octet>

  function At8(mem: Bytes, a: int): Octet {
    if a in mem then mem[a] else 0
  }

  function Pow256(n: nat): (p: int)
    ensures p >= 1
  {
    if n == 0 then 1 else 256 * Pow256(n - 1)
  }

  /** The 'n' bytes from address 'a' as an unsigned number. */
  function Load(mem: Bytes, a: int, n: nat): (v: int)
    ensures 0 <= v < Pow256(n)
    decreases n
  {
    if n == 0 then 0 else At8(mem, a) + 256 * Load(mem, a + 1, n - 1)
  }

  /** Memory with the low 'n' bytes of 'v' at address 'a'. */
  function Put(mem: Bytes, a: int, n: nat, v: int): Bytes
    decreases n
  {
    if n == 0 then mem else Put(mem[a := v % 256], a + 1, n - 1, v / 256)
  }

  /** 'n' bytes at 'a' and 'k' bytes at 'b' share none. */
  predicate Apart(a: int, n: int, b: int, k: int) {
    a + n <= b || b + k <= a
  }

  lemma {:induction false} PutElsewhere(mem: Bytes, a: int, n: nat, v: int, x: int)
    requires x < a || a + n <= x
    ensures At8(Put(mem, a, n, v), x) == At8(mem, x)
    decreases n
  {
    if n > 0 { PutElsewhere(mem[a := v % 256], a + 1, n - 1, v / 256, x); }
  }

  lemma {:induction false} LoadAgrees(mem: Bytes, mem': Bytes, a: int, n: nat)
    requires forall x :: a <= x < a + n ==> At8(mem, x) == At8(mem', x)
    ensures Load(mem, a, n) == Load(mem', a, n)
    decreases n
  {
    if n > 0 { LoadAgrees(mem, mem', a + 1, n - 1); }
  }

  /** A store to one range leaves a load from a disjoint range alone. */
  lemma LoadPutOther(mem: Bytes, a: int, n: nat, v: int, b: int, k: nat)
    requires b + k <= a || a + n <= b
    ensures Load(Put(mem, a, n, v), b, k) == Load(mem, b, k)
  {
    forall x | b <= x < b + k ensures At8(Put(mem, a, n, v), x) == At8(mem, x) {
      PutElsewhere(mem, a, n, v, x);
    }
    LoadAgrees(Put(mem, a, n, v), mem, b, k);
  }

  lemma ModSplit(v: int, p: int)
    requires p >= 1
    ensures v % (256 * p) == v % 256 + 256 * ((v / 256) % p)
  {
    var q := v / 256;
    var r := q % p;
    var d := q / p;
    assert q == p * d + r;
    assert v == 256 * q + v % 256;
    assert 256 * (p * d) == (256 * p) * d;
    var low := v % 256 + 256 * r;
    assert v == (256 * p) * d + low;
    assert 0 <= low < 256 * p;
    ModUnique(v, low, d, 256 * p);
  }

  lemma ModUnique(v: int, r: int, d: int, m: int)
    requires m >= 1 && v == m * d + r && 0 <= r < m
    ensures v % m == r && v / m == d
  {
    var q := v / m;
    assert m * (q - d) == r - v % m;
    assert -m < m * (q - d) < m;
    MulSmall(m, q - d);
  }

  lemma MulSmall(m: int, x: int)
    requires m >= 1 && -m < m * x < m
    ensures x == 0
  {
  }

  /** What was stored reads back, reduced to its width. */
  lemma {:induction false} LoadPutSame(mem: Bytes, a: int, n: nat, v: int)
    ensures Load(Put(mem, a, n, v), a, n) == v % Pow256(n)
    decreases n
  {
    if n > 0 {
      var mem1 := mem[a := v % 256];
      LoadPutSame(mem1, a + 1, n - 1, v / 256);
      PutElsewhere(mem1, a + 1, n - 1, v / 256, a);
      ModSplit(v, Pow256(n - 1));
    }
  }

  /** A wider load has the narrower one in its low bytes. */
  lemma {:induction false} LoadLow(mem: Bytes, a: int, n: nat, k: nat)
    requires n <= k
    ensures Load(mem, a, k) % Pow256(n) == Load(mem, a, n)
    decreases n
  {
    if n > 0 {
      LoadLow(mem, a + 1, n - 1, k - 1);
      var b, hi, p := At8(mem, a), Load(mem, a + 1, k - 1), Pow256(n - 1);
      ModSplit(b + 256 * hi, p);
      assert (b + 256 * hi) / 256 == hi && (b + 256 * hi) % 256 == b;
    } else {
      assert Load(mem, a, k) % 1 == 0;
    }
  }

  /** Overwriting the lowest byte of a zero cell of 'n' bytes. */
  lemma {:induction false} PutLowByte(mem: Bytes, a: int, n: nat, b: int)
    requires n >= 1 && 0 <= b < 256 && Load(mem, a, n) == 0
    ensures Load(Put(mem, a, 1, b), a, n) == b
  {
    var mem1 := mem[a := b % 256];
    assert Put(mem, a, 1, b) == mem1 by { assert Put(mem1, a + 1, 0, b / 256) == mem1; }
    LoadAgrees(mem, mem1, a + 1, n - 1);
    assert Load(mem, a + 1, n - 1) == 0;
  }

  function SizeOf(w: Width): (n: nat)
    ensures n == 4 || n == 8
  {
    match w case W32 => 4 case W64 => 8
  }

  lemma Pow256Of(w: Width)
    ensures Pow256(SizeOf(w)) == Modulus(w)
    ensures Pow256(1) == 256
  {
    assert Pow256(2) == 0x1_0000 && Pow256(4) == 256 * (256 * Pow256(2)) && Pow256(6) == 256 * (256 * Pow256(4));
    assert Pow256(8) == 256 * (256 * Pow256(6));
  }
}
