/** Open addressing with linear probing refines a mathematical map from byte strings. */
module HashMap {
  import opened Arith
  import opened Memory

  type Key = seq<Octet>

  datatype Slot<V> = Empty | Full(key: Key, value: V)

  const INITIAL_CAPACITY: nat := 16

  /** FNV-1a over 32-bit words. */
  function HashFrom(h: int, key: Key): (r: int)
    requires 0 <= h < Modulus(W32)
    ensures 0 <= r < Modulus(W32)
    decreases |key|
  {
    if key == [] then h else HashFrom(Stir(h, key[0]), key[1..])
  }

  function Stir(h: int, b: Octet): (r: int)
    ensures 0 <= r < Modulus(W32)
  {
    (Bitwise(BitXor, h, b, 32) * 16777619) % Modulus(W32)
  }

  function Hash(key: Key): (r: int)
    ensures 0 <= r < Modulus(W32)
  {
    HashFrom(2166136261, key)
  }

  lemma {:induction false} HashSnoc(h: int, key: Key, b: Octet)
    requires 0 <= h < Modulus(W32)
    ensures HashFrom(h, key + [b]) == Stir(HashFrom(h, key), b)
    decreases |key|
  {
    hide Stir;
    if key == [] {
      assert (key + [b])[1..] == [];
    } else {
      assert (key + [b])[1..] == key[1..] + [b];
      HashSnoc(Stir(h, key[0]), key[1..], b);
    }
  }

  method HashString(key: Key) returns (hash: int)
    ensures hash == Hash(key)
  {
    hide Stir;
    hash := 2166136261;
    for i := 0 to |key|
      invariant 0 <= hash < Modulus(W32) && hash == HashFrom(2166136261, key[..i])
    {
      assert key[..i + 1] == key[..i] + [key[i]];
      HashSnoc(2166136261, key[..i], key[i]);
      hash := Stir(hash, key[i]);
    }
    assert key[..|key|] == key;
  }

  /** 'x & (capacity - 1)'. */
  function Mask(x: int, capacity: nat): int {
    Bitwise(BitAnd, x, capacity - 1, 64)
  }

  /** For a power of two, masking is the remainder. */
  lemma {:induction false} MaskIsMod(x: int, k: nat, n: nat)
    requires k <= n && x >= 0
    ensures Bitwise(BitAnd, x, Pow2(k) - 1, n) == x % Pow2(k)
    decreases n
  {
    hide Bitwise, BitApply;
    if k > 0 {
      var p := Pow2(k - 1);
      MaskIsMod(x / 2, k - 1, n - 1);
      MaskStep(x, p, n);
      HalfMod(x, p);
    } else {
      MaskNone(x, n);
      assert x % 1 == 0;
    }
  }

  lemma MaskStep(x: int, p: int, n: nat)
    requires n > 0
    ensures Bitwise(BitAnd, x, 2 * p - 1, n) == x % 2 + 2 * Bitwise(BitAnd, x / 2, p - 1, n - 1)
  {
    assert (2 * p - 1) % 2 == 1 && (2 * p - 1) / 2 == p - 1;
  }

  lemma {:induction false} MaskNone(x: int, n: nat)
    ensures Bitwise(BitAnd, x, 0, n) == 0
    decreases n
  {
    if n > 0 { MaskNone(x / 2, n - 1); }
  }

  lemma HalfMod(x: int, p: int)
    requires p >= 1
    ensures x % (2 * p) == x % 2 + 2 * ((x / 2) % p)
  {
    var q, r := (x / 2) / p, (x / 2) % p;
    assert x / 2 == p * q + r;
    assert x == (2 * p) * q + (x % 2 + 2 * r) by { assert 2 * (p * q) == (2 * p) * q; }
    ModUnique(x, x % 2 + 2 * r, q, 2 * p);
  }

  function Rem(x: nat, m: nat): (r: nat)
    requires m > 0
    ensures r < m
  {
    x % m
  }

  /** The q-th slot probed for a key. */
  function Probe(key: Key, q: nat, capacity: nat): (i: nat)
    requires capacity > 0
    ensures i < capacity
  {
    Rem(Hash(key) + q, capacity)
  }

  /** 'key' stands at its q-th probe, and no earlier probe finds an empty slot. */
  ghost predicate Reached<V>(s: seq<Slot<V>>, key: Key, q: nat)
    requires |s| > 0
  {
    && q < |s| && s[Probe(key, q, |s|)].Full? && s[Probe(key, q, |s|)].key == key
    && forall j :: 0 <= j < q ==> s[Probe(key, j, |s|)].Full?
  }

  ghost predicate Agrees<V>(s: seq<Slot<V>>, m: map<Key, V>) {
    forall i :: 0 <= i < |s| && s[i].Full? ==> s[i].key in m && m[s[i].key] == s[i].value
  }

  ghost predicate OnceEach<V>(s: seq<Slot<V>>) {
    forall i, j :: 0 <= i < j < |s| && s[i].Full? && s[j].Full? ==> s[i].key != s[j].key
  }

  ghost predicate Reachable<V>(s: seq<Slot<V>>, key: Key)
    requires |s| > 0
  {
    exists q: nat :: Reached(s, key, q)
  }

  /** The slots hold exactly the bindings of 'm', each once and each reachable from its home index. */
  ghost predicate Represents<V>(s: seq<Slot<V>>, m: map<Key, V>) {
    |s| > 0 && Agrees(s, m) && OnceEach(s) && forall key :: key in m ==> Reachable(s, key)
  }

  /** What a probe sequence ends with: an empty slot or the key, after slots taken by other keys. */
  ghost predicate Ends<V>(s: seq<Slot<V>>, key: Key, q: nat)
    requires |s| > 0
  {
    && q < |s| && (s[Probe(key, q, |s|)].Full? ==> s[Probe(key, q, |s|)].key == key)
    && forall j :: 0 <= j < q ==> s[Probe(key, j, |s|)].Full? && s[Probe(key, j, |s|)].key != key
  }

  /** Every slot is some probe of every key. */
  lemma ProbeCovers(key: Key, i: nat, capacity: nat) returns (q: nat)
    requires i < capacity
    ensures q < capacity && Probe(key, q, capacity) == i
  {
    hide Hash;
    q := Turn(Hash(key), i, capacity);
  }

  lemma Turn(h: nat, i: nat, m: nat) returns (q: nat)
    requires i < m
    ensures q < m && (h + q) % m == i
  {
    var r, d := h % m, h / m;
    assert h == m * d + r;
    q := if i >= r then i - r else i - r + m;
    if i >= r {
      ModUnique(h + q, i, d, m);
    } else {
      assert m * (d + 1) == m * d + m;
      ModUnique(h + q, i, d + 1, m);
    }
  }

  /** A probe sequence finds a key if and only if the map has it. */
  lemma EndsRight<V>(s: seq<Slot<V>>, m: map<Key, V>, key: Key, q: nat)
    requires Represents(s, m) && Ends(s, key, q)
    ensures s[Probe(key, q, |s|)].Full? <==> key in m
  {
    hide Probe;
    if key in m {
      assert Reachable(s, key);
      var r: nat :| Reached(s, key, r);
      assert q < r ==> s[Probe(key, q, |s|)].Full?;
    }
  }

  /** Writing the slot where the probe sequence ends binds the key. */
  lemma Bound<V>(s: seq<Slot<V>>, m: map<Key, V>, key: Key, q: nat, value: V)
    requires Represents(s, m) && Ends(s, key, q)
    ensures Represents(s[Probe(key, q, |s|) := Full(key, value)], m[key := value])
  {
    hide Probe;
    EndsRight(s, m, key, q);
    var at := Probe(key, q, |s|);
    var s', m' := s[at := Full(key, value)], m[key := value];
    forall i | 0 <= i < |s| && i != at && s[i].Full? ensures s[i].key != key {
      assert s[i].key in m;
    }
    forall k | k in m' ensures Reachable(s', k) {
      if k == key {
        assert Reached(s', key, q);
      } else {
        assert Reachable(s, k);
        var r: nat :| Reached(s, k, r);
        StillReached(s, k, r, at, key, value);
      }
    }
  }

  lemma StillReached<V>(s: seq<Slot<V>>, k: Key, r: nat, at: nat, key: Key, value: V)
    requires |s| > 0 && Reached(s, k, r) && at < |s| && k != key && (s[at].Full? ==> s[at].key == key)
    ensures Reached(s[at := Full(key, value)], k, r)
  {
    hide Probe;
  }

  lemma {:induction false} KeysBelow<V>(s: seq<Slot<V>>, n: nat) returns (keys: set<Key>)
    requires n <= |s| && OnceEach(s) && forall i :: 0 <= i < n ==> s[i].Full?
    ensures |keys| == n && forall k :: k in keys <==> exists i :: 0 <= i < n && s[i].key == k
  {
    keys := {};
    if n > 0 {
      var rest := KeysBelow(s, n - 1);
      assert s[n - 1].key !in rest;
      keys := rest + {s[n - 1].key};
    }
  }

  /** Fewer bindings than slots leave a slot empty. */
  lemma HasEmpty<V>(s: seq<Slot<V>>, m: map<Key, V>)
    requires Represents(s, m) && |m| < |s|
    ensures exists i :: 0 <= i < |s| && s[i].Empty?
  {
    if forall i :: 0 <= i < |s| ==> s[i].Full? {
      var keys := KeysBelow(s, |s|);
      assert keys <= m.Keys;
      Subset(keys, m.Keys);
    }
  }

  lemma Subset(a: set<Key>, b: set<Key>)
    requires a <= b
    ensures |a| <= |b|
  {
    assert b == a + (b - a);
  }

  /** Probes from the home index to the key or an empty slot; an empty slot makes it end. */
  method FindEntry<V>(entries: array<Slot<V>>, ghost bits: nat, key: Key) returns (index: nat, ghost q: nat)
    requires entries.Length == Pow2(bits) && bits <= 64 && exists i :: 0 <= i < entries.Length && entries[i].Empty?
    ensures index == Probe(key, q, entries.Length) && Ends(entries[..], key, q)
  {
    hide Hash, Pow2, Probe, Mask;
    ghost var free :| 0 <= free < entries.Length && entries[free].Empty?;
    ghost var last := ProbeCovers(key, free, entries.Length);
    var hash := HashString(key);
    HomeProbe(key, bits);
    index, q := Mask(hash, entries.Length), 0;
    while entries[index].Full? && entries[index].key != key
      invariant q <= last && index == Probe(key, q, entries.Length)
      invariant forall j :: 0 <= j < q ==> entries[Probe(key, j, entries.Length)].Full? && entries[Probe(key, j, entries.Length)].key != key
      decreases last - q
    {
      NextProbe(key, q, bits);
      index, q := Mask(index + 1, entries.Length), q + 1;
    }
  }

  lemma HomeProbe(key: Key, bits: nat)
    requires bits <= 64
    ensures Mask(Hash(key), Pow2(bits)) == Probe(key, 0, Pow2(bits))
  {
    hide Hash, Pow2, Rem, Mask;
    MaskIsRem(Hash(key), bits);
  }

  lemma MaskIsRem(x: nat, bits: nat)
    requires bits <= 64
    ensures Mask(x, Pow2(bits)) == Rem(x, Pow2(bits))
  {
    hide Pow2;
    MaskIsMod(x, bits, 64);
  }

  /** Stepping with wrap-around goes to the next probe. */
  lemma NextProbe(key: Key, q: nat, bits: nat)
    requires bits <= 64
    ensures Mask(Probe(key, q, Pow2(bits)) + 1, Pow2(bits)) == Probe(key, q + 1, Pow2(bits))
  {
    hide Hash, Pow2, Mask, Rem;
    MaskIsRem(Probe(key, q, Pow2(bits)) + 1, bits);
    ModNext(Hash(key) + q, Pow2(bits));
  }

  lemma ModNext(h: nat, m: nat)
    requires m > 0
    ensures Rem(Rem(h, m) + 1, m) == Rem(h + 1, m)
  {
    var r, d := h % m, h / m;
    assert h == m * d + r;
    if r + 1 < m {
      ModUnique(h + 1, r + 1, d, m);
      ModUnique(r + 1, r + 1, 0, m);
    } else {
      assert m * (d + 1) == m * d + m;
      ModUnique(h + 1, 0, d + 1, m);
      ModUnique(r + 1, 0, 1, m);
    }
  }

  /** The bindings of the first 'n' slots. */
  ghost function Bindings<V>(s: seq<Slot<V>>, n: nat): map<Key, V>
    requires n <= |s|
  {
    if n == 0 then map[]
    else if s[n - 1].Empty? then Bindings(s, n - 1)
    else Bindings(s, n - 1)[s[n - 1].key := s[n - 1].value]
  }

  lemma {:induction false} BindingsIn<V>(s: seq<Slot<V>>, m: map<Key, V>, n: nat)
    requires Agrees(s, m) && OnceEach(s) && n <= |s|
    ensures forall k :: k in Bindings(s, n) ==> k in m && Bindings(s, n)[k] == m[k]
    ensures forall i :: 0 <= i < n && s[i].Full? ==> s[i].key in Bindings(s, n)
  {
    if n > 0 { BindingsIn(s, m, n - 1); }
  }

  /** All slots together hold the whole map. */
  lemma BindingsAll<V>(s: seq<Slot<V>>, m: map<Key, V>)
    requires Represents(s, m)
    ensures Bindings(s, |s|) == m
  {
    hide Probe;
    BindingsIn(s, m, |s|);
    forall k | k in m ensures k in Bindings(s, |s|) {
      assert Reachable(s, k);
      var q: nat :| Reached(s, k, q);
    }
  }

  lemma Parts<V>(s: seq<Slot<V>>, m: map<Key, V>)
    requires Represents(s, m)
    ensures Agrees(s, m) && OnceEach(s)
  {
  }

  lemma NoneBound<V>(s: seq<Slot<V>>)
    requires |s| > 0 && forall i :: 0 <= i < |s| ==> s[i].Empty?
    ensures Represents(s, map[])
  {
  }

  lemma Pow2Next(n: nat)
    ensures Pow2(n + 1) == 2 * Pow2(n)
  {
  }

  class Table<V(0)> {
    var entries: array<Slot<V>>
    var count: nat
    /** The map that the table refines, and the logarithm of the capacity. */
    ghost var contents: map<Key, V>
    ghost var bits: nat

    /** The load stays below three quarters of a power-of-two capacity. */
    ghost predicate Valid()
      reads this, entries
    {
      && 4 <= bits && INITIAL_CAPACITY <= entries.Length == Pow2(bits) && count == |contents| && 4 * count < 3 * entries.Length
      && Represents(entries[..], contents)
    }

    constructor ()
      ensures Valid() && contents == map[] && fresh(entries)
    {
      entries := new Slot<V>[INITIAL_CAPACITY](_ => Empty);
      count, contents, bits := 0, map[], 4;
      new;
      NoneBound(entries[..]);
      assert Pow2(2) == 4 && Pow2(4) == 16;
    }

    method Resize(newCapacity: nat)
      requires Valid() && newCapacity == 2 * entries.Length && bits < 64
      modifies this
      ensures Valid() && contents == old(contents) && bits == old(bits) + 1 && fresh(entries) && count == old(count)
      ensures entries.Length == newCapacity
    {
      hide Represents, Pow2, Probe, Ends, Agrees, OnceEach;
      Pow2Next(bits);
      ghost var was := entries[..];
      assert Agrees(was, contents) && OnceEach(was) by { Parts(was, contents); }
      var newEntries := new Slot<V>[newCapacity](_ => Empty);
      ghost var done: map<Key, V> := map[];
      NoneBound(newEntries[..]);
      for i := 0 to entries.Length
        invariant entries == old(entries) && entries[..] == was && fresh(newEntries)
        invariant Represents(newEntries[..], done) && done == Bindings(was, i)
        modifies newEntries
      {
        if entries[i].Full? {
          BindingsIn(was, contents, i);
          Subset(done.Keys, contents.Keys);
          HasEmpty(newEntries[..], done);
          var key := entries[i].key;
          var dest, q := FindEntry(newEntries, bits + 1, key);
          Bound(newEntries[..], done, key, q, entries[i].value);
          ghost var before := newEntries[..];
          newEntries[dest] := entries[i];
          assert newEntries[..] == before[dest := entries[i]];
          done := done[key := entries[i].value];
        }
      }
      BindingsAll(was, contents);
      entries := newEntries;
      bits := bits + 1;
    }

    method Set(key: Key, value: V)
      requires Valid() && bits < 63
      modifies this, entries
      ensures Valid() && contents == old(contents)[key := value]
      ensures bits == old(bits) + if 4 * (|old(contents)| + 1) >= 3 * Pow2(old(bits)) then 1 else 0
      ensures entries == old(entries) || fresh(entries)
    {
      hide Represents, Pow2, Probe;
      if (count + 1) * 4 >= entries.Length * 3 { Resize(entries.Length * 2); }
      ghost var was := entries[..];
      HasEmpty(was, contents);
      var index, q := FindEntry(entries, bits, key);
      EndsRight(was, contents, key, q);
      Bound(was, contents, key, q, value);
      assert was[index].Full? <==> key in contents;
      if entries[index].Empty? { count := count + 1; }
      entries[index] := Full(key, value);
      assert entries[..] == was[index := Full(key, value)];
      contents := contents[key := value];
    }

    method Get(key: Key) returns (value: Option<V>)
      requires Valid() && bits <= 64
      ensures value == if key in contents then Some(contents[key]) else None
    {
      hide Pow2, Probe;
      if count == 0 {
        assert contents == map[];
        return None;
      }
      HasEmpty(entries[..], contents);
      var index, q := FindEntry(entries, bits, key);
      EndsRight(entries[..], contents, key, q);
      value := if entries[index].Full? then Some(entries[index].value) else None;
    }
  }
}
