/** Phase 3 of the back end: operand combinations the processor lacks are rewritten through
    %r10 and %r11, with the same effect on everything else. */
module Fixup {
  import opened Arith
  import opened Memory
  import opened X86
  import opened LP = LowerProof

  predicate IsMemory(o: Operand) {
    o.Stack? || o.Data?
  }

  predicate FitsInt32(i: int) {
    -0x8000_0000 <= i < 0x8000_0000
  }

  predicate IsLargeImm(o: Operand) {
    o.Imm? && !FitsInt32(o.i)
  }

  const VIA_R10 := RegOp(R10)
  const VIA_R11 := RegOp(R11)

  function FixMov(w: Width, src: Operand, dst: Operand): seq<AInstr> {
    var s := if w.W32? && src.Imm? then Imm(Wrap(src.i, W32)) else src;
    if (IsMemory(s) && IsMemory(dst)) || IsLargeImm(s) then [Mov(w, s, VIA_R10), Mov(w, VIA_R10, dst)]
    else [Mov(w, s, dst)]
  }

  function FixMovsx(src: Operand, dst: Operand): seq<AInstr> {
    var s := if src.Imm? then VIA_R10 else src;
    (if src.Imm? then [Mov(W32, src, VIA_R10)] else [])
    + (if IsMemory(dst) then [Movsx(s, VIA_R11), Mov(W64, VIA_R11, dst)] else [Movsx(s, dst)])
  }

  function FixBinary(w: Width, op: BinaryOp, src: Operand, dst: Operand): seq<AInstr> {
    var viaR10 := (IsMemory(src) && IsMemory(dst)) || IsLargeImm(src);
    var s := if viaR10 then VIA_R10 else src;
    (if viaR10 then [Mov(w, src, VIA_R10)] else [])
    + (if op.ImulOp? && IsMemory(dst) then [Mov(w, dst, VIA_R11), Binary(w, op, s, VIA_R11), Mov(w, VIA_R11, dst)]
       else [Binary(w, op, s, dst)])
  }

  function FixIdiv(w: Width, divisor: Operand): seq<AInstr> {
    if divisor.Imm? then [Mov(w, divisor, VIA_R10), Idiv(w, VIA_R10)] else [Idiv(w, divisor)]
  }

  function FixCmp(w: Width, src: Operand, dst: Operand): seq<AInstr> {
    var viaR10 := (IsMemory(src) && IsMemory(dst)) || IsLargeImm(src);
    (if viaR10 then [Mov(w, src, VIA_R10)] else [])
    + ((if dst.Imm? then [Mov(w, dst, VIA_R11)] else [])
       + [Cmp(w, if viaR10 then VIA_R10 else src, if dst.Imm? then VIA_R11 else dst)])
  }

  function FixPush(src: Operand): seq<AInstr> {
    if IsLargeImm(src) then [Mov(W64, src, VIA_R10), Push(VIA_R10)] else [Push(src)]
  }

  function Fix(i: AInstr): seq<AInstr> {
    match i
    case Mov(w, s, d) => FixMov(w, s, d)
    case Movsx(s, d) => FixMovsx(s, d)
    case Binary(w, op, s, d) => FixBinary(w, op, s, d)
    case Idiv(w, s) => FixIdiv(w, s)
    case Cmp(w, s, d) => FixCmp(w, s, d)
    case Push(s) => FixPush(s)
    case _ => [i]
  }

  function FixAll(code: seq<AInstr>): seq<AInstr> {
    if code == [] then [] else Fix(code[0]) + FixAll(code[1..])
  }

  lemma {:induction false} FixAppend(a: seq<AInstr>, b: seq<AInstr>)
    ensures FixAll(a + b) == FixAll(a) + FixAll(b)
  {
    if a == [] {
      assert a + b == b;
    } else {
      assert (a + b)[1..] == a[1..] + b;
      FixAppend(a[1..], b);
    }
  }

  predicate Scratch(o: Operand) {
    o == VIA_R10 || o == VIA_R11
  }

  /** What lowering and slot assignment hand over: no pseudos, no scratch registers, and only a
      comparison may have an immediate destination. */
  predicate Lowered(i: AInstr) {
    match i
    case Mov(_, s, d) => Plain(s) && Plain(d) && !d.Imm?
    case Movsx(s, d) => Plain(s) && Plain(d) && !d.Imm?
    case Unary(_, _, d) => Plain(d) && !d.Imm?
    case Binary(_, _, s, d) => Plain(s) && Plain(d) && !d.Imm?
    case Cmp(_, s, d) => Plain(s) && Plain(d)
    case Idiv(_, s) => Plain(s)
    case Setcc(_, d) => Plain(d) && !d.Imm?
    case Push(s) => Plain(s)
    case _ => true
  }

  /** An immediate of 8 bits, signed or unsigned, as shift counts are. */
  predicate FitsByte(v: int) {
    -128 <= v <= 255
  }

  /** Immediates fit the width at which they are used; a shift count is an immediate byte or %cx. */
  predicate Sized(i: AInstr) {
    match i
    case Movsx(s, _) => !IsLargeImm(s)
    case Binary(w, op, s, _) =>
      (w.W32? ==> !IsLargeImm(s)) && (op.SalOp? || op.SarOp? ==> (s.Imm? && FitsByte(s.i)) || s == RegOp(CX))
    case Cmp(w, s, d) => w.W32? ==> !IsLargeImm(s) && !IsLargeImm(d)
    case Idiv(w, s) => w.W32? ==> !IsLargeImm(s)
    case _ => true
  }

  predicate Plain(o: Operand) {
    !o.PseudoOp? && !Scratch(o)
  }

  /** Operand combinations that exist on the processor. */
  predicate Legal(i: AInstr) {
    match i
    case Mov(w, s, d) => !d.Imm? && !(IsMemory(s) && IsMemory(d)) && (IsLargeImm(s) ==> w.W64? && d.RegOp?)
    case Movsx(s, d) => !s.Imm? && d.RegOp?
    case Unary(_, _, d) => !d.Imm?
    case Binary(w, op, s, d) =>
      && !d.Imm? && !(IsMemory(s) && IsMemory(d)) && !IsLargeImm(s) && (op.ImulOp? ==> d.RegOp?)
      && (op.SalOp? || op.SarOp? ==> (s.Imm? && FitsByte(s.i)) || s == RegOp(CX))
    case Cmp(_, s, d) => !d.Imm? && !(IsMemory(s) && IsMemory(d)) && !IsLargeImm(s)
    case Idiv(_, s) => !s.Imm?
    case Setcc(_, d) => !d.Imm?
    case Push(s) => !IsLargeImm(s)
    case _ => true
  }

  /** Legalisation is complete. */
  lemma {:induction false} FixLegal(code: seq<AInstr>, k: nat)
    requires forall j :: 0 <= j < |code| ==> Lowered(code[j]) && Sized(code[j])
    requires k < |FixAll(code)|
    ensures Legal(FixAll(code)[k])
  {
    if k < |Fix(code[0])| {
      FixLegalOne(code[0], k);
    } else {
      FixLegal(code[1..], k - |Fix(code[0])|);
    }
  }

  lemma FixLegalOne(i: AInstr, k: nat)
    requires Lowered(i) && Sized(i) && k < |Fix(i)|
    ensures Legal(Fix(i)[k])
  {
  }

  /** Equal but for the scratch registers. */
  ghost predicate Similar(m: Mach, m': Mach) {
    && m'.mem == m.mem && m'.flags == m.flags && m'.trace == m.trace
    && forall r: Reg :: r != R10 && r != R11 ==> RegOf(m', r) == RegOf(m, r)
  }

  ghost predicate SameOutcome(a: Outcome, b: Outcome) {
    match a
    case Next(m) => b.Next? && Similar(m, b.m)
    case Goto(l, m) => b.Goto? && b.l == l && Similar(m, b.m)
    case Exit(m, to) => b.Exit? && b.to == to && Similar(m, b.m)
    case Fault => b.Fault?
  }

  lemma SimilarGet(m: Mach, m': Mach, o: Operand, n: nat, p: Places)
    requires Similar(m, m') && !Scratch(o)
    ensures Get(m', o, n, p) == Get(m, o, n, p)
    ensures InMemory(o) ==> Address(m', o, p) == Address(m, o, p)
  {
  }

  lemma SimilarSet(m: Mach, m': Mach, o: Operand, w: Width, x: int, p: Places)
    requires Similar(m, m') && !Scratch(o)
    ensures Similar(Set(m, o, w, x, p), Set(m', o, w, x, p))
  {
    if o.RegOp? {
      forall r: Reg | r != R10 && r != R11 ensures RegOf(Set(m', o, w, x, p), r) == RegOf(Set(m, o, w, x, p), r) {
        assert RegOf(m', r) == RegOf(m, r);
      }
    } else {
      forall r: Reg | r != R10 && r != R11 ensures RegOf(Set(m', o, w, x, p), r) == RegOf(Set(m, o, w, x, p), r) {
        assert RegOf(m', r) == RegOf(m, r);
      }
    }
  }

  lemma ScratchSet(m: Mach, m': Mach, r: Reg, w: Width, x: int, p: Places)
    requires Similar(m, m') && (r == R10 || r == R11)
    ensures Similar(m, Set(m', RegOp(r), w, x, p))
  {
    var m2 := Set(m', RegOp(r), w, x, p);
    forall q: Reg | q != R10 && q != R11 ensures RegOf(m2, q) == RegOf(m, q) {
      assert RegOf(m', q) == RegOf(m, q);
    }
  }

  lemma SimilarFlags(m: Mach, m': Mach, fl: Flags)
    requires Similar(m, m')
    ensures Similar(m.(flags := fl), m'.(flags := fl))
  {
    forall r: Reg | r != R10 && r != R11 ensures RegOf(m'.(flags := fl), r) == RegOf(m.(flags := fl), r) {
      assert RegOf(m', r) == RegOf(m, r);
    }
  }

  /** An instruction that does not mention the scratch registers does not depend on them. */
  lemma PlainExec(i: AInstr, m: Mach, m': Mach, p: Places, calls: Calls)
    requires Similar(m, m') && Lowered(i) && !i.Call?
    ensures SameOutcome(Exec(i, m, p, calls), Exec(i, m', p, calls))
  {
    hide Load, Put, BinaryResult, Divide, CmpFlags, Holds, Wrap, Similar, Set, Get, Leave, SetByte;
    match i
    case Mov(w, s, d) =>
      SimilarGet(m, m', s, SizeOf(w), p);
      SimilarSet(m, m', d, w, GetW(m, s, w, p), p);
    case Movsx(s, d) =>
      SimilarGet(m, m', s, 4, p);
      SimilarSet(m, m', d, W64, Wrap(Get(m, s, 4, p), W32), p);
    case Unary(w, op, d) =>
      SimilarGet(m, m', d, SizeOf(w), p);
      var r := UnaryResult(op, GetW(m, d, w, p), w);
      SimilarSet(m, m', d, w, r, p);
      SimilarFlags(Set(m, d, w, r, p), Set(m', d, w, r, p), Unknown);
    case Binary(w, op, s, d) =>
      SimilarGet(m, m', s, SizeOf(w), p);
      SimilarGet(m, m', d, SizeOf(w), p);
      var r := BinaryResult(op, GetW(m, d, w, p), GetW(m, s, w, p), w);
      SimilarSet(m, m', d, w, r, p);
      SimilarFlags(Set(m, d, w, r, p), Set(m', d, w, r, p), Unknown);
    case Cmp(w, s, d) =>
      SimilarGet(m, m', s, SizeOf(w), p);
      SimilarGet(m, m', d, SizeOf(w), p);
      SimilarFlags(m, m', CmpFlags(GetW(m, d, w, p), GetW(m, s, w, p), w));
    case Idiv(w, s) => PlainIdiv(w, s, m, m', p, calls);
    case Cdq(w) =>
      SimilarGet(m, m', RegOp(AX), SizeOf(w), p);
      SimilarSet(m, m', RegOp(DX), w, if Wrap(GetW(m, RegOp(AX), w, p), w) < 0 then -1 else 0, p);
    case _ => PlainRest(i, m, m', p, calls);
  }

  lemma PlainIdiv(w: Width, s: Operand, m: Mach, m': Mach, p: Places, calls: Calls)
    requires Similar(m, m') && Plain(s)
    ensures SameOutcome(Exec(Idiv(w, s), m, p, calls), Exec(Idiv(w, s), m', p, calls))
  {
    hide Load, Put, Divide, Wrap, Similar, Set, Get;
    SimilarGet(m, m', s, SizeOf(w), p);
    SimilarGet(m, m', RegOp(AX), SizeOf(w), p);
    SimilarGet(m, m', RegOp(DX), SizeOf(w), p);
    var r := Divide(GetW(m, RegOp(DX), w, p), GetW(m, RegOp(AX), w, p), GetW(m, s, w, p), w);
    if r.Some? {
      SimilarSet(m, m', RegOp(AX), w, r.value.0, p);
      var n, n' := Set(m, RegOp(AX), w, r.value.0, p), Set(m', RegOp(AX), w, r.value.0, p);
      SimilarSet(n, n', RegOp(DX), w, r.value.1, p);
      SimilarFlags(Set(n, RegOp(DX), w, r.value.1, p), Set(n', RegOp(DX), w, r.value.1, p), Unknown);
    }
  }

  lemma PlainRest(i: AInstr, m: Mach, m': Mach, p: Places, calls: Calls)
    requires Similar(m, m') && Lowered(i)
    requires i.Jmp? || i.Jcc? || i.Setcc? || i.LabelAt? || i.Push? || i.Ret?
    ensures SameOutcome(Exec(i, m, p, calls), Exec(i, m', p, calls))
  {
    hide Load, Put, Holds, Similar, SetByte, Get, Leave;
    SimilarSame(m, m');
    match i
    case Setcc(c, d) => if m.flags.Flags? { PlainByte(m, m', d, if Holds(c, m.flags) then 1 else 0, p); }
    case Push(s) => PlainPush(m, m', s, p, calls);
    case Ret => PlainLeave(m, m');
    case _ =>
  }

  lemma SimilarSame(m: Mach, m': Mach)
    requires Similar(m, m')
    ensures m'.flags == m.flags && m'.mem == m.mem && m'.trace == m.trace && RegOf(m', BP) == RegOf(m, BP)
  {
  }

  lemma PlainByte(m: Mach, m': Mach, d: Operand, b: Octet, p: Places)
    requires Similar(m, m') && Plain(d)
    ensures Similar(SetByte(m, d, b, p), SetByte(m', d, b, p))
  {
    hide Put;
    forall r: Reg | r != R10 && r != R11 ensures RegOf(SetByte(m', d, b, p), r) == RegOf(SetByte(m, d, b, p), r) {
      assert RegOf(m', r) == RegOf(m, r);
    }
  }

  function Pushed(m: Mach, v: int): Mach {
    var sp := (RegOf(m, SP) - 8) % Modulus(W64);
    SetReg(m, SP, sp).(mem := Put(m.mem, sp, 8, v))
  }

  lemma PushIs(s: Operand, m: Mach, p: Places, calls: Calls)
    ensures Exec(Push(s), m, p, calls) == Next(Pushed(m, Get(m, s, 8, p)))
  {
    hide Put, Load, Get;
  }

  lemma SimilarPushed(m: Mach, m': Mach, v: int)
    requires Similar(m, m')
    ensures Similar(Pushed(m, v), Pushed(m', v))
  {
    hide Put;
    assert RegOf(m', SP) == RegOf(m, SP);
    forall r: Reg | r != R10 && r != R11 ensures RegOf(Pushed(m', v), r) == RegOf(Pushed(m, v), r) {
      assert RegOf(m', r) == RegOf(m, r);
    }
  }

  lemma PlainPush(m: Mach, m': Mach, s: Operand, p: Places, calls: Calls)
    requires Similar(m, m') && Plain(s)
    ensures SameOutcome(Exec(Push(s), m, p, calls), Exec(Push(s), m', p, calls))
  {
    hide Pushed, Get, Exec, Similar;
    SimilarGet(m, m', s, 8, p);
    PushIs(s, m, p, calls);
    PushIs(s, m', p, calls);
    SimilarPushed(m, m', Get(m, s, 8, p));
  }

  lemma PlainLeave(m: Mach, m': Mach)
    requires Similar(m, m')
    ensures Similar(Leave(m), Leave(m'))
  {
    hide Load;
    forall r: Reg | r != R10 && r != R11 ensures RegOf(Leave(m'), r) == RegOf(Leave(m), r) {
      assert RegOf(m', r) == RegOf(m, r);
    }
  }

  lemma SimilarTrans(a: Mach, b: Mach, c: Mach)
    requires Similar(a, b) && Similar(b, c)
    ensures Similar(a, c)
  {
    forall r: Reg | r != R10 && r != R11 ensures RegOf(c, r) == RegOf(a, r) {
      assert RegOf(b, r) == RegOf(a, r);
    }
  }

  lemma ModMod(x: int, w: Width)
    ensures (x % Modulus(w)) % Modulus(w) == x % Modulus(w)
  {
  }

  /** 'mov s, %r10' makes %r10 read as 's' at the same width. */
  lemma Stash(m: Mach, r: Reg, s: Operand, w: Width, p: Places) returns (m': Mach)
    requires r == R10 || r == R11
    ensures m' == Set(m, RegOp(r), w, GetW(m, s, w, p), p) && Similar(m, m')
    ensures GetW(m', RegOp(r), w, p) == GetW(m, s, w, p)
    ensures forall q: Reg :: q != r ==> RegOf(m', q) == RegOf(m, q)
  {
    hide Load;
    m' := Set(m, RegOp(r), w, GetW(m, s, w, p), p);
    Pow256Of(w);
    ModMod(GetW(m, s, w, p), w);
    FullW(GetW(m, s, w, p), w);
    assert Similar(m, m) by { }
    ScratchSet(m, m, r, w, GetW(m, s, w, p), p);
  }

  lemma FullW(x: int, w: Width)
    requires 0 <= x < Modulus(w)
    ensures x % Modulus(w) == x
  {
  }

  lemma MovFix(w: Width, s: Operand, d: Operand, m: Mach, p: Places, calls: Calls)
    requires Lowered(Mov(w, s, d))
    ensures SameOutcome(Exec(Mov(w, s, d), m, p, calls), ExecAll(FixMov(w, s, d), m, p, calls))
  {
    hide Load, Put, Wrap, Exec, ExecAll, Set, Get;
    var t := if w.W32? && s.Imm? then Imm(Wrap(s.i, W32)) else s;
    assert GetW(m, t, w, p) == GetW(m, s, w, p) by { ImmSame(m, s, p); }
    LP.MovIs(w, s, d, m, p, calls);
    LP.MovIs(w, t, d, m, p, calls);
    if (IsMemory(t) && IsMemory(d)) || IsLargeImm(t) {
      var m1 := Stash(m, R10, t, w, p);
      LP.MovIs(w, t, VIA_R10, m, p, calls);
      LP.MovIs(w, VIA_R10, d, m1, p, calls);
      SimilarSet(m, m1, d, w, GetW(m, t, w, p), p);
      LP.Two(Mov(w, t, VIA_R10), Mov(w, VIA_R10, d), m, m1, Next(Set(m1, d, w, GetW(m, t, w, p), p)), p, calls);
    } else {
      LP.One(Mov(w, t, d), m, p, calls);
      SimilarRefl(Set(m, d, w, GetW(m, t, w, p), p));
    }
  }

  lemma ImmSame(m: Mach, s: Operand, p: Places)
    ensures s.Imm? ==> GetW(m, Imm(Wrap(s.i, W32)), W32, p) == GetW(m, s, W32, p)
  {
    Pow256Of(W32);
  }

  lemma SimilarRefl(m: Mach)
    ensures Similar(m, m)
  {
  }

  lemma MovsxFix(s: Operand, d: Operand, m: Mach, p: Places, calls: Calls)
    requires Lowered(Movsx(s, d))
    ensures SameOutcome(Exec(Movsx(s, d), m, p, calls), ExecAll(FixMovsx(s, d), m, p, calls))
  {
    hide Load, Put, Wrap, ExecAll, Similar, Get;
    var m1, t := m, s;
    SimilarRefl(m);
    if s.Imm? {
      m1 := Stash(m, R10, s, W32, p);
      t := VIA_R10;
    }
    var x := Wrap(Get(m, s, 4, p), W32);
    assert Get(m1, t, 4, p) == Get(m, s, 4, p);
    var tail := if IsMemory(d) then [Movsx(t, VIA_R11), Mov(W64, VIA_R11, d)] else [Movsx(t, d)];
    var m2 := MovsxTail(m, m1, t, d, x, p, calls);
    ExecAppend(if s.Imm? then [Mov(W32, s, VIA_R10)] else [], tail, m, p, calls);
    if s.Imm? { LP.One(Mov(W32, s, VIA_R10), m, p, calls); } else { NoneToRun(m, p, calls); }
  }

  lemma NoneToRun(m: Mach, p: Places, calls: Calls)
    ensures ExecAll([], m, p, calls) == Next(m)
  {
  }

  lemma MovsxTail(m: Mach, m1: Mach, t: Operand, d: Operand, x: int, p: Places, calls: Calls) returns (m2: Mach)
    requires Similar(m, m1) && Plain(d) && !d.Imm? && x == Wrap(Get(m1, t, 4, p), W32)
    ensures ExecAll(if IsMemory(d) then [Movsx(t, VIA_R11), Mov(W64, VIA_R11, d)] else [Movsx(t, d)], m1, p, calls) == Next(m2)
    ensures Similar(Set(m, d, W64, x, p), m2)
  {
    hide Load, Put, Wrap, ExecAll, Similar, Get;
    if IsMemory(d) {
      var a := Set(m1, VIA_R11, W64, x, p);
      ScratchSet(m, m1, R11, W64, x, p);
      RegNow(m1, R11, x, p);
      m2 := Set(a, d, W64, x % Modulus(W64), p);
      SimilarSet(m, a, d, W64, x % Modulus(W64), p);
      StoreMod(m, d, x, p);
      LP.Two(Movsx(t, VIA_R11), Mov(W64, VIA_R11, d), m1, a, Next(m2), p, calls);
    } else {
      m2 := Set(m1, d, W64, x, p);
      SimilarSet(m, m1, d, W64, x, p);
      LP.One(Movsx(t, d), m1, p, calls);
    }
  }

  lemma RegNow(m: Mach, r: Reg, x: int, p: Places)
    ensures GetW(Set(m, RegOp(r), W64, x, p), RegOp(r), W64, p) == x % Modulus(W64)
  {
    Pow256Of(W64);
  }

  /** A store keeps only the bits of its width. */
  lemma StoreMod(m: Mach, d: Operand, x: int, p: Places)
    requires IsMemory(d)
    ensures Set(m, d, W64, x % Modulus(W64), p) == Set(m, d, W64, x, p)
  {
    Pow256Of(W64);
    PutMod(m.mem, Address(m, d, p), 8, x);
  }

  lemma {:induction false} PutMod(mem: Bytes, a: int, n: nat, v: int)
    ensures Put(mem, a, n, v % Pow256(n)) == Put(mem, a, n, v)
    decreases n
  {
    if n > 0 {
      var q := Pow256(n - 1);
      ModSplit(v, q);
      var u := v % (256 * q);
      assert u % 256 == v % 256 && u / 256 == (v / 256) % q;
      PutMod(mem[a := v % 256], a + 1, n - 1, v / 256);
    }
  }

  lemma IdivFix(w: Width, s: Operand, m: Mach, p: Places, calls: Calls)
    requires Lowered(Idiv(w, s))
    ensures SameOutcome(Exec(Idiv(w, s), m, p, calls), ExecAll(FixIdiv(w, s), m, p, calls))
  {
    hide Load, Put, Wrap, ExecAll, Similar, Divide, Get, Set;
    SimilarRefl(m);
    if s.Imm? {
      var m1 := Stash(m, R10, s, w, p);
      SimilarGet(m, m1, RegOp(AX), SizeOf(w), p);
      SimilarGet(m, m1, RegOp(DX), SizeOf(w), p);
      var r := Divide(GetW(m, RegOp(DX), w, p), GetW(m, RegOp(AX), w, p), GetW(m, s, w, p), w);
      if r.Some? {
        SimilarSet(m, m1, RegOp(AX), w, r.value.0, p);
        var n, n' := Set(m, RegOp(AX), w, r.value.0, p), Set(m1, RegOp(AX), w, r.value.0, p);
        SimilarSet(n, n', RegOp(DX), w, r.value.1, p);
        SimilarFlags(Set(n, RegOp(DX), w, r.value.1, p), Set(n', RegOp(DX), w, r.value.1, p), Unknown);
      }
      LP.Two(Mov(w, s, VIA_R10), Idiv(w, VIA_R10), m, m1, Exec(Idiv(w, VIA_R10), m1, p, calls), p, calls);
    } else {
      LP.One(Idiv(w, s), m, p, calls);
      PlainIdiv(w, s, m, m, p, calls);
    }
  }

  lemma PushFix(s: Operand, m: Mach, p: Places, calls: Calls)
    requires Lowered(Push(s))
    ensures SameOutcome(Exec(Push(s), m, p, calls), ExecAll(FixPush(s), m, p, calls))
  {
    hide Load, Put, Wrap, ExecAll, Get, Set, Exec, Similar, Pushed;
    SimilarRefl(m);
    PushIs(s, m, p, calls);
    if IsLargeImm(s) {
      var m1 := Stash(m, R10, s, W64, p);
      LP.MovIs(W64, s, VIA_R10, m, p, calls);
      PushIs(VIA_R10, m1, p, calls);
      SimilarPushed(m, m1, Get(m, s, 8, p));
      LP.Two(Mov(W64, s, VIA_R10), Push(VIA_R10), m, m1, Exec(Push(VIA_R10), m1, p, calls), p, calls);
    } else {
      LP.One(Push(s), m, p, calls);
      SimilarRefl(Pushed(m, Get(m, s, 8, p)));
    }
  }

  /** Optional detour of a source operand through %r10. */
  lemma Detour(via: bool, s: Operand, w: Width, m: Mach, p: Places, calls: Calls) returns (m1: Mach)
    ensures ExecAll(if via then [Mov(w, s, VIA_R10)] else [], m, p, calls) == Next(m1) && Similar(m, m1)
    ensures GetW(m1, if via then VIA_R10 else s, w, p) == GetW(m, s, w, p)
  {
    hide Load, Wrap, Get, Set, ExecAll, Similar;
    SimilarRefl(m);
    m1 := m;
    if via {
      m1 := Stash(m, R10, s, w, p);
      LP.One(Mov(w, s, VIA_R10), m, p, calls);
    } else {
      NoneToRun(m, p, calls);
    }
  }

  lemma CmpSame(w: Width, s: Operand, d: Operand, t: Operand, e: Operand, m: Mach, m2: Mach, p: Places, calls: Calls)
    requires Similar(m, m2) && GetW(m2, t, w, p) == GetW(m, s, w, p) && GetW(m2, e, w, p) == GetW(m, d, w, p)
    ensures SameOutcome(Exec(Cmp(w, s, d), m, p, calls), Exec(Cmp(w, t, e), m2, p, calls))
  {
    hide Similar, GetW, CmpFlags;
    SimilarFlags(m, m2, CmpFlags(GetW(m, d, w, p), GetW(m, s, w, p), w));
  }

  lemma CmpFix(w: Width, s: Operand, d: Operand, m: Mach, p: Places, calls: Calls)
    requires Lowered(Cmp(w, s, d))
    ensures SameOutcome(Exec(Cmp(w, s, d), m, p, calls), ExecAll(FixCmp(w, s, d), m, p, calls))
  {
    hide Load, Wrap, Get, Set, ExecAll, Exec, Similar, CmpFlags, SameOutcome;
    var via := (IsMemory(s) && IsMemory(d)) || IsLargeImm(s);
    var t := if via then VIA_R10 else s;
    var m1 := Detour(via, s, w, m, p, calls);
    SimilarGet(m, m1, d, SizeOf(w), p);
    var m2, e := m1, d;
    if d.Imm? {
      m2 := Stash(m1, R11, d, w, p);
      e := VIA_R11;
      SimilarTrans(m, m1, m2);
      KeepT(m1, m2, t, w, p);
      LP.MovIs(w, d, VIA_R11, m1, p, calls);
      LP.Two(Mov(w, d, VIA_R11), Cmp(w, t, e), m1, m2, Exec(Cmp(w, t, e), m2, p, calls), p, calls);
      assert [Mov(w, d, VIA_R11)] + [Cmp(w, t, e)] == [Mov(w, d, VIA_R11), Cmp(w, t, e)];
    } else {
      LP.One(Cmp(w, t, e), m1, p, calls);
      assert [] + [Cmp(w, t, e)] == [Cmp(w, t, e)];
    }
    CmpSame(w, s, d, t, e, m, m2, p, calls);
    ExecAppend(if via then [Mov(w, s, VIA_R10)] else [],
               (if d.Imm? then [Mov(w, d, VIA_R11)] else []) + [Cmp(w, t, e)], m, p, calls);
  }

  /** Filling %r11 leaves every other operand as it was. */
  lemma KeepT(m: Mach, m': Mach, t: Operand, w: Width, p: Places)
    requires Similar(m, m') && t != VIA_R11 && (forall q: Reg :: q != R11 ==> RegOf(m', q) == RegOf(m, q))
    ensures GetW(m', t, w, p) == GetW(m, t, w, p)
  {
    hide Load;
  }

  lemma BinaryFix(w: Width, op: BinaryOp, s: Operand, d: Operand, m: Mach, p: Places, calls: Calls)
    requires Lowered(Binary(w, op, s, d))
    ensures SameOutcome(Exec(Binary(w, op, s, d), m, p, calls), ExecAll(FixBinary(w, op, s, d), m, p, calls))
  {
    hide Load, Wrap, Get, Set, ExecAll, Similar, BinaryResult;
    var via := (IsMemory(s) && IsMemory(d)) || IsLargeImm(s);
    var t := if via then VIA_R10 else s;
    var m1 := Detour(via, s, w, m, p, calls);
    SimilarGet(m, m1, d, SizeOf(w), p);
    var r := BinaryResult(op, GetW(m, d, w, p), GetW(m, s, w, p), w);
    if op.ImulOp? && IsMemory(d) {
      var m4 := ImulVia(w, t, d, m, m1, r, p, calls);
      ExecAppend(if via then [Mov(w, s, VIA_R10)] else [],
                 [Mov(w, d, VIA_R11), Binary(w, op, t, VIA_R11), Mov(w, VIA_R11, d)], m, p, calls);
    } else {
      SimilarSet(m, m1, d, w, r, p);
      SimilarFlags(Set(m, d, w, r, p), Set(m1, d, w, r, p), Unknown);
      LP.One(Binary(w, op, t, d), m1, p, calls);
      ExecAppend(if via then [Mov(w, s, VIA_R10)] else [], [Binary(w, op, t, d)], m, p, calls);
    }
  }

  /** 'imul' into memory goes through %r11. */
  lemma ImulVia(w: Width, t: Operand, d: Operand, m: Mach, m1: Mach, r: int, p: Places, calls: Calls) returns (m4: Mach)
    requires Similar(m, m1) && t != VIA_R11 && IsMemory(d)
    requires r == BinaryResult(ImulOp, GetW(m1, d, w, p), GetW(m1, t, w, p), w)
    ensures ExecAll([Mov(w, d, VIA_R11), Binary(w, ImulOp, t, VIA_R11), Mov(w, VIA_R11, d)], m1, p, calls) == Next(m4)
    ensures Similar(Set(m, d, w, r, p).(flags := Unknown), m4)
  {
    hide Load, Wrap, Get, Put, ExecAll, Similar, BinaryResult, Set, Exec, IsMemory;
    var m2 := Stash(m1, R11, d, w, p);
    LP.MovIs(w, d, VIA_R11, m1, p, calls);
    KeepT(m1, m2, t, w, p);
    var a := Set(m2, VIA_R11, w, r, p);
    var m3 := a.(flags := Unknown);
    BinaryIs(w, ImulOp, t, VIA_R11, m2, p, calls);
    SimilarTrans(m, m1, m2);
    ScratchSet(m, m2, R11, w, r, p);
    SimilarFlags(m, a, Unknown);
    RegNowW(m2, R11, w, r, p);
    m4 := Set(m3, d, w, r % Modulus(w), p);
    LP.MovIs(w, VIA_R11, d, m3, p, calls);
    var n := m.(flags := Unknown);
    NotScratch(d);
    SimilarSet(n, m3, d, w, r % Modulus(w), p);
    StoreModW(n, d, w, r, p);
    SetFlagsOut(m, d, w, r, p);
    LP.Three(Mov(w, d, VIA_R11), Binary(w, ImulOp, t, VIA_R11), Mov(w, VIA_R11, d), m1, m2, m3, Next(m4), p, calls);
  }

  lemma NotScratch(d: Operand)
    requires IsMemory(d)
    ensures !Scratch(d)
  {
  }

  lemma BinaryIs(w: Width, op: BinaryOp, s: Operand, d: Operand, m: Mach, p: Places, calls: Calls)
    ensures Exec(Binary(w, op, s, d), m, p, calls) ==
            Next(Set(m, d, w, BinaryResult(op, GetW(m, d, w, p), GetW(m, s, w, p), w), p).(flags := Unknown))
  {
    hide Load, Wrap, Get, Put, BinaryResult, Set;
  }

  lemma SetFlagsOut(m: Mach, d: Operand, w: Width, x: int, p: Places)
    ensures Set(m.(flags := Unknown), d, w, x, p) == Set(m, d, w, x, p).(flags := Unknown)
  {
    hide Put;
  }

  lemma RegNowW(m: Mach, r: Reg, w: Width, x: int, p: Places)
    ensures GetW(Set(m, RegOp(r), w, x, p).(flags := Unknown), RegOp(r), w, p) == x % Modulus(w)
  {
    Pow256Of(w);
    ModMod(x, w);
  }

  lemma StoreModW(m: Mach, d: Operand, w: Width, x: int, p: Places)
    requires IsMemory(d)
    ensures Set(m, d, w, x % Modulus(w), p) == Set(m, d, w, x, p)
  {
    Pow256Of(w);
    PutMod(m.mem, Address(m, d, p), SizeOf(w), x);
  }

  /** Legalisation of one instruction is sound, flags included. */
  lemma FixSim(i: AInstr, m: Mach, p: Places, calls: Calls)
    requires Lowered(i) && !i.Call?
    ensures SameOutcome(Exec(i, m, p, calls), ExecAll(Fix(i), m, p, calls))
  {
    hide Exec, ExecAll, Similar;
    match i
    case Mov(w, s, d) => MovFix(w, s, d, m, p, calls);
    case Movsx(s, d) => MovsxFix(s, d, m, p, calls);
    case Binary(w, op, s, d) => BinaryFix(w, op, s, d, m, p, calls);
    case Idiv(w, s) => IdivFix(w, s, m, p, calls);
    case Cmp(w, s, d) => CmpFix(w, s, d, m, p, calls);
    case Push(s) => PushFix(s, m, p, calls);
    case _ =>
      LP.One(i, m, p, calls);
      SimilarRefl(m);
      PlainExec(i, m, m, p, calls);
  }

  /** Legalisation is sound: a legalised stretch of code without calls ends as the original does, in
      states that differ in %r10 and %r11 only. */
  lemma {:induction false} FixAllSim(code: seq<AInstr>, m: Mach, m': Mach, p: Places, calls: Calls)
    requires Similar(m, m') && forall j :: 0 <= j < |code| ==> Lowered(code[j]) && !code[j].Call?
    ensures SameOutcome(ExecAll(code, m, p, calls), ExecAll(FixAll(code), m', p, calls))
  {
    hide Exec, Similar, Fix, Lowered;
    if code != [] {
      var i := code[0];
      PlainExec(i, m, m', p, calls);
      FixSim(i, m', p, calls);
      ExecAppend(Fix(i), FixAll(code[1..]), m', p, calls);
      OutcomeTrans(Exec(i, m, p, calls), Exec(i, m', p, calls), ExecAll(Fix(i), m', p, calls));
      var a, b := Exec(i, m, p, calls), ExecAll(Fix(i), m', p, calls);
      if a.Next? {
        FixAllSim(code[1..], a.m, b.m, p, calls);
      }
    }
  }

  lemma OutcomeTrans(a: Outcome, b: Outcome, c: Outcome)
    requires SameOutcome(a, b) && SameOutcome(b, c)
    ensures SameOutcome(a, c)
  {
    hide Similar;
    if !a.Fault? { SimilarTrans(a.m, b.m, c.m); }
  }
}
