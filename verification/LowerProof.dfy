/** Phase 1 is a simulation: the instructions for one three-address instruction do to the machine
    what it does to the store. */
module LowerProof {
  import opened Arith
  import A = Ast
  import opened Ir
  import opened Semantics
  import opened Memory
  import X = X86
  import opened AsmArith
  import opened Lower
  import opened Frames

  lemma One(a: X.AInstr, m: X.Mach, p: X.Places, calls: X.Calls)
    ensures X.ExecAll([a], m, p, calls) == X.Exec(a, m, p, calls)
  {
    hide X.Exec;
    assert [a][1..] == [];
  }

  lemma Two(a: X.AInstr, b: X.AInstr, m: X.Mach, m1: X.Mach, r: X.Outcome, p: X.Places, calls: X.Calls)
    requires X.Exec(a, m, p, calls) == X.Next(m1) && X.Exec(b, m1, p, calls) == r
    ensures X.ExecAll([a, b], m, p, calls) == r
  {
    hide X.Exec;
    assert [a, b][1..] == [b];
    One(b, m1, p, calls);
  }

  lemma Three(a: X.AInstr, b: X.AInstr, c: X.AInstr, m: X.Mach, m1: X.Mach, m2: X.Mach, r: X.Outcome, p: X.Places, calls: X.Calls)
    requires X.Exec(a, m, p, calls) == X.Next(m1) && X.Exec(b, m1, p, calls) == X.Next(m2) && X.Exec(c, m2, p, calls) == r
    ensures X.ExecAll([a, b, c], m, p, calls) == r
  {
    hide X.Exec;
    assert [a, b, c][1..] == [b, c];
    Two(b, c, m1, m2, r, p, calls);
  }

  lemma Four(a: X.AInstr, b: X.AInstr, c: X.AInstr, d: X.AInstr, m: X.Mach, m1: X.Mach, m2: X.Mach, m3: X.Mach,
             r: X.Outcome, p: X.Places, calls: X.Calls)
    requires X.Exec(a, m, p, calls) == X.Next(m1) && X.Exec(b, m1, p, calls) == X.Next(m2)
    requires X.Exec(c, m2, p, calls) == X.Next(m3) && X.Exec(d, m3, p, calls) == r
    ensures X.ExecAll([a, b, c, d], m, p, calls) == r
  {
    hide X.Exec;
    assert [a, b, c, d][1..] == [b, c, d];
    Three(b, c, d, m1, m2, m3, r, p, calls);
  }

  lemma WriteTwice(t: Types, d: Value, x: int, y: int, s: Store)
    requires DstOk(t, d)
    ensures WriteVal(d, y, WriteVal(d, x, s)) == WriteVal(d, y, s)
    ensures ReadVal(d, WriteVal(d, x, s)) == x
  {
    if d.Pseudo? { assert s.locals[d.id := x][d.id := y] == s.locals[d.id := y]; }
    else { assert s.statics[d.id := x][d.id := y] == s.statics[d.id := y]; }
  }

  lemma ReadOther(t: Types, d: Value, b: Value, x: int, s: Store)
    requires DstOk(t, d) && ValOk(t, b) && !SamePlace(d, b)
    ensures ReadVal(b, WriteVal(d, x, s)) == ReadVal(b, s)
  {
  }

  /** 'mov src, dst' between operands of one type copies the value. */
  lemma MoveSim(f: Frame, s: Store, m: X.Mach, depth: int, a: Value, d: Value, calls: X.Calls) returns (m': X.Mach)
    requires Rel(f, s, m, depth) && FrameOk(f) && ValOk(f.t, a) && DstOk(f.t, d) && TyOf(a) == TyOf(d)
    ensures X.Exec(X.Mov(WOf(d), OperandOf(a), OperandOf(d)), m, f.places, calls) == X.Next(m')
    ensures Rel(f, WriteVal(d, ReadVal(a, s), s), m', depth)
  {
    hide Rel, FrameOk, X.Set, X.Get, Wrap;
    var u := X.GetW(m, OperandOf(a), WOf(a), f.places);
    GetVal(f, s, m, depth, a);
    SetVal(f, s, m, depth, d, u);
    m' := X.Set(m, OperandOf(d), WOf(d), u, f.places);
  }

  lemma UnarySim(f: Frame, s: Store, m: X.Mach, i: Instr, calls: X.Calls) returns (m': X.Mach)
    requires Rel(f, s, m, 0) && FrameOk(f) && i.IUnary? && InstrOk(f.t, i) && !i.uop.LogNot?
    ensures X.ExecAll(LowerInstr(i), m, f.places, calls) == X.Next(m')
    ensures Rel(f, WriteVal(i.dst, UnaryValue(i.uop, ReadVal(i.src, s), A.WidthOf(TyOf(i.dst))), s), m', 0)
  {
    hide Rel, FrameOk, X.Set, X.Get, Wrap, X.ExecAll;
    var d, w, p := i.dst, WOf(i.dst), f.places;
    var x := ReadVal(i.src, s);
    var m1 := MoveSim(f, s, m, 0, i.src, d, calls);
    var s1 := WriteVal(d, x, s);
    WriteTwice(f.t, d, x, UnaryValue(i.uop, x, w), s);
    GetVal(f, s1, m1, 0, d);
    var u := X.GetW(m1, OperandOf(d), w, p);
    var op := if i.uop.Neg? then X.NegOp else X.NotOp;
    UnaryMatches(u, w);
    var r := X.UnaryResult(op, u, w);
    SetVal(f, s1, m1, 0, d, r);
    var m2 := X.Set(m1, OperandOf(d), w, r, p);
    SetFlags(f, WriteVal(d, Wrap(r, w), s1), m2, 0, X.Unknown);
    m' := m2.(flags := X.Unknown);
    Two(X.Mov(w, OperandOf(i.src), OperandOf(d)), X.Unary(w, op, OperandOf(d)), m, m1, X.Next(m'), p, calls);
  }

  /** Setting the low byte of a zeroed destination. */
  lemma SetTruth(f: Frame, s: Store, m: X.Mach, d: Value, b: int)
    requires Rel(f, s, m, 0) && FrameOk(f) && DstOk(f.t, d) && 0 <= b <= 1
    requires Load(m.mem, X.Address(m, OperandOf(d), f.places), SizeOf(WOf(d))) == 0
    ensures Rel(f, WriteVal(d, b, s), X.SetByte(m, OperandOf(d), b, f.places), 0)
  {
    hide PseudoHolds, StaticsHold, KeptAbove, FrameOk, Put, Load;
    var a, w := X.Address(m, OperandOf(d), f.places), WOf(d);
    PutLowByte(m.mem, a, SizeOf(w), b);
    if d.Pseudo? { PutSlot(f, s, m, 0, d.id, w, 1, b, b); } else { PutStatic(f, s, m, 0, d.id, w, 1, b, b); }
  }

  lemma ZeroCell(mem: Bytes, a: int, w: Width)
    ensures Load(Put(mem, a, SizeOf(w), 0), a, SizeOf(w)) == 0
  {
    LoadPutSame(mem, a, SizeOf(w), 0);
    Pow256Of(w);
  }

  /** 'mov $0, dst; setCC dst' stores the truth of the condition the flags decide. */
  lemma TruthSim(f: Frame, s: Store, m: X.Mach, d: Value, c: X.Cond, calls: X.Calls) returns (m1: X.Mach, m2: X.Mach)
    requires Rel(f, s, m, 0) && FrameOk(f) && DstOk(f.t, d) && m.flags.Flags?
    ensures X.Exec(X.Mov(WOf(d), X.Imm(0), OperandOf(d)), m, f.places, calls) == X.Next(m1)
    ensures X.Exec(X.Setcc(c, OperandOf(d)), m1, f.places, calls) == X.Next(m2)
    ensures Rel(f, WriteVal(d, Truth(X.Holds(c, m.flags)), s), m2, 0)
  {
    hide Rel, FrameOk, Wrap, Put, Load, X.Holds;
    var w, p := WOf(d), f.places;
    Pow256Of(w);
    SetVal(f, s, m, 0, d, 0);
    m1 := X.Set(m, OperandOf(d), w, 0, p);
    assert X.GetW(m, X.Imm(0), w, p) == 0;
    var b := Truth(X.Holds(c, m.flags));
    m2 := X.SetByte(m1, OperandOf(d), b, p);
    WriteTwice(f.t, d, Wrap(0, w), b, s);
    ZeroCell(m.mem, X.Address(m, OperandOf(d), p), w);
    SetTruth(f, WriteVal(d, Wrap(0, w), s), m1, d, b);
  }

  lemma LogNotSim(f: Frame, s: Store, m: X.Mach, i: Instr, calls: X.Calls) returns (m': X.Mach)
    requires Rel(f, s, m, 0) && FrameOk(f) && i.IUnary? && InstrOk(f.t, i) && i.uop.LogNot?
    ensures X.ExecAll(LowerInstr(i), m, f.places, calls) == X.Next(m')
    ensures Rel(f, WriteVal(i.dst, UnaryValue(i.uop, ReadVal(i.src, s), A.WidthOf(TyOf(i.dst))), s), m', 0)
  {
    hide Rel, FrameOk, X.Set, X.SetByte, Wrap, X.ExecAll, X.CmpFlags, X.Holds;
    var fl := ZeroTest(f, s, m, i.src, calls);
    SetFlags(f, s, m, 0, fl);
    var m1, m2 := TruthSim(f, s, m.(flags := fl), i.dst, X.CondE, calls);
    m' := m2;
    Three(X.Cmp(WOf(i.src), X.Imm(0), OperandOf(i.src)), X.Mov(WOf(i.dst), X.Imm(0), OperandOf(i.dst)),
          X.Setcc(X.CondE, OperandOf(i.dst)), m, m.(flags := fl), m1, X.Next(m'), f.places, calls);
  }

  /** 'cmp $0, v' tells whether 'v' is zero. */
  lemma ZeroTest(f: Frame, s: Store, m: X.Mach, v: Value, calls: X.Calls) returns (fl: X.Flags)
    requires Rel(f, s, m, 0) && ValOk(f.t, v)
    ensures X.Exec(X.Cmp(WOf(v), X.Imm(0), OperandOf(v)), m, f.places, calls) == X.Next(m.(flags := fl)) && fl.Flags?
    ensures X.Holds(X.CondE, fl) == (ReadVal(v, s) == 0) && X.Holds(X.CondNE, fl) == (ReadVal(v, s) != 0)
  {
    hide Rel, X.CmpFlags, BinaryValue, Load, Wrap;
    var w := WOf(v);
    Pow256Of(w);
    GetVal(f, s, m, 0, v);
    var u := X.GetW(m, OperandOf(v), w, f.places);
    assert X.GetW(m, X.Imm(0), w, f.places) == 0;
    fl := X.CmpFlags(u, 0, w);
    ConstWrap(0, w);
    CompareMatches(A.Eq, u, 0, w);
    CompareMatches(A.Ne, u, 0, w);
    FlagsKnown(u, 0, w);
    EqValue(ReadVal(v, s), w);
  }

  lemma FlagsKnown(d: int, s: int, w: Width)
    ensures X.CmpFlags(d, s, w).Flags?
  {
  }

  lemma EqValue(x: int, w: Width)
    ensures BinaryValue(A.Eq, x, 0, w) == Some(Truth(x == 0)) && BinaryValue(A.Ne, x, 0, w) == Some(Truth(x != 0))
  {
  }

  lemma CompareSim(f: Frame, s: Store, m: X.Mach, i: Instr, calls: X.Calls) returns (m': X.Mach)
    requires Rel(f, s, m, 0) && FrameOk(f) && i.IBinary? && InstrOk(f.t, i) && A.IsCompare(i.bop)
    ensures X.ExecAll(LowerInstr(i), m, f.places, calls) == X.Next(m')
    ensures var v := BinaryValue(i.bop, ReadVal(i.lhs, s), ReadVal(i.rhs, s), WOf(i.lhs));
            v.Some? && Rel(f, WriteVal(i.dst, v.value, s), m', 0)
  {
    hide Rel, FrameOk, X.Set, X.SetByte, X.Get, Wrap, X.ExecAll, X.CmpFlags, X.Holds, BinaryValue;
    var w, p := WOf(i.lhs), f.places;
    GetVal(f, s, m, 0, i.lhs);
    GetVal(f, s, m, 0, i.rhs);
    var ul, ur := X.GetW(m, OperandOf(i.lhs), w, p), X.GetW(m, OperandOf(i.rhs), w, p);
    CompareMatches(i.bop, ul, ur, w);
    var fl := X.CmpFlags(ul, ur, w);
    FlagsKnown(ul, ur, w);
    SetFlags(f, s, m, 0, fl);
    var m1, m2 := TruthSim(f, s, m.(flags := fl), i.dst, CondOf(i.bop), calls);
    m' := m2;
    Three(X.Cmp(w, OperandOf(i.rhs), OperandOf(i.lhs)), X.Mov(WOf(i.dst), X.Imm(0), OperandOf(i.dst)),
          X.Setcc(CondOf(i.bop), OperandOf(i.dst)), m, m.(flags := fl), m1, X.Next(m'), p, calls);
  }

  /** The second instruction of a two-address pair: 'd op= u', where 'd' already holds the left operand. */
  lemma ApplySim(f: Frame, s: Store, m: X.Mach, d: Value, op: A.BinOp, src: X.Operand, u: int, v: int, calls: X.Calls)
    returns (m': X.Mach)
    requires Rel(f, s, m, 0) && FrameOk(f) && DstOk(f.t, d)
    requires u == X.GetW(m, src, WOf(d), f.places)
    requires forall x :: Wrap(x, WOf(d)) == ReadVal(d, s) ==> Wrap(X.BinaryResult(BinaryOf(op), x, u, WOf(d)), WOf(d)) == v
    ensures X.Exec(X.Binary(WOf(d), BinaryOf(op), src, OperandOf(d)), m, f.places, calls) == X.Next(m')
    ensures Rel(f, WriteVal(d, v, s), m', 0)
  {
    hide Rel, FrameOk, X.Set, X.Get, Wrap, X.BinaryResult;
    GetVal(f, s, m, 0, d);
    var x := X.GetW(m, OperandOf(d), WOf(d), f.places);
    var r := X.BinaryResult(BinaryOf(op), x, u, WOf(d));
    SetVal(f, s, m, 0, d, r);
    var m2 := X.Set(m, OperandOf(d), WOf(d), r, f.places);
    SetFlags(f, WriteVal(d, Wrap(r, WOf(d)), s), m2, 0, X.Unknown);
    m' := m2.(flags := X.Unknown);
  }

  lemma DirectSim(f: Frame, s: Store, m: X.Mach, i: Instr, calls: X.Calls) returns (m': X.Mach)
    requires Rel(f, s, m, 0) && FrameOk(f) && i.IBinary? && InstrOk(f.t, i) && IsDirect(i.bop)
    ensures X.ExecAll(LowerInstr(i), m, f.places, calls) == X.Next(m')
    ensures var v := BinaryValue(i.bop, ReadVal(i.lhs, s), ReadVal(i.rhs, s), WOf(i.lhs));
            v.Some? && Rel(f, WriteVal(i.dst, v.value, s), m', 0)
  {
    hide Rel, FrameOk, X.Set, X.Get, Wrap, X.ExecAll, BinaryValue, X.BinaryResult, X.Exec;
    var d, w := i.dst, WOf(i.dst);
    var a, b := ReadVal(i.lhs, s), ReadVal(i.rhs, s);
    var m1 := MoveSim(f, s, m, 0, i.lhs, d, calls);
    var s1 := WriteVal(d, a, s);
    ReadOther(f.t, d, i.rhs, a, s);
    GetVal(f, s1, m1, 0, i.rhs);
    var u := X.GetW(m1, OperandOf(i.rhs), w, f.places);
    DirectDefined(i.bop, a, b, w);
    var v := BinaryValue(i.bop, a, b, w).value;
    WriteTwice(f.t, d, a, v, s);
    forall x | Wrap(x, w) == a ensures Wrap(X.BinaryResult(BinaryOf(i.bop), x, u, w), w) == v {
      BinaryMatches(i.bop, x, u, w);
    }
    m' := ApplySim(f, s1, m1, d, i.bop, OperandOf(i.rhs), u, v, calls);
    Two(X.Mov(w, OperandOf(i.lhs), OperandOf(d)), X.Binary(w, BinaryOf(i.bop), OperandOf(i.rhs), OperandOf(d)),
        m, m1, X.Next(m'), f.places, calls);
  }

  lemma DirectDefined(op: A.BinOp, a: int, b: int, w: Width)
    requires IsDirect(op)
    ensures BinaryValue(op, a, b, w).Some?
  {
    hide Wrap, Bitwise;
  }

  /** A word that encodes a count inside the width is that count, to either width. */
  lemma CountWord(u: int, c: int, w: Width, w2: Width)
    requires 0 <= u < Modulus(w) && Wrap(u, w) == c && 0 <= c < 64
    ensures u == c && u % Modulus(w2) == c
  {
  }

  lemma ShiftSim(f: Frame, s: Store, m: X.Mach, i: Instr, calls: X.Calls) returns (m': X.Mach)
    requires Rel(f, s, m, 0) && FrameOk(f) && i.IBinary? && InstrOk(f.t, i) && A.IsShift(i.bop)
    requires BinaryValue(i.bop, ReadVal(i.lhs, s), ReadVal(i.rhs, s), WOf(i.dst)).Some?
    ensures X.ExecAll(LowerInstr(i), m, f.places, calls) == X.Next(m')
    ensures Rel(f, WriteVal(i.dst, BinaryValue(i.bop, ReadVal(i.lhs, s), ReadVal(i.rhs, s), WOf(i.dst)).value, s), m', 0)
  {
    hide Rel, FrameOk, X.Set, Wrap, X.ExecAll, BinaryValue, X.BinaryResult, X.Exec, Load, Pow2;
    var d, w, p := i.dst, WOf(i.dst), f.places;
    var a, c := ReadVal(i.lhs, s), ReadVal(i.rhs, s);
    ShiftDefined(i.bop, a, c, w);
    var v := BinaryValue(i.bop, a, c, w).value;
    var m1 := MoveSim(f, s, m, 0, i.lhs, d, calls);
    var s1 := WriteVal(d, a, s);
    ReadOther(f.t, d, i.rhs, a, s);
    WriteTwice(f.t, d, a, v, s);
    forall x | Wrap(x, w) == a ensures Wrap(X.BinaryResult(BinaryOf(i.bop), x, c, w), w) == v {
      ShiftMatches(i.bop, x, c, c, w);
    }
    Pow256Of(w);
    ShiftCode(i);
    if i.rhs.Const? {
      assert X.GetW(m1, X.Imm(c), w, p) == c;
      m' := ApplySim(f, s1, m1, d, i.bop, X.Imm(c), c, v, calls);
      Two(X.Mov(w, OperandOf(i.lhs), OperandOf(d)), X.Binary(w, BinaryOf(i.bop), X.Imm(c), OperandOf(d)),
          m, m1, X.Next(m'), p, calls);
    } else {
      var m2 := CountSim(f, s1, m1, i.rhs, w, calls);
      m' := ApplySim(f, s1, m2, d, i.bop, X.RegOp(X.CX), c, v, calls);
      Three(X.Mov(w, OperandOf(i.lhs), OperandOf(d)), X.Mov(WOf(i.rhs), OperandOf(i.rhs), X.RegOp(X.CX)),
            X.Binary(w, BinaryOf(i.bop), X.RegOp(X.CX), OperandOf(d)), m, m1, m2, X.Next(m'), p, calls);
    }
  }

  lemma ShiftCode(i: Instr)
    requires i.IBinary? && A.IsShift(i.bop)
    ensures var d, w, op := OperandOf(i.dst), WOf(i.dst), BinaryOf(i.bop);
            LowerInstr(i) ==
            if i.rhs.Const? then [X.Mov(w, OperandOf(i.lhs), d), X.Binary(w, op, X.Imm(i.rhs.c), d)]
            else [X.Mov(w, OperandOf(i.lhs), d), X.Mov(WOf(i.rhs), OperandOf(i.rhs), X.RegOp(X.CX)), X.Binary(w, op, X.RegOp(X.CX), d)]
  {
  }

  lemma ShiftDefined(op: A.BinOp, a: int, c: int, w: Width)
    requires A.IsShift(op) && BinaryValue(op, a, c, w).Some?
    ensures 0 <= c < Bits(w) && c % Bits(w) == c
  {
    hide Wrap, Pow2;
  }

  /** Loading the shift count into %cx. */
  lemma CountSim(f: Frame, s: Store, m: X.Mach, v: Value, w: Width, calls: X.Calls) returns (m': X.Mach)
    requires Rel(f, s, m, 0) && ValOk(f.t, v) && 0 <= ReadVal(v, s) < Bits(w)
    ensures X.Exec(X.Mov(WOf(v), OperandOf(v), X.RegOp(X.CX)), m, f.places, calls) == X.Next(m')
    ensures Rel(f, s, m', 0) && X.GetW(m', X.RegOp(X.CX), w, f.places) == ReadVal(v, s)
  {
    hide Rel, Wrap, Load;
    GetVal(f, s, m, 0, v);
    var u := X.GetW(m, OperandOf(v), WOf(v), f.places);
    SetScratch(f, s, m, 0, X.CX, u, WOf(v));
    CountWord(u, ReadVal(v, s), WOf(v), w);
    CountWord(u, ReadVal(v, s), WOf(v), WOf(v));
    Pow256Of(w);
    m' := X.Set(m, X.RegOp(X.CX), WOf(v), u, f.places);
  }

  lemma DivideSim(f: Frame, s: Store, m: X.Mach, i: Instr, calls: X.Calls) returns (m': X.Mach)
    requires Rel(f, s, m, 0) && FrameOk(f) && i.IBinary? && InstrOk(f.t, i) && (i.bop.Div? || i.bop.Rem?)
    requires BinaryValue(i.bop, ReadVal(i.lhs, s), ReadVal(i.rhs, s), WOf(i.lhs)).Some?
    ensures X.ExecAll(LowerInstr(i), m, f.places, calls) == X.Next(m')
    ensures Rel(f, WriteVal(i.dst, BinaryValue(i.bop, ReadVal(i.lhs, s), ReadVal(i.rhs, s), WOf(i.lhs)).value, s), m', 0)
  {
    hide Rel, FrameOk, Wrap, X.ExecAll, BinaryValue, X.Divide, Load, X.Exec;
    var w, p := WOf(i.lhs), f.places;
    var r := if i.bop.Div? then X.AX else X.DX;
    var m1, m2, m3 := QuotientSim(f, s, m, i, calls);
    var v := BinaryValue(i.bop, ReadVal(i.lhs, s), ReadVal(i.rhs, s), w).value;
    var u := X.GetW(m3, X.RegOp(r), w, p);
    SetVal(f, s, m3, 0, i.dst, u);
    m' := X.Set(m3, OperandOf(i.dst), w, u, p);
    MovIs(w, X.RegOp(r), OperandOf(i.dst), m3, p, calls);
    Four(X.Mov(w, OperandOf(i.lhs), X.RegOp(X.AX)), X.Cdq(w), X.Idiv(w, OperandOf(i.rhs)),
         X.Mov(w, X.RegOp(r), OperandOf(i.dst)), m, m1, m2, m3, X.Next(m'), p, calls);
  }

  lemma MovIs(w: Width, a: X.Operand, d: X.Operand, m: X.Mach, p: X.Places, calls: X.Calls)
    ensures X.Exec(X.Mov(w, a, d), m, p, calls) == X.Next(X.Set(m, d, w, X.GetW(m, a, w, p), p))
  {
  }

  /** 'mov lhs, %ax; cdq; idiv rhs' leaves the quotient in %ax and the remainder in %dx. */
  lemma QuotientSim(f: Frame, s: Store, m: X.Mach, i: Instr, calls: X.Calls) returns (m1: X.Mach, m2: X.Mach, m3: X.Mach)
    requires Rel(f, s, m, 0) && FrameOk(f) && i.IBinary? && InstrOk(f.t, i) && (i.bop.Div? || i.bop.Rem?)
    requires BinaryValue(i.bop, ReadVal(i.lhs, s), ReadVal(i.rhs, s), WOf(i.lhs)).Some?
    ensures X.Exec(X.Mov(WOf(i.lhs), OperandOf(i.lhs), X.RegOp(X.AX)), m, f.places, calls) == X.Next(m1)
    ensures X.Exec(X.Cdq(WOf(i.lhs)), m1, f.places, calls) == X.Next(m2)
    ensures X.Exec(X.Idiv(WOf(i.lhs), OperandOf(i.rhs)), m2, f.places, calls) == X.Next(m3) && Rel(f, s, m3, 0)
    ensures var r := X.RegOp(if i.bop.Div? then X.AX else X.DX);
            Some(Wrap(X.GetW(m3, r, WOf(i.lhs), f.places), WOf(i.lhs)))
            == BinaryValue(i.bop, ReadVal(i.lhs, s), ReadVal(i.rhs, s), WOf(i.lhs))
  {
    hide Rel, FrameOk, Wrap, BinaryValue, X.Divide, Load, X.Exec, X.Set;
    var w, p := WOf(i.lhs), f.places;
    var lo;
    m1, m2, lo := DividendSim(f, s, m, i.lhs, calls);
    GetVal(f, s, m2, 0, i.rhs);
    var u := X.GetW(m2, OperandOf(i.rhs), w, p);
    DivideMatches(lo, u, w);
    m3 := IdivSim(f, s, m2, OperandOf(i.rhs), w, lo, u, calls);
    QuotientFits(lo, u, w);
  }

  /** 'mov lhs, %ax; cdq' sign-extends the dividend into %dx:%ax. */
  lemma DividendSim(f: Frame, s: Store, m: X.Mach, v: Value, calls: X.Calls) returns (m1: X.Mach, m2: X.Mach, lo: int)
    requires Rel(f, s, m, 0) && ValOk(f.t, v)
    ensures X.Exec(X.Mov(WOf(v), OperandOf(v), X.RegOp(X.AX)), m, f.places, calls) == X.Next(m1)
    ensures X.Exec(X.Cdq(WOf(v)), m1, f.places, calls) == X.Next(m2) && Rel(f, s, m2, 0)
    ensures 0 <= lo < Modulus(WOf(v)) && Wrap(lo, WOf(v)) == ReadVal(v, s)
    ensures X.GetW(m2, X.RegOp(X.AX), WOf(v), f.places) == lo
    ensures X.GetW(m2, X.RegOp(X.DX), WOf(v), f.places) == if ReadVal(v, s) < 0 then Modulus(WOf(v)) - 1 else 0
  {
    hide Rel, Wrap, Load;
    var w, p, a := WOf(v), f.places, ReadVal(v, s);
    Pow256Of(w);
    GetVal(f, s, m, 0, v);
    lo := X.GetW(m, OperandOf(v), w, p);
    SetScratch(f, s, m, 0, X.AX, lo, w);
    m1 := X.Set(m, X.RegOp(X.AX), w, lo, p);
    FullWord(lo, w);
    var hi := if a < 0 then -1 else 0;
    SetScratch(f, s, m1, 0, X.DX, hi, w);
    m2 := X.Set(m1, X.RegOp(X.DX), w, hi, p);
    SignWord(a, w);
  }

  lemma IdivSim(f: Frame, s: Store, m: X.Mach, o: X.Operand, w: Width, lo: int, u: int, calls: X.Calls) returns (m': X.Mach)
    requires Rel(f, s, m, 0) && u == X.GetW(m, o, w, f.places)
    requires lo == X.GetW(m, X.RegOp(X.AX), w, f.places)
    requires X.Divide(X.GetW(m, X.RegOp(X.DX), w, f.places), lo, u, w).Some?
    ensures X.Exec(X.Idiv(w, o), m, f.places, calls) == X.Next(m') && Rel(f, s, m', 0)
    ensures var q := X.Divide(X.GetW(m, X.RegOp(X.DX), w, f.places), lo, u, w).value;
            && Wrap(X.GetW(m', X.RegOp(X.AX), w, f.places), w) == Wrap(q.0, w)
            && Wrap(X.GetW(m', X.RegOp(X.DX), w, f.places), w) == Wrap(q.1, w)
  {
    hide Rel, Wrap, Load, X.Divide;
    var p := f.places;
    Pow256Of(w);
    var q := X.Divide(X.GetW(m, X.RegOp(X.DX), w, p), lo, u, w).value;
    SetScratch(f, s, m, 0, X.AX, q.0, w);
    var m1 := X.Set(m, X.RegOp(X.AX), w, q.0, p);
    SetScratch(f, s, m1, 0, X.DX, q.1, w);
    var m2 := X.Set(m1, X.RegOp(X.DX), w, q.1, p);
    SetFlags(f, s, m2, 0, X.Unknown);
    m' := m2.(flags := X.Unknown);
    ModTwice(q.0, w);
    ModTwice(q.1, w);
  }

  lemma ModTwice(x: int, w: Width)
    ensures (x % Modulus(w)) % Modulus(w) == x % Modulus(w) && Wrap(x % Modulus(w), w) == Wrap(x, w)
  {
    WrapMod(x, w);
  }

  lemma SignWord(a: int, w: Width)
    ensures (if a < 0 then -1 else 0) % Modulus(w) == if a < 0 then Modulus(w) - 1 else 0
  {
  }

  lemma QuotientFits(lo: int, u: int, w: Width)
    requires 0 <= lo < Modulus(w)
    ensures var hi := if Wrap(lo, w) < 0 then Modulus(w) - 1 else 0;
            var q := X.Divide(hi, lo, u, w);
            q.Some? ==> Wrap(q.value.0, w) == q.value.0 && Wrap(q.value.1, w) == q.value.1
  {
    hide X.Divide, BinaryValue, TruncDiv, TruncRem;
    DivideMatches(lo, u, w);
    if Wrap(u, w) != 0 {
      RemInRange(Wrap(lo, w), Wrap(u, w), w);
    }
  }

  lemma CastSim(f: Frame, s: Store, m: X.Mach, i: Instr, calls: X.Calls) returns (m': X.Mach)
    requires Rel(f, s, m, 0) && FrameOk(f) && i.ICast? && InstrOk(f.t, i)
    ensures X.ExecAll(LowerInstr(i), m, f.places, calls) == X.Next(m')
    ensures Rel(f, WriteVal(i.dst, A.Convert(ReadVal(i.src, s), TyOf(i.dst)), s), m', 0)
  {
    hide Rel, FrameOk, Wrap, X.ExecAll, Load, X.Set;
    var d, p := i.dst, f.places;
    GetVal(f, s, m, 0, i.src);
    var x := ReadVal(i.src, s);
    if TyOf(d).Long? {
      Pow256Of(W32);
      var v := Wrap(X.Get(m, OperandOf(i.src), 4, p), W32);
      assert v == x;
      SetVal(f, s, m, 0, d, v);
      ConstWrap(v, W64) by { WidenInRange(X.Get(m, OperandOf(i.src), 4, p)); }
      m' := X.Set(m, OperandOf(d), W64, v, p);
      One(X.Movsx(OperandOf(i.src), OperandOf(d)), m, p, calls);
    } else {
      var v := X.GetW(m, OperandOf(i.src), W32, p);
      LowWord(m, i.src, p);
      SetVal(f, s, m, 0, d, v);
      m' := X.Set(m, OperandOf(d), W32, v, p);
      One(X.Mov(W32, OperandOf(i.src), OperandOf(d)), m, p, calls);
    }
  }

  lemma WidenInRange(u: int)
    ensures InRange(Wrap(u, W32), W64)
  {
  }

  /** The low half of a 'long' operand is its value truncated to 'int'. */
  lemma LowWord(m: X.Mach, v: Value, p: X.Places)
    requires v.Const? || v.Pseudo? || v.StaticObj?
    ensures Wrap(X.GetW(m, OperandOf(v), W32, p), W32) == Wrap(Wrap(X.GetW(m, OperandOf(v), W64, p), W64), W32)
  {
    hide Load, Wrap, Pow256;
    Pow256Of(W32);
    Pow256Of(W64);
    var y := X.GetW(m, OperandOf(v), W64, p);
    if v.Const? { ConstLow(v.c); } else { LoadLow(m.mem, X.Address(m, OperandOf(v), p), 4, 8); }
    WrapLow(y);
  }

  lemma ConstLow(c: int)
    ensures (c % Modulus(W64)) % Modulus(W32) == c % Modulus(W32)
  {
  }

  lemma WrapLow(y: int)
    ensures Wrap(y % Modulus(W32), W32) == Wrap(Wrap(y, W64), W32)
  {
    hide Wrap;
    ConstLow(y);
    ConstLow(Wrap(y, W64));
    WrapMod(y, W32);
    WrapMod(Wrap(y, W64), W32);
  }

  lemma CopySim(f: Frame, s: Store, m: X.Mach, i: Instr, calls: X.Calls) returns (m': X.Mach)
    requires Rel(f, s, m, 0) && FrameOk(f) && i.ICopy? && InstrOk(f.t, i)
    ensures X.ExecAll(LowerInstr(i), m, f.places, calls) == X.Next(m')
    ensures Rel(f, WriteVal(i.dst, ReadVal(i.src, s), s), m', 0)
  {
    hide Rel, FrameOk, X.Exec, X.ExecAll;
    m' := MoveSim(f, s, m, 0, i.src, i.dst, calls);
    One(X.Mov(WOf(i.dst), OperandOf(i.src), OperandOf(i.dst)), m, f.places, calls);
  }

  lemma BranchSim(f: Frame, s: Store, m: X.Mach, i: Instr, calls: X.Calls) returns (m': X.Mach)
    requires Rel(f, s, m, 0) && FrameOk(f) && (i.IJumpIfZero? || i.IJumpIfNotZero?) && InstrOk(f.t, i)
    ensures Rel(f, s, m', 0)
    ensures X.ExecAll(LowerInstr(i), m, f.places, calls) ==
            if (ReadVal(i.cond, s) == 0) == i.IJumpIfZero? then X.Goto(i.target, m') else X.Next(m')
  {
    hide Rel, FrameOk, X.Set, Wrap, X.ExecAll, X.CmpFlags, X.Holds;
    var fl := ZeroTest(f, s, m, i.cond, calls);
    SetFlags(f, s, m, 0, fl);
    m' := m.(flags := fl);
    var c := if i.IJumpIfZero? then X.CondE else X.CondNE;
    Two(X.Cmp(WOf(i.cond), X.Imm(0), OperandOf(i.cond)), X.Jcc(c, i.target), m, m',
        if X.Holds(c, fl) then X.Goto(i.target, m') else X.Next(m'), f.places, calls);
  }

  /** The state a function returns in: its result in %ax, the caller's %rbp and stack restored. */
  ghost predicate ReturnedWith(f: Frame, s: Store, v: Value, m: X.Mach) {
    && (v.NoValue? || Wrap(X.RegOf(m, X.AX), WOf(v)) == ReadVal(v, s))
    && X.RegOf(m, X.SP) == f.bp + 16 && X.RegOf(m, X.BP) == Load(f.entry, f.bp, 8)
    && m.trace == s.trace && StaticsHold(f.t, f.places, s.statics, m.mem) && KeptAbove(f.entry, m.mem, f.bp)
  }

  /** The return address that the call pushed. */
  function BackTo(f: Frame): int {
    Load(f.entry, f.bp + 8, 8)
  }

  lemma AddressKept(f: Frame, s: Store, m: X.Mach)
    requires Rel(f, s, m, 0)
    ensures Load(m.mem, X.RegOf(m, X.BP) + 8, 8) == BackTo(f)
  {
    hide PseudoHolds, StaticsHold, Load;
    LoadAgrees(m.mem, f.entry, f.bp + 8, 8);
  }

  lemma ReturnSim(f: Frame, s: Store, m: X.Mach, i: Instr, calls: X.Calls) returns (m': X.Mach)
    requires Rel(f, s, m, 0) && FrameOk(f) && i.IReturn? && InstrOk(f.t, i)
    ensures X.ExecAll(LowerInstr(i), m, f.places, calls) == X.Exit(m', BackTo(f)) && ReturnedWith(f, s, i.src, m')
  {
    hide Rel, Wrap, Load, X.ExecAll, ReturnedWith;
    var m1 := m;
    AddressKept(f, s, m);
    if !i.src.NoValue? {
      var w := WOf(i.src);
      GetVal(f, s, m, 0, i.src);
      var u := X.GetW(m, OperandOf(i.src), w, f.places);
      SetScratch(f, s, m, 0, X.AX, u, w);
      m1 := X.Set(m, X.RegOp(X.AX), w, u, f.places);
      FullWord(u, w);
      AddressKept(f, s, m1);
      Two(X.Mov(w, OperandOf(i.src), X.RegOp(X.AX)), X.Ret, m, m1, X.Exit(X.Leave(m1), BackTo(f)), f.places, calls);
      assert LowerInstr(i) == [X.Mov(w, OperandOf(i.src), X.RegOp(X.AX)), X.Ret];
    } else {
      One(X.Ret, m, f.places, calls);
      assert LowerInstr(i) == [X.Ret];
    }
    m' := X.Leave(m1);
    LeaveSim(f, s, m1, i.src);
  }

  lemma LeaveSim(f: Frame, s: Store, m: X.Mach, v: Value)
    requires Rel(f, s, m, 0) && f.bp + 16 < Modulus(W64)
    requires v.NoValue? || Wrap(X.RegOf(m, X.AX), WOf(v)) == ReadVal(v, s)
    ensures ReturnedWith(f, s, v, X.Leave(m))
  {
    hide PseudoHolds, StaticsHold, Wrap, Load;
    LoadAgrees(m.mem, f.entry, f.bp, 8);
    Pow256Of(W64);
    FullWord(Load(m.mem, f.bp, 8), W64);
    FullWord(f.bp + 16, W64);
  }

  lemma FullWord(u: int, w: Width)
    requires 0 <= u < Modulus(w)
    ensures u % Modulus(w) == u
  {
  }
}
