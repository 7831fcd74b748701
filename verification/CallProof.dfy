/** Calls: arguments travel in six registers and on the stack, %rsp is aligned at the call and
    restored after it (sections 3.2.2 and 3.2.3 of the System V AMD64 ABI). */
module CallProof {
  import opened Arith
  import A = Ast
  import opened Ir
  import opened Semantics
  import opened Memory
  import X = X86
  import opened Lower
  import opened Frames
  import opened LowerProof

  /** The 8-byte word that carries argument 'i' when the call instruction runs: the first six are in
      %rdi, %rsi, %rdx, %rcx, %r8 and %r9, the others on the stack from %rsp up. */
  function ArgWord(m: X.Mach, i: nat): int {
    if i == 0 then X.RegOf(m, X.DI)
    else if i == 1 then X.RegOf(m, X.SI)
    else if i == 2 then X.RegOf(m, X.DX)
    else if i == 3 then X.RegOf(m, X.CX)
    else if i == 4 then X.RegOf(m, X.R8)
    else if i == 5 then X.RegOf(m, X.R9)
    else Load(m.mem, X.RegOf(m, X.SP) + 8 * (i - 6), 8)
  }

  /** The compiler's table of argument registers is the convention's. */
  lemma ArgRegIs(m: X.Mach, i: nat)
    requires i < 6
    ensures X.RegOf(m, ArgReg(i)) == ArgWord(m, i)
  {
    hide X.RegOf;
  }

  /** An 'int' argument is the low half of its word. */
  ghost predicate ArgPassed(m: X.Mach, i: nat, t: A.Ty, x: int) {
    Wrap(ArgWord(m, i), A.WidthOf(t)) == x
  }

  ghost predicate ArgsPassed(m: X.Mach, ts: seq<A.Ty>, xs: seq<int>) {
    |ts| == |xs| && forall i :: 0 <= i < |ts| ==> ArgPassed(m, i, ts[i], xs[i])
  }

  /** What a caller must have set up: aligned stack, arguments in place, stack left for the callee. */
  ghost predicate CallReady(t: Types, places: X.Places, lim: int, fn: nat, m: X.Mach, xs: seq<int>, st: map<nat, int>) {
    && fn in t.params && fn in t.ret
    && X.RegOf(m, X.SP) % 16 == 0 && lim <= X.RegOf(m, X.SP)
    && ArgsPassed(m, t.params[fn], xs) && StaticsHold(t, places, st, m.mem)
  }

  /** What a callee guarantees when it returns: the stack and frame pointers, everything above the
      stack arguments, the static objects, the outside calls, and its result in %ax. */
  ghost predicate CallDone(t: Types, places: X.Places, fn: nat, m: X.Mach, n: nat, r: CallResult, m': X.Mach)
    requires fn in t.ret
  {
    && X.RegOf(m', X.SP) == X.RegOf(m, X.SP) && X.RegOf(m', X.BP) == X.RegOf(m, X.BP)
    && KeptAbove(m.mem, m'.mem, X.RegOf(m, X.SP) + 8 * (n - RegCount(n)))
    && StaticsHold(t, places, r.statics, m'.mem) && m'.trace == r.trace
    && (A.IsArithmetic(t.ret[fn]) ==> Wrap(X.RegOf(m', X.AX), A.WidthOf(t.ret[fn])) == r.result)
  }

  ghost predicate AbiAt(t: Types, places: X.Places, lim: int, calls: X.Calls, callees: Callees,
                        fn: nat, m: X.Mach, xs: seq<int>, st: map<nat, int>) {
    CallReady(t, places, lim, fn, m, xs, st) && callees(fn, xs, st, m.trace).Some? ==>
      && calls(fn, m).Some?
      && CallDone(t, places, fn, m, |xs|, callees(fn, xs, st, m.trace).value, calls(fn, m).value)
  }

  /** Every callee keeps the calling convention and does what 'callees' says. */
  ghost predicate Abi(t: Types, places: X.Places, lim: int, calls: X.Calls, callees: Callees) {
    forall fn, m, xs, st :: AbiAt(t, places, lim, calls, callees, fn, m, xs, st)
  }

  /** Lowering or raising %rsp by a constant. */
  lemma AdjustSim(f: Frame, s: Store, m: X.Mach, depth: int, op: X.BinaryOp, bytes: nat, calls: X.Calls) returns (m': X.Mach)
    requires Rel(f, s, m, depth) && (op.AddOp? || op.SubOp?)
    requires var depth' := if op.SubOp? then depth + bytes else depth - bytes;
             0 <= f.bp - f.size - depth' < Modulus(W64) && bytes < Modulus(W64)
    ensures X.ExecAll(AdjustSp(op, bytes), m, f.places, calls) == X.Next(m')
    ensures Rel(f, s, m', if op.SubOp? then depth + bytes else depth - bytes)
    ensures m'.mem == m.mem && forall r: X.Reg :: r != X.SP ==> X.RegOf(m', r) == X.RegOf(m, r)
  {
    hide PseudoHolds, StaticsHold, KeptAbove, FrameOk, Wrap;
    m' := m;
    if bytes != 0 {
      Pow256Of(W64);
      var depth' := if op.SubOp? then depth + bytes else depth - bytes;
      FullWord(bytes, W64);
      FullWord(X.RegOf(m, X.SP), W64);
      FullWord(f.bp - f.size - depth', W64);
      MoveSp(f, s, m, depth, depth');
      var m1 := X.SetReg(m, X.SP, f.bp - f.size - depth');
      SetFlags(f, s, m1, depth', X.Unknown);
      m' := m1.(flags := X.Unknown);
      One(X.Binary(W64, op, X.Imm(bytes), X.RegOp(X.SP)), m, f.places, calls);
    }
  }

  /** The 8 bytes pushed for an operand have its value in their low part, whatever follows it in memory. */
  lemma PushedWord(f: Frame, s: Store, m: X.Mach, depth: int, v: Value)
    requires Rel(f, s, m, depth) && ValOk(f.t, v)
    ensures Wrap(X.Get(m, OperandOf(v), 8, f.places), WOf(v)) == ReadVal(v, s)
  {
    hide Rel, Load, Wrap, Pow256;
    GetVal(f, s, m, depth, v);
    Pow256Of(W32);
    Pow256Of(W64);
    if WOf(v) == W32 {
      var y := X.Get(m, OperandOf(v), 8, f.places);
      if v.Const? { ConstLow(v.c); } else { LoadLow(m.mem, X.Address(m, OperandOf(v), f.places), 4, 8); }
      WrapMod(y, W32);
    }
  }

  /** The stack arguments 'rest' stand in order from %rsp up. */
  ghost predicate Stacked(m: X.Mach, rest: seq<Value>, s: Store) {
    forall j :: 0 <= j < |rest| ==> StackedAt(m, rest[j], j, s)
  }

  ghost predicate StackedAt(m: X.Mach, v: Value, j: nat, s: Store) {
    Wrap(Load(m.mem, X.RegOf(m, X.SP) + 8 * j, 8), WOf(v)) == ReadVal(v, s)
  }

  lemma PushSim(f: Frame, s: Store, m: X.Mach, depth: int, v: Value, rest: seq<Value>, calls: X.Calls) returns (m': X.Mach)
    requires Rel(f, s, m, depth) && FrameOk(f) && ValOk(f.t, v) && Stacked(m, rest, s)
    requires 0 <= depth && f.lim <= f.bp - f.size - depth - 8
    ensures X.Exec(X.Push(OperandOf(v)), m, f.places, calls) == X.Next(m')
    ensures Rel(f, s, m', depth + 8) && Stacked(m', [v] + rest, s)
  {
    hide Rel, FrameOk, Load, Put, Wrap, StackedAt;
    var sp := SpIs(f, s, m, depth);
    FullWord(sp - 8, W64);
    var u := X.Get(m, OperandOf(v), 8, f.places);
    PushedWord(f, s, m, depth, v);
    PutBelow(f, s, m, depth, sp - 8, 8, u);
    var m1 := m.(mem := Put(m.mem, sp - 8, 8, u));
    MoveSp(f, s, m1, depth, depth + 8);
    m' := X.SetReg(m1, X.SP, sp - 8);
    forall j | 0 <= j < |rest| + 1 ensures StackedAt(m', ([v] + rest)[j], j, s) {
      if j == 0 {
        LoadPutSame(m.mem, sp - 8, 8, u);
        TopWord(m, m', v, sp - 8, u, s);
      } else {
        assert StackedAt(m, rest[j - 1], j - 1, s);
        LoadPutOther(m.mem, sp - 8, 8, u, sp + 8 * (j - 1), 8);
        UnderWord(m, m', rest[j - 1], sp, j - 1, s);
      }
    }
  }

  lemma SpIs(f: Frame, s: Store, m: X.Mach, depth: int) returns (sp: int)
    requires Rel(f, s, m, depth) && FrameOk(f) && f.lim <= f.bp - f.size - depth - 8 && 0 <= depth
    ensures sp == X.RegOf(m, X.SP) == f.bp - f.size - depth && 0 <= sp - 8 < Modulus(W64)
  {
    sp := X.RegOf(m, X.SP);
  }

  lemma TopWord(m: X.Mach, m': X.Mach, v: Value, a: int, u: int, s: Store)
    requires X.RegOf(m', X.SP) == a && Load(m'.mem, a, 8) == u % Pow256(8) && 0 <= u < Pow256(8)
    requires Wrap(u, WOf(v)) == ReadVal(v, s)
    ensures StackedAt(m', v, 0, s)
  {
    Pow256Of(W64);
    FullWord(u, W64);
  }

  lemma UnderWord(m: X.Mach, m': X.Mach, v: Value, sp: int, j: nat, s: Store)
    requires X.RegOf(m, X.SP) == sp && X.RegOf(m', X.SP) == sp - 8 && StackedAt(m, v, j, s)
    requires Load(m'.mem, sp + 8 * j, 8) == Load(m.mem, sp + 8 * j, 8)
    ensures StackedAt(m', v, j + 1, s)
  {
    hide Load, Wrap;
    assert sp - 8 + 8 * (j + 1) == sp + 8 * j;
  }

  lemma {:induction false} PushesSim(f: Frame, s: Store, m: X.Mach, depth: int, rest: seq<Value>, calls: X.Calls) returns (m': X.Mach)
    requires Rel(f, s, m, depth) && FrameOk(f) && AllOk(f.t, rest) && 0 <= depth && f.lim <= f.bp - f.size - depth - 8 * |rest|
    ensures X.ExecAll(Pushes(rest), m, f.places, calls) == X.Next(m')
    ensures Rel(f, s, m', depth + 8 * |rest|) && Stacked(m', rest, s)
  {
    hide Rel, FrameOk, X.Exec, StackedAt;
    m' := m;
    if rest != [] {
      var m1 := PushesSim(f, s, m, depth, rest[1..], calls);
      m' := PushSim(f, s, m1, depth + 8 * (|rest| - 1), rest[0], rest[1..], calls);
      assert [rest[0]] + rest[1..] == rest;
      One(X.Push(OperandOf(rest[0])), m1, f.places, calls);
      X.ExecAppend(Pushes(rest[1..]), [X.Push(OperandOf(rest[0]))], m, f.places, calls);
    }
  }

  ghost predicate InReg(m: X.Mach, v: Value, i: nat, s: Store) {
    i < 6 ==> Wrap(ArgWord(m, i), WOf(v)) == ReadVal(v, s)
  }

  /** Register moves touch neither memory nor %rsp, and each register ends with its argument. */
  lemma {:induction false} RegMovesSim(f: Frame, s: Store, m: X.Mach, depth: int, args: seq<Value>, n: nat, calls: X.Calls) returns (m': X.Mach)
    requires Rel(f, s, m, depth) && AllOk(f.t, args) && n <= |args| && n <= 6
    ensures X.ExecAll(RegMoves(args, n), m, f.places, calls) == X.Next(m') && Rel(f, s, m', depth)
    ensures m'.mem == m.mem && X.RegOf(m', X.SP) == X.RegOf(m, X.SP) && m'.trace == m.trace
    ensures forall i :: 0 <= i < n ==> InReg(m', args[i], i, s)
  {
    hide Rel, X.Exec, InReg, Wrap;
    m' := m;
    if n > 0 {
      var m1 := RegMovesSim(f, s, m, depth, args, n - 1, calls);
      var v := args[n - 1];
      var mv := X.Mov(WOf(v), OperandOf(v), X.RegOp(ArgReg(n - 1)));
      m' := RegMoveSim(f, s, m1, depth, args, n, calls);
      One(mv, m1, f.places, calls);
      X.ExecAppend(RegMoves(args, n - 1), [mv], m, f.places, calls);
    }
  }

  lemma RegMoveSim(f: Frame, s: Store, m: X.Mach, depth: int, args: seq<Value>, n: nat, calls: X.Calls) returns (m': X.Mach)
    requires Rel(f, s, m, depth) && AllOk(f.t, args) && 0 < n <= |args| && n <= 6
    requires forall i :: 0 <= i < n - 1 ==> InReg(m, args[i], i, s)
    ensures X.Exec(X.Mov(WOf(args[n - 1]), OperandOf(args[n - 1]), X.RegOp(ArgReg(n - 1))), m, f.places, calls) == X.Next(m')
    ensures Rel(f, s, m', depth) && m'.mem == m.mem && X.RegOf(m', X.SP) == X.RegOf(m, X.SP) && m'.trace == m.trace
    ensures forall i :: 0 <= i < n ==> InReg(m', args[i], i, s)
  {
    hide Rel, Wrap, Load;
    var v, r := args[n - 1], ArgReg(n - 1);
    GetVal(f, s, m, depth, v);
    var u := X.GetW(m, OperandOf(v), WOf(v), f.places);
    SetScratch(f, s, m, depth, r, u, WOf(v));
    FullWord(u, WOf(v));
    m' := X.Set(m, X.RegOp(r), WOf(v), u, f.places);
    forall i | 0 <= i < n ensures InReg(m', args[i], i, s) {
      ArgRegIs(m, i);
      ArgRegIs(m', i);
      if i < n - 1 {
        assert InReg(m, args[i], i, s);
        RegsDiffer(i, n - 1);
      }
    }
  }

  lemma RegsDiffer(i: nat, j: nat)
    requires i < j < 6
    ensures ArgReg(i) != ArgReg(j)
  {
  }

  lemma PushedAligned(n: nat)
    ensures PushedBytes(n) % 16 == 0
  {
  }

  /** The words in place before the call are the arguments, for any number of them. */
  lemma ArgsInPlace(f: Frame, s: Store, m: X.Mach, args: seq<Value>, ts: seq<A.Ty>)
    requires |ts| == |args| && forall k :: 0 <= k < |args| ==> TyOf(args[k]) == ts[k]
    requires Stacked(m, args[RegCount(|args|)..], s)
    requires forall i :: 0 <= i < RegCount(|args|) ==> InReg(m, args[i], i, s)
    ensures ArgsPassed(m, ts, ReadVals(args, s))
  {
    hide Wrap, Load;
    var n := RegCount(|args|);
    ReadValsAt(args, s);
    forall i | 0 <= i < |ts| ensures ArgPassed(m, i, ts[i], ReadVals(args, s)[i]) {
      if i < n {
        assert InReg(m, args[i], i, s);
      } else {
        assert StackedAt(m, args[n..][i - n], i - n, s);
      }
    }
  }

  lemma {:induction false} ReadValsAt(vs: seq<Value>, s: Store)
    ensures forall i :: 0 <= i < |vs| ==> ReadVals(vs, s)[i] == ReadVal(vs[i], s)
  {
    if vs != [] { ReadValsAt(vs[1..], s); }
  }

  /** Everything before the call instruction. */
  lemma SetUpSim(f: Frame, s: Store, m: X.Mach, fn: nat, args: seq<Value>, calls: X.Calls) returns (m': X.Mach)
    requires Rel(f, s, m, 0) && FrameOk(f) && AllOk(f.t, args) && f.lim <= f.bp - f.size - PushedBytes(|args|)
    requires fn in f.t.params && fn in f.t.ret && |args| == |f.t.params[fn]|
    requires forall k :: 0 <= k < |args| ==> TyOf(args[k]) == f.t.params[fn][k]
    ensures var n := RegCount(|args|);
            X.ExecAll(AdjustSp(X.SubOp, Padding(|args|)) + (Pushes(args[n..]) + RegMoves(args, n)), m, f.places, calls) == X.Next(m')
    ensures Rel(f, s, m', PushedBytes(|args|)) && CallReady(f.t, f.places, f.lim, fn, m', ReadVals(args, s), s.statics)
  {
    hide PseudoHolds, StaticsHold, KeptAbove, X.Exec, Stacked, InReg, Wrap, ArgsPassed, Load;
    var n, p := RegCount(|args|), f.places;
    var m1 := AdjustSim(f, s, m, 0, X.SubOp, Padding(|args|), calls);
    var m2 := PushesSim(f, s, m1, Padding(|args|), args[n..], calls);
    m' := RegMovesSim(f, s, m2, PushedBytes(|args|), args, n, calls);
    X.ExecAppend(Pushes(args[n..]), RegMoves(args, n), m1, p, calls);
    X.ExecAppend(AdjustSp(X.SubOp, Padding(|args|)), Pushes(args[n..]) + RegMoves(args, n), m, p, calls);
    SameStack(m2, m', args[n..], s);
    ArgsInPlace(f, s, m', args, f.t.params[fn]);
    PushedAligned(|args|);
    AlignedSp(f.bp, f.size, PushedBytes(|args|));
  }

  lemma AlignedSp(bp: int, size: int, bytes: int)
    requires bp % 16 == 0 && size % 16 == 0 && bytes % 16 == 0
    ensures (bp - size - bytes) % 16 == 0
  {
  }

  lemma SameStack(m: X.Mach, m': X.Mach, rest: seq<Value>, s: Store)
    requires Stacked(m, rest, s) && m'.mem == m.mem && X.RegOf(m', X.SP) == X.RegOf(m, X.SP)
    ensures Stacked(m', rest, s)
  {
    hide Load, Wrap;
    forall j | 0 <= j < |rest| ensures StackedAt(m', rest[j], j, s) {
      assert StackedAt(m, rest[j], j, s);
    }
  }

  /** The callee leaves the caller's frame alone. */
  lemma AfterCall(f: Frame, s: Store, m: X.Mach, fn: nat, n: nat, r: CallResult, m': X.Mach)
    requires Rel(f, s, m, PushedBytes(n)) && FrameOk(f) && fn in f.t.ret && CallDone(f.t, f.places, fn, m, n, r, m')
    ensures Rel(f, s.(statics := r.statics, trace := r.trace), m', PushedBytes(n))
  {
    hide Load, Wrap, StaticsHold;
    var s' := s.(statics := r.statics, trace := r.trace);
    forall k ensures PseudoHolds(f, s', m'.mem, k) {
      assert PseudoHolds(f, s, m.mem, k);
      if k in f.t.pseudo {
        var a, b := f.bp + X.SlotOf(f.places, k), SizeOf(PW(f.t, k));
        forall x | a <= x < a + b ensures At8(m.mem, x) == At8(m'.mem, x) {
        }
        LoadAgrees(m.mem, m'.mem, a, b);
      }
    }
    forall y | f.bp <= y ensures At8(m'.mem, y) == At8(f.entry, y) {
      assert At8(m.mem, y) == At8(f.entry, y);
    }
  }

  lemma TakeSim(f: Frame, s: Store, m: X.Mach, d: Value, x: int, calls: X.Calls) returns (m': X.Mach)
    requires Rel(f, s, m, 0) && FrameOk(f) && (d.NoValue? || (DstOk(f.t, d) && Wrap(X.RegOf(m, X.AX), WOf(d)) == x))
    ensures X.ExecAll(TakeResult(d), m, f.places, calls) == X.Next(m') && Rel(f, WriteVal(d, x, s), m', 0)
  {
    hide Rel, FrameOk, Wrap, Load;
    m' := m;
    if !d.NoValue? {
      Pow256Of(WOf(d));
      var u := X.GetW(m, X.RegOp(X.AX), WOf(d), f.places);
      WrapMod(X.RegOf(m, X.AX), WOf(d));
      SetVal(f, s, m, 0, d, u);
      m' := X.Set(m, OperandOf(d), WOf(d), u, f.places);
      One(X.Mov(WOf(d), X.RegOp(X.AX), OperandOf(d)), m, f.places, calls);
    }
  }

  lemma RoomUp(f: Frame, k: nat)
    requires FrameOk(f) && f.lim <= f.bp - f.size - PushedBytes(k)
    ensures 0 <= f.bp - f.size < Modulus(W64) && PushedBytes(k) < Modulus(W64)
  {
  }

  lemma ConventionAt(f: Frame, s: Store, m: X.Mach, fn: nat, xs: seq<int>, calls: X.Calls, callees: Callees) returns (m': X.Mach)
    requires CallReady(f.t, f.places, f.lim, fn, m, xs, s.statics) && m.trace == s.trace
    requires Abi(f.t, f.places, f.lim, calls, callees) && callees(fn, xs, s.statics, s.trace).Some?
    ensures fn in f.t.ret && X.Exec(X.Call(fn), m, f.places, calls) == X.Next(m')
    ensures CallDone(f.t, f.places, fn, m, |xs|, callees(fn, xs, s.statics, s.trace).value, m')
  {
    hide StaticsHold, ArgsPassed, CallDone;
    assert AbiAt(f.t, f.places, f.lim, calls, callees, fn, m, xs, s.statics);
    m' := calls(fn, m).value;
  }
}
