/** How a machine state represents the objects of a running function. */
module Frames {
  import opened Arith
  import A = Ast
  import opened Ir
  import opened Semantics
  import opened Memory
  import X = X86
  import opened Lower

  /** One type per pseudo and per static object, and the signatures of callees. */
  datatype Types = Types(pseudo: map<nat, A.Ty>, statics: map<nat, A.Ty>, params: map<nat, seq<A.Ty>>, ret: map<nat, A.Ty>)

  /** A function's activation: its layout, the size of its frame, %rbp, the lowest stack address
      that is free for its calls, and the memory it was entered with. */
  datatype Frame = Frame(t: Types, places: X.Places, size: nat, bp: int, lim: int, entry: Bytes)

  function PW(t: Types, id: nat): Width
    requires id in t.pseudo
  {
    A.WidthOf(t.pseudo[id])
  }

  function SW(t: Types, id: nat): Width
    requires id in t.statics
  {
    A.WidthOf(t.statics[id])
  }

  /** Slots lie in the frame and static objects below the stack; no two share a byte. */
  ghost predicate FrameOk(f: Frame) {
    && 0 <= f.lim <= f.bp - f.size && f.bp + 16 < Modulus(W64)
    && f.bp % 16 == 0 && f.size % 16 == 0
    && SlotsOk(f) && DataOk(f)
  }

  ghost predicate SlotsOk(f: Frame) {
    && (forall id {:trigger X.SlotOf(f.places, id)} :: id in f.t.pseudo ==>
          0 <= X.SlotOf(f.places, id) + f.size && X.SlotOf(f.places, id) + SizeOf(PW(f.t, id)) <= 0)
    && (forall id, id2 {:trigger X.SlotOf(f.places, id), X.SlotOf(f.places, id2)} ::
          id in f.t.pseudo && id2 in f.t.pseudo && id != id2 ==>
          Apart(X.SlotOf(f.places, id), SizeOf(PW(f.t, id)), X.SlotOf(f.places, id2), SizeOf(PW(f.t, id2))))
  }

  ghost predicate DataOk(f: Frame) {
    && (forall id {:trigger X.DataOf(f.places, id)} :: id in f.t.statics ==>
          X.DataOf(f.places, id) + SizeOf(SW(f.t, id)) <= f.lim)
    && (forall id, id2 {:trigger X.DataOf(f.places, id), X.DataOf(f.places, id2)} ::
          id in f.t.statics && id2 in f.t.statics && id != id2 ==>
          Apart(X.DataOf(f.places, id), SizeOf(SW(f.t, id)), X.DataOf(f.places, id2), SizeOf(SW(f.t, id2))))
  }

  /** Signed contents of a memory cell. */
  function Cell(mem: Bytes, a: int, w: Width): int {
    Wrap(Load(mem, a, SizeOf(w)), w)
  }

  ghost predicate PseudoHolds(f: Frame, s: Store, mem: Bytes, id: nat) {
    id in f.t.pseudo ==> Cell(mem, f.bp + X.SlotOf(f.places, id), PW(f.t, id)) == Local(s, id)
  }

  ghost predicate StaticHolds(t: Types, places: X.Places, statics: map<nat, int>, mem: Bytes, id: nat) {
    id in t.statics ==> Cell(mem, X.DataOf(places, id), SW(t, id)) == (if id in statics then statics[id] else 0)
  }

  ghost predicate StaticsHold(t: Types, places: X.Places, statics: map<nat, int>, mem: Bytes) {
    forall id :: StaticHolds(t, places, statics, mem, id)
  }

  ghost predicate KeptAbove(mem: Bytes, mem': Bytes, a: int) {
    forall x :: a <= x ==> At8(mem', x) == At8(mem, x)
  }

  /** The machine holds the store 's', with %rsp 'depth' bytes below the frame. The caller's part
      of the stack is as it was on entry. */
  ghost predicate Rel(f: Frame, s: Store, m: X.Mach, depth: int) {
    && X.RegOf(m, X.BP) == f.bp && X.RegOf(m, X.SP) == f.bp - f.size - depth
    && m.trace == s.trace
    && (forall id :: PseudoHolds(f, s, m.mem, id))
    && StaticsHold(f.t, f.places, s.statics, m.mem)
    && KeptAbove(f.entry, m.mem, f.bp)
  }

  /** A typed operand of three-address code. */
  predicate ValOk(t: Types, v: Value) {
    match v
    case NoValue => false
    case Const(ty, c) => A.IsArithmetic(ty) && A.Fits(c, ty)
    case Pseudo(ty, id) => A.IsArithmetic(ty) && id in t.pseudo && t.pseudo[id] == ty
    case StaticObj(ty, id) => A.IsArithmetic(ty) && id in t.statics && t.statics[id] == ty
  }

  predicate DstOk(t: Types, v: Value) {
    ValOk(t, v) && !v.Const?
  }

  predicate SamePlace(a: Value, b: Value) {
    match a
    case Pseudo(_, id) => b.Pseudo? && b.id == id
    case StaticObj(_, id) => b.StaticObj? && b.id == id
    case _ => false
  }

  predicate AllOk(t: Types, vs: seq<Value>) {
    forall i :: 0 <= i < |vs| ==> ValOk(t, vs[i])
  }

  /** What makes 'mov lhs, dst; op rhs, dst' and the other expansions right. */
  predicate InstrOk(t: Types, i: Instr) {
    match i
    case IReturn(v) => v.NoValue? || ValOk(t, v)
    case IUnary(op, a, d) =>
      && ValOk(t, a) && DstOk(t, d) && !op.Plus?
      && (if op.LogNot? then TyOf(d) == A.Int else TyOf(a) == TyOf(d))
    case IBinary(op, a, b, d) =>
      && ValOk(t, a) && ValOk(t, b) && DstOk(t, d) && !A.IsLogical(op)
      && (if A.IsCompare(op) then TyOf(a) == TyOf(b) && TyOf(d) == A.Int
          else if op.Div? || op.Rem? then TyOf(a) == TyOf(b) == TyOf(d)
          else TyOf(a) == TyOf(d) && !SamePlace(d, b) && (A.IsShift(op) || TyOf(b) == TyOf(d)))
    case ICopy(a, d) => ValOk(t, a) && DstOk(t, d) && TyOf(a) == TyOf(d)
    case ICast(a, d) => ValOk(t, a) && DstOk(t, d) && TyOf(a) != TyOf(d)
    case IJump(_) => true
    case IJumpIfZero(c, _) => ValOk(t, c)
    case IJumpIfNotZero(c, _) => ValOk(t, c)
    case ILabel(_) => true
    case ICall(fn, args, d) =>
      && fn in t.params && fn in t.ret && AllOk(t, args) && |args| == |t.params[fn]|
      && (forall k :: 0 <= k < |args| ==> TyOf(args[k]) == t.params[fn][k])
      && (d.NoValue? || (DstOk(t, d) && TyOf(d) == t.ret[fn]))
  }

  /** Reading an operand gives the value it has in the store. */
  lemma GetVal(f: Frame, s: Store, m: X.Mach, depth: int, v: Value)
    requires Rel(f, s, m, depth) && ValOk(f.t, v)
    ensures Wrap(X.GetW(m, OperandOf(v), WOf(v), f.places), WOf(v)) == ReadVal(v, s)
    ensures 0 <= X.GetW(m, OperandOf(v), WOf(v), f.places) < Modulus(WOf(v))
  {
    hide Load, Wrap;
    Pow256Of(WOf(v));
    match v
    case Const(ty, c) => WrapMod(c, WOf(v)); ConstWrap(c, WOf(v));
    case Pseudo(_, id) => assert PseudoHolds(f, s, m.mem, id);
    case StaticObj(_, id) => assert StaticHolds(f.t, f.places, s.statics, m.mem, id);
  }

  lemma ConstWrap(c: int, w: Width)
    requires InRange(c, w)
    ensures Wrap(c, w) == c
  {
  }

  /** Writing the destination's cell changes that object and nothing else. */
  lemma SetVal(f: Frame, s: Store, m: X.Mach, depth: int, d: Value, x: int)
    requires Rel(f, s, m, depth) && FrameOk(f) && DstOk(f.t, d)
    ensures Rel(f, WriteVal(d, Wrap(x, WOf(d)), s), X.Set(m, OperandOf(d), WOf(d), x, f.places), depth)
  {
    hide PseudoHolds, StaticsHold, KeptAbove, FrameOk, Wrap, Put, Cell;
    var a := X.Address(m, OperandOf(d), f.places);
    var w := WOf(d);
    CellPut(m.mem, a, w, x);
    if d.Pseudo? { PutSlot(f, s, m, depth, d.id, w, SizeOf(w), x, x); }
    else { PutStatic(f, s, m, depth, d.id, w, SizeOf(w), x, x); }
  }

  lemma CellPut(mem: Bytes, a: int, w: Width, x: int)
    ensures Cell(Put(mem, a, SizeOf(w), x), a, w) == Wrap(x, w)
  {
    LoadPutSame(mem, a, SizeOf(w), x);
    Pow256Of(w);
    WrapMod(x, w);
  }

  /** A store of 'n' bytes into the slot of pseudo 'id' that makes it read as 'x'. */
  lemma PutSlot(f: Frame, s: Store, m: X.Mach, depth: int, id: nat, w: Width, n: nat, x: int, v: int)
    requires Rel(f, s, m, depth) && FrameOk(f) && id in f.t.pseudo && w == PW(f.t, id) && 1 <= n <= SizeOf(w)
    requires Cell(Put(m.mem, f.bp + X.SlotOf(f.places, id), n, v), f.bp + X.SlotOf(f.places, id), w) == Wrap(x, w)
    ensures Rel(f, s.(locals := s.locals[id := Wrap(x, w)]), m.(mem := Put(m.mem, f.bp + X.SlotOf(f.places, id), n, v)), depth)
  {
    hide Load, Put, Wrap;
    var a := f.bp + X.SlotOf(f.places, id);
    var mem' := Put(m.mem, a, n, v);
    var s' := s.(locals := s.locals[id := Wrap(x, w)]);
    forall k ensures PseudoHolds(f, s', mem', k) {
      assert PseudoHolds(f, s, m.mem, k);
      if k in f.t.pseudo && k != id {
        LoadPutOther(m.mem, a, n, v, f.bp + X.SlotOf(f.places, k), SizeOf(PW(f.t, k)));
      }
    }
    forall k ensures StaticHolds(f.t, f.places, s.statics, mem', k) {
      assert StaticHolds(f.t, f.places, s.statics, m.mem, k);
      if k in f.t.statics {
        LoadPutOther(m.mem, a, n, v, X.DataOf(f.places, k), SizeOf(SW(f.t, k)));
      }
    }
    forall y | f.bp <= y ensures At8(mem', y) == At8(f.entry, y) {
      assert At8(m.mem, y) == At8(f.entry, y);
      PutElsewhere(m.mem, a, n, v, y);
    }
  }

  lemma PutStatic(f: Frame, s: Store, m: X.Mach, depth: int, id: nat, w: Width, n: nat, x: int, v: int)
    requires Rel(f, s, m, depth) && FrameOk(f) && id in f.t.statics && w == SW(f.t, id) && 1 <= n <= SizeOf(w)
    requires Cell(Put(m.mem, X.DataOf(f.places, id), n, v), X.DataOf(f.places, id), w) == Wrap(x, w)
    ensures Rel(f, s.(statics := s.statics[id := Wrap(x, w)]), m.(mem := Put(m.mem, X.DataOf(f.places, id), n, v)), depth)
  {
    hide Load, Put, Wrap;
    var a := X.DataOf(f.places, id);
    var mem' := Put(m.mem, a, n, v);
    var st := s.statics[id := Wrap(x, w)];
    var s' := s.(statics := st);
    forall k ensures PseudoHolds(f, s', mem', k) {
      assert PseudoHolds(f, s, m.mem, k);
      if k in f.t.pseudo {
        LoadPutOther(m.mem, a, n, v, f.bp + X.SlotOf(f.places, k), SizeOf(PW(f.t, k)));
      }
    }
    forall k ensures StaticHolds(f.t, f.places, st, mem', k) {
      assert StaticHolds(f.t, f.places, s.statics, m.mem, k);
      if k in f.t.statics && k != id {
        LoadPutOther(m.mem, a, n, v, X.DataOf(f.places, k), SizeOf(SW(f.t, k)));
      }
    }
    forall y | f.bp <= y ensures At8(mem', y) == At8(f.entry, y) {
      assert At8(m.mem, y) == At8(f.entry, y);
      PutElsewhere(m.mem, a, n, v, y);
    }
  }

  /** Registers other than %rsp and %rbp, and the flags, hold no part of the store. */
  lemma SetScratch(f: Frame, s: Store, m: X.Mach, depth: int, r: X.Reg, x: int, w: Width)
    requires Rel(f, s, m, depth) && r != X.SP && r != X.BP
    ensures Rel(f, s, X.Set(m, X.RegOp(r), w, x, f.places), depth)
  {
    hide PseudoHolds, StaticsHold, KeptAbove;
    var m' := X.Set(m, X.RegOp(r), w, x, f.places);
    forall id ensures PseudoHolds(f, s, m'.mem, id) {
      assert PseudoHolds(f, s, m.mem, id);
    }
  }

  lemma SetFlags(f: Frame, s: Store, m: X.Mach, depth: int, fl: X.Flags)
    requires Rel(f, s, m, depth)
    ensures Rel(f, s, m.(flags := fl), depth)
  {
    hide PseudoHolds, StaticsHold, KeptAbove;
    forall id ensures PseudoHolds(f, s, m.(flags := fl).mem, id) {
      assert PseudoHolds(f, s, m.mem, id);
    }
  }

  /** Moving %rsp changes the depth only. */
  lemma MoveSp(f: Frame, s: Store, m: X.Mach, depth: int, depth': int)
    requires Rel(f, s, m, depth) && 0 <= f.bp - f.size - depth' < Modulus(W64)
    ensures Rel(f, s, X.SetReg(m, X.SP, f.bp - f.size - depth'), depth')
  {
    hide PseudoHolds, StaticsHold, KeptAbove;
    var m' := X.SetReg(m, X.SP, f.bp - f.size - depth');
    forall id ensures PseudoHolds(f, s, m'.mem, id) {
      assert PseudoHolds(f, s, m.mem, id);
    }
  }

  /** Memory written below the frame but above the static objects. */
  lemma PutBelow(f: Frame, s: Store, m: X.Mach, depth: int, a: int, n: nat, v: int)
    requires Rel(f, s, m, depth) && FrameOk(f) && f.lim <= a && a + n <= f.bp - f.size
    ensures Rel(f, s, m.(mem := Put(m.mem, a, n, v)), depth)
  {
    hide Load, Put, Wrap;
    var mem' := Put(m.mem, a, n, v);
    forall k ensures PseudoHolds(f, s, mem', k) {
      assert PseudoHolds(f, s, m.mem, k);
      if k in f.t.pseudo {
        LoadPutOther(m.mem, a, n, v, f.bp + X.SlotOf(f.places, k), SizeOf(PW(f.t, k)));
      }
    }
    forall k ensures StaticHolds(f.t, f.places, s.statics, mem', k) {
      assert StaticHolds(f.t, f.places, s.statics, m.mem, k);
      if k in f.t.statics {
        LoadPutOther(m.mem, a, n, v, X.DataOf(f.places, k), SizeOf(SW(f.t, k)));
      }
    }
    forall y | f.bp <= y ensures At8(mem', y) == At8(f.entry, y) {
      assert At8(m.mem, y) == At8(f.entry, y);
      PutElsewhere(m.mem, a, n, v, y);
    }
  }
}
