/** The back end as it runs, phase by phase over all functions: lowering appends to a function's instruction
    list and records pseudo sizes in an array, slots are handed out from one table for the whole program while
    operands are overwritten in place, and legalisation rebuilds the lists. */
module X86Builder {
  import opened Arith
  import A = Ast
  import opened Ir
  import opened Memory
  import X = X86
  import opened AsmArith
  import opened Lower
  import opened Frames
  import opened Slots
  import opened Fixup
  import opened Backend
  import opened Execution
  import opened Placement
  import opened Callee
  import opened SharedSlots

  lemma {:induction false} LowerAllSnoc(code: seq<Instr>, i: Instr)
    ensures LowerAll(code + [i]) == LowerAll(code) + LowerInstr(i)
  {
    hide LowerInstr;
    if code == [] {
      assert [i][1..] == [];
      assert LowerAll([]) == [];
    } else {
      assert (code + [i])[1..] == code[1..] + [i];
      LowerAllSnoc(code[1..], i);
    }
  }

  lemma FixAllSnoc(code: seq<X.AInstr>, i: X.AInstr)
    ensures FixAll(code + [i]) == FixAll(code) + Fix(i)
  {
    hide Fix;
    FixAppend(code, [i]);
    assert [i][1..] == [];
  }

  lemma Nested(w: seq<X.AInstr>, a: seq<X.AInstr>, b: seq<X.AInstr>, c: seq<X.AInstr>, d: seq<X.AInstr>, e: seq<X.AInstr>, f: seq<X.AInstr>)
    ensures w + a + b + c + d + e + f == w + (a + (b + (c + (d + (e + f)))))
  {
    assert w + a + b + c + d + e + f == (w + a + b + c) + (d + (e + f));
    assert w + a + b + c == w + (a + (b + c));
    assert (a + (b + c)) + (d + (e + f)) == a + (b + (c + (d + (e + f))));
  }

  /** A function of the assembly program; the stack size is known after the second phase. */
  datatype AsmFn = AsmFn(instrs: seq<X.AInstr>, stackSize: nat)

  class Builder {
    /** Types of the pseudos of the whole program. */
    ghost const t: Types
    var fns: seq<AsmFn>
    /** Instructions of the function in hand. */
    var instrs: seq<X.AInstr>
    var pseudoSize: array<int>
    var pseudoOffset: array<int>
    var frameSize: nat

    /** Every recorded size is the right one. */
    ghost predicate Valid()
      reads this`pseudoSize, this`pseudoOffset, pseudoSize
    {
      && pseudoSize != pseudoOffset && pseudoSize.Length == pseudoOffset.Length
      && forall id :: id in t.pseudo ==> id < pseudoSize.Length && (pseudoSize[id] == 0 || pseudoSize[id] == SizeOf(PW(t, id)))
    }

    /** A pseudo operand whose size is known. */
    ghost predicate Recorded(o: X.Operand)
      reads this`pseudoSize, pseudoSize
    {
      o.PseudoOp? ==> o.id in t.pseudo && o.id < pseudoSize.Length && pseudoSize[o.id] == SizeOf(PW(t, o.id))
    }

    ghost predicate OperandsRecorded(i: X.AInstr)
      reads this`pseudoSize, pseudoSize
    {
      forall o :: o in OperandsOf(i) ==> Recorded(o)
    }

    ghost predicate AllRecorded(code: seq<X.AInstr>)
      reads this`pseudoSize, pseudoSize
    {
      forall k :: 0 <= k < |code| ==> OperandsRecorded(code[k])
    }

    ghost predicate Ready()
      reads this`instrs, this`fns, this`pseudoSize, this`pseudoOffset, pseudoSize
    {
      Valid() && AllRecorded(instrs) && forall k :: 0 <= k < |fns| ==> AllRecorded(fns[k].instrs)
    }

    constructor (ghost t: Types, count: nat)
      requires forall id :: id in t.pseudo ==> id < count
      ensures Ready() && this.t == t && fns == [] && instrs == [] && fresh(pseudoSize) && fresh(pseudoOffset)
      ensures Holds(map[])
    {
      this.t := t;
      fns, instrs, frameSize := [], [], 0;
      pseudoSize := new int[count](_ => 0);
      pseudoOffset := new int[count](_ => 0);
    }

    method OperandFromValue(v: Value) returns (o: X.Operand)
      requires Ready() && (v.NoValue? || ValOk(t, v))
      modifies pseudoSize
      ensures Ready() && o == OperandOf(v) && (ValOk(t, v) ==> Recorded(o))
      ensures forall o {:trigger Recorded(o)} :: old(Recorded(o)) ==> Recorded(o)
    {
      if v.Pseudo? { pseudoSize[v.id] := SizeOf(WOf(v)); }
      o := OperandOf(v);
      assert forall o {:trigger Recorded(o)} :: old(Recorded(o)) ==> Recorded(o);
      forall code {:trigger AllRecorded(code)} | old(AllRecorded(code)) ensures AllRecorded(code) {
        forall k | 0 <= k < |code| ensures OperandsRecorded(code[k]) { assert old(OperandsRecorded(code[k])); }
      }
    }

    method Emit(i: X.AInstr)
      requires Ready() && OperandsRecorded(i)
      modifies `instrs
      ensures Ready() && instrs == old(instrs) + [i]
    {
      instrs := instrs + [i];
    }

    method EmitMov(w: Width, src: X.Operand, dst: X.Operand)
      requires Ready() && (src.PseudoOp? ==> Recorded(src)) && (dst.PseudoOp? ==> Recorded(dst))
      modifies `instrs
      ensures Ready() && instrs == old(instrs) + [X.Mov(w, src, dst)]
    {
      Emit(X.Mov(w, src, dst));
    }

    method EmitBinary(w: Width, op: X.BinaryOp, src: X.Operand, dst: X.Operand)
      requires Ready() && (src.PseudoOp? ==> Recorded(src)) && (dst.PseudoOp? ==> Recorded(dst))
      modifies `instrs
      ensures Ready() && instrs == old(instrs) + [X.Binary(w, op, src, dst)]
    {
      Emit(X.Binary(w, op, src, dst));
    }

    method EmitCmp(w: Width, src: X.Operand, dst: X.Operand)
      requires Ready() && (src.PseudoOp? ==> Recorded(src)) && (dst.PseudoOp? ==> Recorded(dst))
      modifies `instrs
      ensures Ready() && instrs == old(instrs) + [X.Cmp(w, src, dst)]
    {
      Emit(X.Cmp(w, src, dst));
    }

    /** An instruction with at most one operand. */
    method EmitOne(i: X.AInstr, o: X.Operand)
      requires Ready() && (o.PseudoOp? ==> Recorded(o)) && (OperandsOf(i) == [] || OperandsOf(i) == [o])
      modifies `instrs
      ensures Ready() && instrs == old(instrs) + [i]
    {
      Emit(i);
    }

    method LowerUnary(op: A.UnOp, src: Value, dst: Value)
      requires Ready() && InstrOk(t, IUnary(op, src, dst))
      modifies `instrs, pseudoSize
      ensures Ready() && instrs == old(instrs) + Lower.LowerUnary(op, src, dst)
    {
      hide Recorded, Valid, AllRecorded;
      var s := OperandFromValue(src);
      var d := OperandFromValue(dst);
      if op.LogNot? {
        EmitCmp(WOf(src), X.Imm(0), s);
        EmitMov(WOf(dst), X.Imm(0), d);
        EmitOne(X.Setcc(X.CondE, d), d);
      } else {
        EmitMov(WOf(dst), s, d);
        EmitOne(X.Unary(WOf(dst), if op.Neg? then X.NegOp else X.NotOp, d), d);
      }
    }

    method LowerBinary(op: A.BinOp, lhs: Value, rhs: Value, dst: Value)
      requires Ready() && InstrOk(t, IBinary(op, lhs, rhs, dst))
      modifies `instrs, pseudoSize
      ensures Ready() && instrs == old(instrs) + Lower.LowerBinary(op, lhs, rhs, dst)
    {
      hide Recorded, Valid, AllRecorded, ValOk;
      var l := OperandFromValue(lhs);
      var r := OperandFromValue(rhs);
      var d := OperandFromValue(dst);
      if op.Div? || op.Rem? {
        DivideInto(op, WOf(lhs), l, r, d);
      } else if A.IsCompare(op) {
        CompareInto(op, WOf(lhs), l, r, WOf(dst), d);
      } else {
        EmitMov(WOf(dst), l, d);
        if A.IsShift(op) && rhs.Const? {
          EmitBinary(WOf(dst), BinaryOf(op), X.Imm(rhs.c), d);
        } else if A.IsShift(op) {
          EmitMov(WOf(rhs), r, X.RegOp(X.CX));
          EmitBinary(WOf(dst), BinaryOf(op), X.RegOp(X.CX), d);
        } else {
          EmitBinary(WOf(dst), BinaryOf(op), r, d);
        }
      }
    }

    method DivideInto(op: A.BinOp, w: Width, l: X.Operand, r: X.Operand, d: X.Operand)
      requires Ready() && Recorded(l) && Recorded(r) && Recorded(d)
      modifies `instrs
      ensures Ready()
      ensures instrs == old(instrs) + [X.Mov(w, l, X.RegOp(X.AX)), X.Cdq(w), X.Idiv(w, r), X.Mov(w, X.RegOp(if op.Div? then X.AX else X.DX), d)]
    {
      hide Recorded, Valid, AllRecorded;
      EmitMov(w, l, X.RegOp(X.AX));
      EmitOne(X.Cdq(w), l);
      EmitOne(X.Idiv(w, r), r);
      EmitMov(w, X.RegOp(if op.Div? then X.AX else X.DX), d);
    }

    method CompareInto(op: A.BinOp, w: Width, l: X.Operand, r: X.Operand, dw: Width, d: X.Operand)
      requires Ready() && Recorded(l) && Recorded(r) && Recorded(d)
      modifies `instrs
      ensures Ready() && instrs == old(instrs) + [X.Cmp(w, r, l), X.Mov(dw, X.Imm(0), d), X.Setcc(CondOf(op), d)]
    {
      hide Recorded, Valid, AllRecorded;
      EmitCmp(w, r, l);
      EmitMov(dw, X.Imm(0), d);
      EmitOne(X.Setcc(CondOf(op), d), d);
    }

    method LowerCast(src: Value, dst: Value)
      requires Ready() && InstrOk(t, ICast(src, dst))
      modifies `instrs, pseudoSize
      ensures Ready() && instrs == old(instrs) + Lower.LowerCast(src, dst)
    {
      hide Recorded, Valid, AllRecorded;
      var s := OperandFromValue(src);
      var d := OperandFromValue(dst);
      if TyOf(dst).Long? && !TyOf(src).Long? { Emit(X.Movsx(s, d)); } else { Emit(X.Mov(W32, s, d)); }
    }

    /** %rsp moves by a constant, unless that is 0. */
    method MoveStack(op: X.BinaryOp, bytes: nat)
      requires Ready()
      modifies `instrs
      ensures Ready() && instrs == old(instrs) + AdjustSp(op, bytes)
    {
      if bytes != 0 { Emit(X.Binary(W64, op, X.Imm(bytes), X.RegOp(X.SP))); }
    }

    /** The arguments beyond the sixth, last one first. */
    method PushArgs(args: seq<Value>, n: nat)
      requires Ready() && n <= |args| && AllOk(t, args)
      modifies `instrs, pseudoSize
      ensures Ready() && instrs == old(instrs) + Pushes(args[n..])
    {
      hide Recorded, Valid, AllRecorded, ValOk;
      var i := |args|;
      while i > n
        invariant n <= i <= |args| && Ready() && instrs == old(instrs) + Pushes(args[i..])
        invariant pseudoSize == old(pseudoSize)
      {
        i := i - 1;
        assert args[i..][1..] == args[i + 1..];
        var o := OperandFromValue(args[i]);
        EmitOne(X.Push(o), o);
      }
    }

    method MoveArgs(args: seq<Value>, n: nat)
      requires Ready() && n <= |args| && n <= 6 && AllOk(t, args)
      modifies `instrs, pseudoSize
      ensures Ready() && instrs == old(instrs) + RegMoves(args, n)
    {
      hide Recorded, Valid, AllRecorded, ValOk;
      var i := 0;
      while i < n
        invariant 0 <= i <= n && Ready() && instrs == old(instrs) + RegMoves(args, i)
        invariant pseudoSize == old(pseudoSize)
      {
        var o := OperandFromValue(args[i]);
        EmitMov(WOf(args[i]), o, X.RegOp(ArgReg(i)));
        i := i + 1;
      }
    }

    method TakeCallResult(dst: Value)
      requires Ready() && (dst.NoValue? || DstOk(t, dst))
      modifies `instrs, pseudoSize
      ensures Ready() && instrs == old(instrs) + TakeResult(dst)
    {
      if !dst.NoValue? {
        var d := OperandFromValue(dst);
        EmitMov(WOf(dst), X.RegOp(X.AX), d);
      }
    }

    method LowerCall(fn: nat, args: seq<Value>, dst: Value)
      requires Ready() && InstrOk(t, ICall(fn, args, dst))
      modifies `instrs, pseudoSize
      ensures Ready() && instrs == old(instrs) + Lower.LowerCall(fn, args, dst)
    {
      hide Ready, ValOk, Pushes, RegMoves, AdjustSp, TakeResult;
      var n := RegCount(|args|);
      MoveStack(X.SubOp, Padding(|args|));
      PushArgs(args, n);
      MoveArgs(args, n);
      EmitOne(X.Call(fn), X.Imm(0));
      MoveStack(X.AddOp, PushedBytes(|args|));
      TakeCallResult(dst);
      Nested(old(instrs), AdjustSp(X.SubOp, Padding(|args|)), Pushes(args[n..]), RegMoves(args, n), [X.Call(fn)],
             AdjustSp(X.AddOp, PushedBytes(|args|)), TakeResult(dst));
    }

    method LowerInstr(i: Instr)
      requires Ready() && InstrOk(t, i)
      modifies `instrs, pseudoSize
      ensures Ready() && instrs == old(instrs) + Lower.LowerInstr(i)
    {
      hide Recorded, Valid, AllRecorded, ValOk, Lower.LowerUnary, Lower.LowerBinary, Lower.LowerCall;
      match i
      case IReturn(v) =>
        if !v.NoValue? {
          var o := OperandFromValue(v);
          EmitMov(WOf(v), o, X.RegOp(X.AX));
        }
        EmitOne(X.Ret, X.Imm(0));
      case IUnary(op, a, d) => LowerUnary(op, a, d);
      case IBinary(op, a, b, d) => LowerBinary(op, a, b, d);
      case ICopy(a, d) =>
        var s := OperandFromValue(a);
        var o := OperandFromValue(d);
        EmitMov(WOf(d), s, o);
      case IJump(l) => EmitOne(X.Jmp(l), X.Imm(0));
      case IJumpIfZero(c, l) => LowerBranch(c, X.CondE, l);
      case IJumpIfNotZero(c, l) => LowerBranch(c, X.CondNE, l);
      case ILabel(l) => EmitOne(X.LabelAt(l), X.Imm(0));
      case ICall(fn, args, d) => LowerCall(fn, args, d);
      case ICast(a, d) => LowerCast(a, d);
    }

    method LowerBranch(c: Value, cond: X.Cond, l: Lbl)
      requires Ready() && ValOk(t, c)
      modifies `instrs, pseudoSize
      ensures Ready() && instrs == old(instrs) + [X.Cmp(WOf(c), X.Imm(0), OperandOf(c)), X.Jcc(cond, l)]
    {
      hide Recorded, Valid, AllRecorded;
      var o := OperandFromValue(c);
      EmitCmp(WOf(c), X.Imm(0), o);
      EmitOne(X.Jcc(cond, l), X.Imm(0));
    }

    /** Phase 1 for one function. */
    method LowerFunction(params: seq<Value>, code: seq<Instr>)
      requires Ready() && instrs == [] && ParamsOk(t, params) && AllInstrsOk(t, code)
      modifies `instrs, pseudoSize
      ensures Ready() && instrs == Lower.LowerFunction(params, code)
    {
      hide Recorded, Valid, AllRecorded, ValOk, InstrOk, Lower.LowerInstr;
      var i := 0;
      while i < |params|
        invariant 0 <= i <= |params| && Ready() && instrs == LowerParams(params, i)
        invariant pseudoSize == old(pseudoSize)
      {
        var o := OperandFromValue(params[i]);
        EmitMov(WOf(params[i]), ParamSource(i), o);
        i := i + 1;
      }
      i := 0;
      while i < |code|
        invariant 0 <= i <= |code| && Ready() && instrs == LowerParams(params, |params|) + LowerAll(code[..i])
        invariant pseudoSize == old(pseudoSize)
      {
        LowerInstr(code[i]);
        assert code[..i + 1] == code[..i] + [code[i]];
        LowerAllSnoc(code[..i], code[i]);
        i := i + 1;
      }
      assert code[..i] == code;
    }

    /** Phase 1: every function lowered, and the sizes of all pseudos recorded in one array. */
    method LowerProgram(gs: seq<Fun>, ghost ts: seq<Types>)
      requires Ready() && fns == [] && AllTyped(gs, ts) && t == Joint(ts)
      modifies `fns, `instrs, pseudoSize
      ensures Ready() && |fns| == |gs| && forall k :: 0 <= k < |gs| ==> fns[k].instrs == Lower.LowerFunction(gs[k].params, gs[k].code)
    {
      hide Recorded, Valid, AllRecorded, ParamsOk, AllInstrsOk, AllTyped, Joint, Lower.LowerFunction;
      for k := 0 to |gs|
        invariant Ready() && |fns| == k && pseudoSize == old(pseudoSize)
        invariant forall j :: 0 <= j < k ==> fns[j].instrs == Lower.LowerFunction(gs[j].params, gs[j].code)
      {
        JointTyped(gs, ts, k);
        instrs := [];
        assert AllRecorded(instrs) by { NothingRecorded(); }
        LowerFunction(gs[k].params, gs[k].code);
        fns := fns + [AsmFn(instrs, 0)];
      }
    }

    lemma TwoArrays()
      requires Valid()
      ensures pseudoSize != pseudoOffset
    {
    }

    lemma NothingRecorded()
      ensures AllRecorded([])
    {
    }

    /** The offset array holds the slots handed out; 0 marks a pseudo without one. */
    ghost predicate Holds(off: map<nat, int>)
      reads this`pseudoOffset, pseudoOffset
    {
      && (forall id :: id in off ==> off[id] < 0)
      && forall id :: id in t.pseudo ==> id < pseudoOffset.Length && pseudoOffset[id] == (if id in off then off[id] else 0)
    }

    /** The offset array and frame size represent the layout. */
    ghost predicate Represents(l: Layout)
      reads this`pseudoOffset, this`frameSize, pseudoOffset
    {
      frameSize == l.frame && Holds(l.off)
    }

    method ReplacePseudo(o: X.Operand, ghost l: Layout) returns (r: X.Operand)
      requires Valid() && Recorded(o) && Represents(l)
      modifies `frameSize, pseudoOffset
      ensures Valid() && Represents(Place(l, o, SizesOf(t))) && r == ReplaceOp(o, Place(l, o, SizesOf(t)).off)
    {
      hide RoundUp;
      r := o;
      if o.PseudoOp? {
        PlaceKeeps(l, o, SizesOf(t));
        if pseudoOffset[o.id] == 0 {
          var size := pseudoSize[o.id];
          frameSize := RoundUp(frameSize + size, size);
          pseudoOffset[o.id] := 0 - frameSize;
        }
        r := X.Stack(pseudoOffset[o.id]);
      }
    }

    method ReplaceTwo(a: X.Operand, b: X.Operand, ghost l: Layout) returns (a': X.Operand, b': X.Operand)
      requires Valid() && Recorded(a) && Recorded(b) && Represents(l)
      modifies `frameSize, pseudoOffset
      ensures var l' := PlaceEach(l, [a, b], SizesOf(t));
              Valid() && Represents(l') && a' == ReplaceOp(a, l'.off) && b' == ReplaceOp(b, l'.off)
    {
      hide Represents, Recorded, Place;
      ghost var l1 := Place(l, a, SizesOf(t));
      Represented(l);
      TwoPlaced(l, a, b);
      a' := ReplacePseudo(a, l);
      b' := ReplacePseudo(b, l1);
    }

    lemma Represented(l: Layout)
      requires Represents(l)
      ensures Negative(l)
    {
    }

    lemma TwoPlaced(l: Layout, a: X.Operand, b: X.Operand)
      requires Recorded(a) && Negative(l)
      ensures var l1 := Place(l, a, SizesOf(t));
              PlaceEach(l, [a, b], SizesOf(t)) == Place(l1, b, SizesOf(t))
              && ReplaceOp(a, Place(l1, b, SizesOf(t)).off) == ReplaceOp(a, l1.off)
    {
      var l1 := Place(l, a, SizesOf(t));
      PlaceKeeps(l, a, SizesOf(t));
      PlaceKeeps(l1, b, SizesOf(t));
      assert [a, b][1..] == [b];
      OnePlaced(l1, b);
    }

    lemma OnePlaced(l: Layout, a: X.Operand)
      ensures PlaceEach(l, [a], SizesOf(t)) == Place(l, a, SizesOf(t))
    {
      assert [a][1..] == [];
    }

    /** Overwrites the operands of one instruction. */
    method ReplaceOperands(i: X.AInstr, ghost l: Layout) returns (r: X.AInstr)
      requires Valid() && OperandsRecorded(i) && Represents(l)
      modifies `frameSize, pseudoOffset
      ensures var l' := PlaceEach(l, OperandsOf(i), SizesOf(t)); Valid() && Represents(l') && r == Replace(i, l'.off)
    {
      hide Represents, Valid, Recorded, Place, PlaceEach, ReplaceOp;
      r := i;
      NothingPlaced(l);
      match i
      case Mov(w, s, d) => var a, b := ReplaceTwo(s, d, l); r := X.Mov(w, a, b);
      case Movsx(s, d) => var a, b := ReplaceTwo(s, d, l); r := X.Movsx(a, b);
      case Unary(w, op, d) => OnePlaced(l, d); var a := ReplacePseudo(d, l); r := X.Unary(w, op, a);
      case Binary(w, op, s, d) => var a, b := ReplaceTwo(s, d, l); r := X.Binary(w, op, a, b);
      case Cmp(w, s, d) => var a, b := ReplaceTwo(s, d, l); r := X.Cmp(w, a, b);
      case Idiv(w, s) => OnePlaced(l, s); var a := ReplacePseudo(s, l); r := X.Idiv(w, a);
      case Setcc(c, d) => OnePlaced(l, d); var a := ReplacePseudo(d, l); r := X.Setcc(c, a);
      case Push(s) => OnePlaced(l, s); var a := ReplacePseudo(s, l); r := X.Push(a);
      case _ =>
    }

    lemma NothingPlaced(l: Layout)
      ensures PlaceEach(l, [], SizesOf(t)) == l
    {
    }

    /** The layout after the first 'k' instructions of 'code', over the slots handed out before. */
    ghost function After(prior: map<nat, int>, code: seq<X.AInstr>, k: nat): Layout
      requires k <= |code|
    {
      PlaceAll(Layout(0, prior), code[..k], SizesOf(t))
    }

    /** The first 'k' instructions of 'code' have been overwritten. */
    ghost predicate Halfway(prior: map<nat, int>, code: seq<X.AInstr>, k: nat)
      reads this`instrs, this`pseudoSize, this`pseudoOffset, this`frameSize, pseudoSize, pseudoOffset
    {
      && k <= |code| && Valid() && AllRecorded(code) && Negative(Layout(0, prior)) && Represents(After(prior, code, k))
      && instrs == ReplaceAll(code[..k], After(prior, code, k).off) + code[k..]
    }

    method ReplaceNext(ghost prior: map<nat, int>, ghost code: seq<X.AInstr>, k: nat)
      requires Halfway(prior, code, k) && k < |code|
      modifies `instrs, `frameSize, pseudoOffset
      ensures Halfway(prior, code, k + 1)
    {
      hide Negative, Represents, Replace, Placed, AllRecorded, Recorded;
      ghost var l := After(prior, code, k);
      ghost var done, rest := ReplaceAll(code[..k], l.off), code[k..];
      assert instrs[k] == rest[0] == code[k] && OperandsRecorded(code[k]) by { RecordedAt(code, k); }
      var i := ReplaceOperands(instrs[k], l);
      instrs := instrs[k := i];
      assert instrs == done + [i] + code[k + 1..];
      assert AllRecorded(code[..k]) by { RecordedTake(code, k); }
      SlotsGrow(Layout(0, prior), code[..k], code[k]);
      assert code[..k + 1] == code[..k] + [code[k]];
    }

    lemma RecordedAt(code: seq<X.AInstr>, k: nat)
      requires AllRecorded(code) && k < |code|
      ensures OperandsRecorded(code[k])
    {
    }

    lemma RecordedTake(code: seq<X.AInstr>, k: nat)
      requires AllRecorded(code) && k <= |code|
      ensures AllRecorded(code[..k])
    {
      forall j | 0 <= j < k ensures OperandsRecorded(code[..k][j]) { RecordedAt(code, j); }
    }

    /** Phase 2 for one function: its frame starts empty, the table of slots does not. */
    method AssignStackSlots(ghost prior: map<nat, int>) returns (stackSize: nat)
      requires Valid() && AllRecorded(instrs) && Holds(prior)
      modifies `instrs, `frameSize, pseudoOffset
      ensures var l := PlaceAll(Layout(0, prior), old(instrs), SizesOf(t));
              && Valid() && Represents(l) && instrs == ReplaceAll(old(instrs), l.off) && stackSize == StackSize(l)
    {
      hide Represents, Valid, Replace, AllRecorded, Negative, Holds;
      ghost var code := instrs;
      frameSize := 0;
      NoneReplaced(prior, code);
      var k := 0;
      while k < |instrs|
        invariant k <= |instrs| == |code| && Halfway(prior, code, k) && pseudoOffset == old(pseudoOffset)
      {
        ReplaceNext(prior, code, k);
        k := k + 1;
      }
      assert code[..k] == code && code[k..] == [];
      FrameIs(After(prior, code, k));
      stackSize := RoundUp(frameSize, 16);
    }

    lemma NoneReplaced(prior: map<nat, int>, code: seq<X.AInstr>)
      requires Valid() && AllRecorded(instrs) && Holds(prior) && code == instrs && frameSize == 0
      ensures Halfway(prior, code, 0)
    {
      hide Valid, AllRecorded;
      assert code[..0] == [] && code[0..] == code;
    }

    lemma FrameIs(l: Layout)
      requires Represents(l)
      ensures frameSize == l.frame && Holds(l.off)
    {
    }

    /** Operands overwritten earlier stay right as more slots are handed out. */
    lemma SlotsGrow(l: Layout, done: seq<X.AInstr>, i: X.AInstr)
      requires AllRecorded(done) && OperandsRecorded(i) && Negative(l)
      ensures var l1 := PlaceAll(l, done, SizesOf(t));
              var l2 := PlaceEach(l1, OperandsOf(i), SizesOf(t));
              && PlaceAll(l, done + [i], SizesOf(t)) == l2
              && ReplaceAll(done + [i], l2.off) == ReplaceAll(done, l1.off) + [Replace(i, l2.off)]
    {
      hide Negative, Replace, Placed, PlaceEach, OperandsOf;
      var sizes := SizesOf(t);
      var l1 := PlaceAll(l, done, sizes);
      var l2 := PlaceEach(l1, OperandsOf(i), sizes);
      PlaceAppend(l, done, [i], sizes);
      assert [i][1..] == [];
      assert PlaceAll(l1, [i], sizes) == PlaceAll(l2, [], sizes) == l2;
      forall k | 0 <= k < |done| ensures OperandsKnown(done[k], sizes) { assert OperandsRecorded(done[k]); }
      PlaceAllKeeps(l, done, sizes);
      PlaceEachKeeps(l1, OperandsOf(i), sizes);
      ReplaceAppend(done, [i], l2.off);
      assert ReplaceAll([i], l2.off) == [Replace(i, l2.off)];
      forall k | 0 <= k < |done| ensures Replace(done[k], l2.off) == Replace(done[k], l1.off) {
        ReplaceStays(done[k], l1, l2);
      }
      assert ReplaceAll(done, l2.off) == ReplaceAll(done, l1.off);
    }

    /** What phase 2 makes of the k-th function. */
    ghost function Assigned(gs: seq<Fun>, k: nat): AsmFn
      requires k < |gs|
    {
      var l := SharedLayout(gs, SizesOf(t), k);
      AsmFn(ReplaceAll(Lower.LowerFunction(gs[k].params, gs[k].code), l.off), StackSize(l))
    }

    /** Phase 2: all functions in order, with one table of slots that is never reset. */
    method AssignProgram(ghost gs: seq<Fun>)
      requires Ready() && |fns| == |gs| && forall k :: 0 <= k < |gs| ==> fns[k].instrs == Lower.LowerFunction(gs[k].params, gs[k].code)
      requires Holds(map[])
      modifies `fns, `instrs, `frameSize, pseudoOffset
      ensures |fns| == |gs| && forall k :: 0 <= k < |gs| ==> fns[k] == Assigned(gs, k)
      ensures Holds(SlotsAfter(gs, SizesOf(t), |gs|))
    {
      hide Valid, AllRecorded, Holds, Represents, Lower.LowerFunction, ReplaceAll, PlaceAll;
      TwoArrays();
      ghost var low := fns;
      for k := 0 to |fns|
        invariant |fns| == |gs| && Valid() && pseudoOffset == old(pseudoOffset) && pseudoSize == old(pseudoSize)
        invariant Holds(SlotsAfter(gs, SizesOf(t), k))
        invariant forall j :: 0 <= j < k ==> fns[j] == Assigned(gs, j)
        invariant forall j :: k <= j < |fns| ==> fns[j] == low[j]
        invariant forall j :: 0 <= j < |low| ==> AllRecorded(low[j].instrs)
      {
        instrs := fns[k].instrs;
        var stackSize := AssignStackSlots(SlotsAfter(gs, SizesOf(t), k));
        FrameIs(SharedLayout(gs, SizesOf(t), k));
        fns := fns[k := AsmFn(instrs, stackSize)];
      }
    }

    method Append(i: X.AInstr)
      modifies `instrs
      ensures instrs == old(instrs) + [i]
    {
      instrs := instrs + [i];
    }

    method FixupMov(w: Width, source: X.Operand, dst: X.Operand)
      modifies `instrs
      ensures instrs == old(instrs) + FixMov(w, source, dst)
    {
      var src := source;
      if w.W32? && src.Imm? { src := X.Imm(Wrap(src.i, W32)); }
      if (IsMemory(src) && IsMemory(dst)) || IsLargeImm(src) {
        Append(X.Mov(w, src, VIA_R10));
        Append(X.Mov(w, VIA_R10, dst));
        return;
      }
      Append(X.Mov(w, src, dst));
    }

    method FixupMovsx(source: X.Operand, dst: X.Operand)
      modifies `instrs
      ensures instrs == old(instrs) + FixMovsx(source, dst)
    {
      var src := source;
      if src.Imm? {
        Append(X.Mov(W32, src, VIA_R10));
        src := VIA_R10;
      }
      if IsMemory(dst) {
        Append(X.Movsx(src, VIA_R11));
        Append(X.Mov(W64, VIA_R11, dst));
        return;
      }
      Append(X.Movsx(src, dst));
    }

    method FixupBinary(w: Width, op: X.BinaryOp, source: X.Operand, dst: X.Operand)
      modifies `instrs
      ensures instrs == old(instrs) + FixBinary(w, op, source, dst)
    {
      var src := source;
      if IsMemory(src) && IsMemory(dst) {
        Append(X.Mov(w, src, VIA_R10));
        src := VIA_R10;
      }
      if IsLargeImm(src) {
        Append(X.Mov(w, src, VIA_R10));
        src := VIA_R10;
      }
      if op.ImulOp? && IsMemory(dst) {
        Append(X.Mov(w, dst, VIA_R11));
        Append(X.Binary(w, op, src, VIA_R11));
        Append(X.Mov(w, VIA_R11, dst));
        return;
      }
      Append(X.Binary(w, op, src, dst));
    }

    method FixupCmp(w: Width, source: X.Operand, target: X.Operand)
      modifies `instrs
      ensures instrs == old(instrs) + FixCmp(w, source, target)
    {
      var src, dst := source, target;
      if (IsMemory(src) && IsMemory(dst)) || IsLargeImm(src) {
        Append(X.Mov(w, src, VIA_R10));
        src := VIA_R10;
      }
      if dst.Imm? {
        Append(X.Mov(w, dst, VIA_R11));
        dst := VIA_R11;
      }
      Append(X.Cmp(w, src, dst));
    }

    method FixupInstr(i: X.AInstr)
      modifies `instrs
      ensures instrs == old(instrs) + Fix(i)
    {
      hide FixMov, FixMovsx, FixBinary, FixCmp;
      match i
      case Mov(w, s, d) => FixupMov(w, s, d);
      case Movsx(s, d) => FixupMovsx(s, d);
      case Binary(w, op, s, d) => FixupBinary(w, op, s, d);
      case Idiv(w, s) =>
        var divisor := s;
        if divisor.Imm? {
          Append(X.Mov(w, divisor, VIA_R10));
          divisor := VIA_R10;
        }
        Append(X.Idiv(w, divisor));
      case Cmp(w, s, d) => FixupCmp(w, s, d);
      case Push(s) =>
        var src := s;
        if IsLargeImm(src) {
          Append(X.Mov(W64, src, VIA_R10));
          src := VIA_R10;
        }
        Append(X.Push(src));
      case _ => Append(i);
    }

    /** Phase 3: the old list is set aside and rebuilt. */
    method FixupFunction()
      modifies `instrs
      ensures instrs == FixAll(old(instrs))
    {
      hide Fix;
      var was := instrs;
      instrs := [];
      var k := 0;
      while k < |was|
        invariant 0 <= k <= |was| && instrs == FixAll(was[..k])
      {
        FixupInstr(was[k]);
        assert was[..k + 1] == was[..k] + [was[k]];
        FixAllSnoc(was[..k], was[k]);
        k := k + 1;
      }
      assert was[..k] == was;
    }

    /** Phase 3: all functions in order. */
    method FixupProgram()
      modifies `fns, `instrs
      ensures |fns| == |old(fns)|
      ensures forall k :: 0 <= k < |fns| ==> fns[k] == AsmFn(FixAll(old(fns)[k].instrs), old(fns)[k].stackSize)
    {
      hide FixAll;
      for k := 0 to |fns|
        invariant |fns| == |old(fns)|
        invariant forall j :: 0 <= j < k ==> fns[j] == AsmFn(FixAll(old(fns)[j].instrs), old(fns)[j].stackSize)
        invariant forall j :: k <= j < |fns| ==> fns[j] == old(fns)[j]
      {
        instrs := fns[k].instrs;
        FixupFunction();
        fns := fns[k := AsmFn(instrs, fns[k].stackSize)];
      }
    }

    /** All three phases over the whole program: each function's machine code, after its prologue. */
    method CompileProgram(gs: seq<Fun>, ghost ts: seq<Types>)
      requires Ready() && fns == [] && Holds(map[]) && AllTyped(gs, ts) && t == Joint(ts)
      modifies `fns, `instrs, `frameSize, pseudoSize, pseudoOffset
      ensures |fns| == |gs| == |ts|
      ensures forall k :: 0 <= k < |gs| ==> fns[k].stackSize == FrameSize(ts[k], gs[k]) && Prologue(fns[k].stackSize) + fns[k].instrs == TextOf(ts[k], gs[k])
    {
      hide AllRecorded, Holds, Represents, Valid, AllTyped, Joint, Lower.LowerFunction, ReplaceAll, FixAll, PlaceAll, Prologue, SharedLayout, LaidOut, TextOf;
      TwoArrays();
      LowerProgram(gs, ts);
      AssignProgram(gs);
      FixupProgram();
      SameLength(gs, ts);
      forall k | 0 <= k < |gs|
        ensures fns[k].stackSize == FrameSize(ts[k], gs[k]) && Prologue(fns[k].stackSize) + fns[k].instrs == TextOf(ts[k], gs[k])
      {
        SharedIsOwn(gs, ts, k);
        TextParts(ts[k], gs[k]);
      }
    }
  }

  lemma TextParts(t: Types, g: Fun)
    ensures TextOf(t, g) == Prologue(FrameSize(t, g)) + Fixed(Lower.LowerFunction(g.params, g.code), LaidOut(t, g).off)
  {
    hide LowerAll, LowerParams, PlaceAll, Prologue;
    var off := LaidOut(t, g).off;
    ReplaceAppend(LowerParams(g.params, |g.params|), LowerAll(g.code), off);
    FixAppend(ReplaceAll(LowerParams(g.params, |g.params|), off), ReplaceAll(LowerAll(g.code), off));
    BlocksAre(g.code, off);
  }

  lemma ReplaceStays(i: X.AInstr, l1: Layout, l2: Layout)
    requires Placed(i, l1.off) && Extends(l1, l2)
    ensures Replace(i, l2.off) == Replace(i, l1.off)
  {
    var os := OperandsOf(i);
    forall o | o in os ensures ReplaceOp(o, l2.off) == ReplaceOp(o, l1.off) {
    }
    if |os| > 0 { assert os[0] in os; }
    if |os| > 1 { assert os[1] in os; }
  }
}
