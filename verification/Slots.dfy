/** Phase 2 of the back end: every pseudo gets one aligned stack slot, in order of first use. */
module Slots {
  import opened Arith
  import opened Memory
  import opened X86

  /** Bytes handed out so far, and the offset of each pseudo placed so far. */
  datatype Layout = Layout(frame: nat, off: map<nat, int>)

  function RoundUp(x: nat, s: nat): (r: nat)
    requires s == 4 || s == 8 || s == 16
    ensures x <= r < x + s && r % s == 0
  {
    (x + s - 1) / s * s
  }

  predicate GoodSizes(sizes: map<nat, nat>) {
    forall id :: id in sizes ==> sizes[id] == 4 || sizes[id] == 8
  }

  /** The next slot, aligned to the pseudo's own size, unless it has one already. */
  function Place(l: Layout, o: Operand, sizes: map<nat, nat>): Layout
    requires GoodSizes(sizes)
  {
    if !o.PseudoOp? || o.id !in sizes || o.id in l.off then l
    else
      var frame := RoundUp(l.frame + sizes[o.id], sizes[o.id]);
      Layout(frame, l.off[o.id := 0 - frame])
  }

  /** Operands of an instruction in the order in which slots are given to them. */
  function OperandsOf(i: AInstr): seq<Operand> {
    match i
    case Mov(_, s, d) => [s, d]
    case Movsx(s, d) => [s, d]
    case Unary(_, _, d) => [d]
    case Binary(_, _, s, d) => [s, d]
    case Cmp(_, s, d) => [s, d]
    case Idiv(_, s) => [s]
    case Setcc(_, d) => [d]
    case Push(s) => [s]
    case _ => []
  }

  function PlaceEach(l: Layout, os: seq<Operand>, sizes: map<nat, nat>): Layout
    requires GoodSizes(sizes)
    decreases |os|
  {
    if os == [] then l else PlaceEach(Place(l, os[0], sizes), os[1..], sizes)
  }

  function PlaceAll(l: Layout, code: seq<AInstr>, sizes: map<nat, nat>): Layout
    requires GoodSizes(sizes)
    decreases |code|
  {
    if code == [] then l else PlaceAll(PlaceEach(l, OperandsOf(code[0]), sizes), code[1..], sizes)
  }

  function ReplaceOp(o: Operand, off: map<nat, int>): Operand {
    if o.PseudoOp? && o.id in off then Stack(off[o.id]) else o
  }

  function Replace(i: AInstr, off: map<nat, int>): AInstr {
    match i
    case Mov(w, s, d) => Mov(w, ReplaceOp(s, off), ReplaceOp(d, off))
    case Movsx(s, d) => Movsx(ReplaceOp(s, off), ReplaceOp(d, off))
    case Unary(w, op, d) => Unary(w, op, ReplaceOp(d, off))
    case Binary(w, op, s, d) => Binary(w, op, ReplaceOp(s, off), ReplaceOp(d, off))
    case Cmp(w, s, d) => Cmp(w, ReplaceOp(s, off), ReplaceOp(d, off))
    case Idiv(w, s) => Idiv(w, ReplaceOp(s, off))
    case Setcc(c, d) => Setcc(c, ReplaceOp(d, off))
    case Push(s) => Push(ReplaceOp(s, off))
    case _ => i
  }

  function ReplaceAll(code: seq<AInstr>, off: map<nat, int>): (r: seq<AInstr>)
    ensures |r| == |code| && forall k :: 0 <= k < |code| ==> r[k] == Replace(code[k], off)
  {
    if code == [] then [] else [Replace(code[0], off)] + ReplaceAll(code[1..], off)
  }

  /** %rsp must stay aligned to 16 bytes. */
  function StackSize(l: Layout): nat {
    RoundUp(l.frame, 16)
  }

  /** Slots are aligned, lie in the bytes handed out, and share none of them. */
  ghost predicate LayoutOk(l: Layout, sizes: map<nat, nat>) {
    && (forall id :: id in l.off ==> SlotOk(l, sizes, id))
    && (forall id, id2 {:trigger SlotOk(l, sizes, id), SlotOk(l, sizes, id2)} ::
          id in l.off && id2 in l.off && id != id2 && SlotOk(l, sizes, id) && SlotOk(l, sizes, id2) ==>
          Apart(l.off[id], sizes[id], l.off[id2], sizes[id2]))
  }

  ghost predicate SlotOk(l: Layout, sizes: map<nat, nat>, id: nat)
    requires id in l.off
  {
    && id in sizes
    && 0 <= l.frame + l.off[id] && l.off[id] + sizes[id] <= 0
    && (sizes[id] == 4 || sizes[id] == 8) && l.off[id] % sizes[id] == 0
  }

  /** Placed pseudos keep their slots. */
  predicate Extends(l: Layout, l': Layout) {
    l.frame <= l'.frame && forall id :: id in l.off ==> id in l'.off && l'.off[id] == l.off[id]
  }

  lemma PlaceOk(l: Layout, o: Operand, sizes: map<nat, nat>)
    requires GoodSizes(sizes) && LayoutOk(l, sizes)
    ensures LayoutOk(Place(l, o, sizes), sizes) && Extends(l, Place(l, o, sizes))
    ensures o.PseudoOp? && o.id in sizes ==> o.id in Place(l, o, sizes).off
  {
    var l' := Place(l, o, sizes);
    if l' != l {
      forall id | id in l'.off ensures SlotOk(l', sizes, id) {
        if id == o.id { NewSlotAligned(l'.frame, sizes[id]); } else { assert SlotOk(l, sizes, id); }
      }
      forall id, id2 | id in l'.off && id2 in l'.off && id != id2
        ensures Apart(l'.off[id], sizes[id], l'.off[id2], sizes[id2])
      {
        if id != o.id { assert SlotOk(l, sizes, id); }
        if id2 != o.id { assert SlotOk(l, sizes, id2); }
      }
    }
  }

  lemma NewSlotAligned(frame: int, s: int)
    requires (s == 4 || s == 8) && frame % s == 0
    ensures (-frame) % s == 0
  {
    if s == 4 { assert (-frame) % 4 == 0; } else { assert (-frame) % 8 == 0; }
  }

  lemma {:induction false} PlaceEachOk(l: Layout, os: seq<Operand>, sizes: map<nat, nat>)
    requires GoodSizes(sizes) && LayoutOk(l, sizes)
    ensures var l' := PlaceEach(l, os, sizes);
            LayoutOk(l', sizes) && Extends(l, l')
            && forall o :: o in os && o.PseudoOp? && o.id in sizes ==> o.id in l'.off
    decreases |os|
  {
    hide LayoutOk;
    if os != [] {
      PlaceOk(l, os[0], sizes);
      PlaceEachOk(Place(l, os[0], sizes), os[1..], sizes);
    }
  }

  /** All pseudos of the code have a known size. */
  predicate SizesKnown(code: seq<AInstr>, sizes: map<nat, nat>) {
    forall k :: 0 <= k < |code| ==> OperandsKnown(code[k], sizes)
  }

  predicate OperandsKnown(i: AInstr, sizes: map<nat, nat>) {
    forall o :: o in OperandsOf(i) && o.PseudoOp? ==> o.id in sizes
  }

  predicate Placed(i: AInstr, off: map<nat, int>) {
    forall o :: o in OperandsOf(i) && o.PseudoOp? ==> o.id in off
  }

  /** Frame layout: after the walk over the code every pseudo in it has exactly one slot, aligned to
      its size and byte-disjoint from every other slot. */
  lemma {:induction false} PlaceAllOk(l: Layout, code: seq<AInstr>, sizes: map<nat, nat>)
    requires GoodSizes(sizes) && LayoutOk(l, sizes) && SizesKnown(code, sizes)
    ensures var l' := PlaceAll(l, code, sizes);
            LayoutOk(l', sizes) && Extends(l, l') && forall k :: 0 <= k < |code| ==> Placed(code[k], l'.off)
    decreases |code|
  {
    hide LayoutOk, OperandsOf;
    if code != [] {
      var l1 := PlaceEach(l, OperandsOf(code[0]), sizes);
      PlaceEachOk(l, OperandsOf(code[0]), sizes);
      PlaceAllOk(l1, code[1..], sizes);
      assert OperandsKnown(code[0], sizes);
      assert forall k :: 0 <= k < |code| - 1 ==> code[1..][k] == code[k + 1];
    }
  }

  lemma {:induction false} PlaceAppend(l: Layout, a: seq<AInstr>, b: seq<AInstr>, sizes: map<nat, nat>)
    requires GoodSizes(sizes)
    ensures PlaceAll(l, a + b, sizes) == PlaceAll(PlaceAll(l, a, sizes), b, sizes)
    decreases |a|
  {
    hide PlaceEach;
    if a == [] {
      assert a + b == b;
    } else {
      assert (a + b)[1..] == a[1..] + b;
      PlaceAppend(PlaceEach(l, OperandsOf(a[0]), sizes), a[1..], b, sizes);
    }
  }

  /** No slot at offset 0, which marks a pseudo without one. */
  predicate Negative(l: Layout) {
    forall id :: id in l.off ==> l.off[id] < 0
  }

  lemma PlaceKeeps(l: Layout, o: Operand, sizes: map<nat, nat>)
    requires GoodSizes(sizes) && Negative(l)
    ensures Negative(Place(l, o, sizes)) && Extends(l, Place(l, o, sizes))
    ensures o.PseudoOp? && o.id in sizes ==> o.id in Place(l, o, sizes).off
  {
  }

  lemma {:induction false} PlaceEachKeeps(l: Layout, os: seq<Operand>, sizes: map<nat, nat>)
    requires GoodSizes(sizes) && Negative(l)
    ensures var l' := PlaceEach(l, os, sizes);
            Negative(l') && Extends(l, l') && forall o :: o in os && o.PseudoOp? && o.id in sizes ==> o.id in l'.off
    decreases |os|
  {
    hide Place;
    if os != [] {
      PlaceKeeps(l, os[0], sizes);
      PlaceEachKeeps(Place(l, os[0], sizes), os[1..], sizes);
    }
  }

  /** Whatever table the walk starts with, pseudos keep their slots and all those of the code end up with one. */
  lemma {:induction false} PlaceAllKeeps(l: Layout, code: seq<AInstr>, sizes: map<nat, nat>)
    requires GoodSizes(sizes) && Negative(l) && SizesKnown(code, sizes)
    ensures var l' := PlaceAll(l, code, sizes);
            Negative(l') && Extends(l, l') && forall k :: 0 <= k < |code| ==> Placed(code[k], l'.off)
    decreases |code|
  {
    hide OperandsOf, PlaceEach, Negative;
    if code != [] {
      var l1 := PlaceEach(l, OperandsOf(code[0]), sizes);
      PlaceEachKeeps(l, OperandsOf(code[0]), sizes);
      PlaceAllKeeps(l1, code[1..], sizes);
      assert OperandsKnown(code[0], sizes);
      assert forall k :: 0 <= k < |code| - 1 ==> code[1..][k] == code[k + 1];
    }
  }

  /** Only pseudos of the code get slots. */
  lemma {:induction false} PlacedFrom(l: Layout, code: seq<AInstr>, sizes: map<nat, nat>, members: map<nat, int>)
    requires GoodSizes(sizes) && forall k :: 0 <= k < |code| ==> Placed(code[k], members)
    ensures forall id :: id in PlaceAll(l, code, sizes).off ==> id in l.off || id in members
    decreases |code|
  {
    hide OperandsOf, PlaceEach;
    if code != [] {
      assert Placed(code[0], members);
      EachFrom(l, OperandsOf(code[0]), sizes, members);
      assert forall k :: 0 <= k < |code| - 1 ==> code[1..][k] == code[k + 1];
      PlacedFrom(PlaceEach(l, OperandsOf(code[0]), sizes), code[1..], sizes, members);
    }
  }

  lemma {:induction false} EachFrom(l: Layout, os: seq<Operand>, sizes: map<nat, nat>, members: map<nat, int>)
    requires GoodSizes(sizes) && forall o :: o in os && o.PseudoOp? ==> o.id in members
    ensures forall id :: id in PlaceEach(l, os, sizes).off ==> id in l.off || id in members
    decreases |os|
  {
    if os != [] { EachFrom(Place(l, os[0], sizes), os[1..], sizes, members); }
  }

  /** The layout with slots handed out before it. */
  function Over(prior: map<nat, int>, l: Layout): Layout {
    Layout(l.frame, prior + l.off)
  }

  /** The operand has no slot yet, and one size. */
  predicate Clear(o: Operand, prior: map<nat, int>, sizes: map<nat, nat>, own: map<nat, nat>) {
    o.PseudoOp? ==> o.id !in prior && o.id in sizes && o.id in own && sizes[o.id] == own[o.id]
  }

  predicate AllClear(i: AInstr, prior: map<nat, int>, sizes: map<nat, nat>, own: map<nat, nat>) {
    forall o :: o in OperandsOf(i) ==> Clear(o, prior, sizes, own)
  }

  lemma PlaceOver(prior: map<nat, int>, l: Layout, o: Operand, sizes: map<nat, nat>, own: map<nat, nat>)
    requires GoodSizes(sizes) && GoodSizes(own) && Clear(o, prior, sizes, own)
    ensures Place(Over(prior, l), o, sizes) == Over(prior, Place(l, o, own))
  {
    if o.PseudoOp? && o.id !in l.off {
      var frame: int := RoundUp(l.frame + own[o.id], own[o.id]);
      assert Over(prior, l).off[o.id := 0 - frame] == prior + Place(l, o, own).off;
    }
  }

  lemma {:induction false} EachOver(prior: map<nat, int>, l: Layout, os: seq<Operand>, sizes: map<nat, nat>, own: map<nat, nat>)
    requires GoodSizes(sizes) && GoodSizes(own) && forall o :: o in os ==> Clear(o, prior, sizes, own)
    ensures PlaceEach(Over(prior, l), os, sizes) == Over(prior, PlaceEach(l, os, own))
    decreases |os|
  {
    hide Place, Over, Clear;
    if os != [] {
      PlaceOver(prior, l, os[0], sizes, own);
      EachOver(prior, Place(l, os[0], own), os[1..], sizes, own);
    }
  }

  /** Slots handed out before to other pseudos do not matter. */
  lemma {:induction false} AllOver(prior: map<nat, int>, l: Layout, code: seq<AInstr>, sizes: map<nat, nat>, own: map<nat, nat>)
    requires GoodSizes(sizes) && GoodSizes(own) && forall k :: 0 <= k < |code| ==> AllClear(code[k], prior, sizes, own)
    ensures PlaceAll(Over(prior, l), code, sizes) == Over(prior, PlaceAll(l, code, own))
    decreases |code|
  {
    hide PlaceEach, Over, Clear, OperandsOf;
    if code != [] {
      assert AllClear(code[0], prior, sizes, own);
      EachOver(prior, l, OperandsOf(code[0]), sizes, own);
      assert forall k :: 0 <= k < |code| - 1 ==> code[1..][k] == code[k + 1];
      AllOver(prior, PlaceEach(l, OperandsOf(code[0]), own), code[1..], sizes, own);
    }
  }

  lemma ReplaceOver(prior: map<nat, int>, i: AInstr, off: map<nat, int>)
    requires forall o :: o in OperandsOf(i) && o.PseudoOp? ==> o.id !in prior
    ensures Replace(i, prior + off) == Replace(i, off)
  {
    var os := OperandsOf(i);
    forall o | o in os ensures ReplaceOp(o, prior + off) == ReplaceOp(o, off) {
    }
    if |os| > 0 { assert os[0] in os; }
    if |os| > 1 { assert os[1] in os; }
  }

  /** Replacing pseudos by their slots changes nothing about what an instruction does. */
  lemma ReplaceExec(i: AInstr, m: Mach, p: Places, calls: Calls)
    requires Placed(i, p.slot)
    ensures Exec(Replace(i, p.slot), m, p, calls) == Exec(i, m, p, calls)
  {
    hide Load, Put, BinaryResult, Divide, CmpFlags, Holds, Wrap, Leave;
    forall o | o in OperandsOf(i) ensures SameOperand(o, ReplaceOp(o, p.slot), m, p) {
    }
    if |OperandsOf(i)| > 0 { assert SameOperand(OperandsOf(i)[0], ReplaceOp(OperandsOf(i)[0], p.slot), m, p); }
    if |OperandsOf(i)| > 1 { assert SameOperand(OperandsOf(i)[1], ReplaceOp(OperandsOf(i)[1], p.slot), m, p); }
  }

  predicate SameOperand(o: Operand, o': Operand, m: Mach, p: Places) {
    InMemory(o) == InMemory(o') && (InMemory(o) ==> Address(m, o, p) == Address(m, o', p)) && (!InMemory(o) ==> o' == o)
  }

  lemma {:induction false} ReplaceExecAll(code: seq<AInstr>, m: Mach, p: Places, calls: Calls)
    requires forall k :: 0 <= k < |code| ==> Placed(code[k], p.slot)
    ensures ExecAll(ReplaceAll(code, p.slot), m, p, calls) == ExecAll(code, m, p, calls)
    decreases |code|
  {
    hide Exec, Replace, Placed;
    if code != [] {
      ReplaceExec(code[0], m, p, calls);
      var r := Exec(code[0], m, p, calls);
      assert forall k :: 0 <= k < |code| - 1 ==> code[1..][k] == code[k + 1];
      if r.Next? { ReplaceExecAll(code[1..], r.m, p, calls); }
    }
  }
}
