/** One table of slots for the whole program: it is never reset, and still every function gets the frame that
    it would get alone, because no pseudo is used by two functions. */
module SharedSlots {
  import opened Arith
  import opened Ast
  import opened Ir
  import X = X86
  import opened Lower
  import opened Frames
  import opened Slots
  import opened Execution
  import opened Placement
  import opened Callee
  import opened Typing

  /** The slots handed out to the first 'k' functions. */
  function SlotsAfter(gs: seq<Fun>, sizes: map<nat, nat>, k: nat): map<nat, int>
    requires GoodSizes(sizes) && k <= |gs|
    decreases k, 0
  {
    if k == 0 then map[] else SharedLayout(gs, sizes, k - 1).off
  }

  /** The frame of the k-th function, over the slots of the functions before it. */
  function SharedLayout(gs: seq<Fun>, sizes: map<nat, nat>, k: nat): Layout
    requires GoodSizes(sizes) && k < |gs|
    decreases k, 1
  {
    PlaceAll(Layout(0, SlotsAfter(gs, sizes, k)), LowerFunction(gs[k].params, gs[k].code), sizes)
  }

  /** The types of all pseudos of the program. */
  function Joint(ts: seq<Types>): Types {
    if ts == [] then Types(map[], map[], map[], map[])
    else
      var n := |ts| - 1;
      Types(Joint(ts[..n]).pseudo + ts[n].pseudo, ts[n].statics, ts[n].params, ts[n].ret)
  }

  ghost predicate TablesApart(ts: seq<Types>) {
    && (forall i, j, id: nat :: 0 <= i < j < |ts| && id in ts[i].pseudo ==> id !in ts[j].pseudo)
    && forall i, j :: 0 <= i < j < |ts| ==> ts[i].statics == ts[j].statics && ts[i].params == ts[j].params && ts[i].ret == ts[j].ret
  }

  lemma {:induction false} JointGrows(ts: seq<Types>, k: nat)
    requires TablesApart(ts) && k < |ts|
    ensures Grow(ts[k], Joint(ts))
  {
    var n := |ts| - 1;
    if k < n {
      assert ts[..n][k] == ts[k];
      JointGrows(ts[..n], k);
    }
  }

  lemma {:induction false} JointBounded(ts: seq<Types>, count: nat)
    requires forall k :: 0 <= k < |ts| ==> Bounded(ts[k], count)
    ensures Bounded(Joint(ts), count)
  {
    if ts != [] { JointBounded(ts[..|ts| - 1], count); }
  }

  /** Functions typed by tables of their own. */
  ghost predicate AllTyped(gs: seq<Fun>, ts: seq<Types>) {
    |gs| == |ts| && TablesApart(ts) && forall k :: 0 <= k < |gs| ==> ParamsOk(ts[k], gs[k].params) && AllInstrsOk(ts[k], gs[k].code)
  }

  /** The joint table types every function. */
  lemma JointTyped(gs: seq<Fun>, ts: seq<Types>, k: nat)
    requires AllTyped(gs, ts) && k < |gs|
    ensures ParamsOk(Joint(ts), gs[k].params) && AllInstrsOk(Joint(ts), gs[k].code)
  {
    hide InstrOk, ValOk, Joint, Grow;
    JointGrows(ts, k);
    forall j | 0 <= j < |gs[k].params| ensures DstOk(Joint(ts), gs[k].params[j]) { ExtVal(ts[k], Joint(ts), gs[k].params[j]); }
    forall j | 0 <= j < |gs[k].code| ensures InstrOk(Joint(ts), gs[k].code[j]) { ExtInstr(ts[k], Joint(ts), gs[k].code[j]); }
  }

  /** Lowered code mentions pseudos of the function's own table only. */
  lemma FunMembers(t: Types, g: Fun)
    requires ParamsOk(t, g.params) && AllInstrsOk(t, g.code)
    ensures AllPlaced(LowerFunction(g.params, g.code), Members(t))
  {
    hide Placed, InstrOk;
    ParamsLowered(t, g.params, |g.params|, Members(t));
    LoweredAllPlaced(LowerParams(g.params, |g.params|), Members(t));
    CodeMembers(t, g.code);
    PlacedJoin(LowerParams(g.params, |g.params|), LowerAll(g.code), Members(t));
  }

  lemma {:induction false} SlotsOf(gs: seq<Fun>, ts: seq<Types>, k: nat, id: nat)
    requires AllTyped(gs, ts) && k <= |gs| && id in SlotsAfter(gs, SizesOf(Joint(ts)), k)
    ensures exists i :: 0 <= i < k && id in ts[i].pseudo
    decreases k
  {
    hide ParamsOk, AllInstrsOk, TablesApart, Joint, Placed, PlaceAll, LowerFunction;
    var sizes := SizesOf(Joint(ts));
    if k > 0 {
      FunMembers(ts[k - 1], gs[k - 1]);
      PlacedFrom(Layout(0, SlotsAfter(gs, sizes, k - 1)), LowerFunction(gs[k - 1].params, gs[k - 1].code), sizes, Members(ts[k - 1]));
      if id !in ts[k - 1].pseudo { SlotsOf(gs, ts, k - 1, id); }
    }
  }

  /** The function's pseudos have no slot yet, and the size that its own table gives. */
  lemma OwnClear(gs: seq<Fun>, ts: seq<Types>, k: nat, j: nat)
    requires AllTyped(gs, ts) && k < |gs| && j < |LowerFunction(gs[k].params, gs[k].code)|
    ensures var sizes := SizesOf(Joint(ts));
            AllClear(LowerFunction(gs[k].params, gs[k].code)[j], SlotsAfter(gs, sizes, k), sizes, SizesOf(ts[k]))
  {
    hide ParamsOk, AllInstrsOk, Joint, OperandsOf, PlaceAll, LowerFunction, SlotsAfter, SharedLayout;
    var sizes, i := SizesOf(Joint(ts)), LowerFunction(gs[k].params, gs[k].code)[j];
    FunMembers(ts[k], gs[k]);
    assert Placed(i, Members(ts[k]));
    JointGrows(ts, k);
    forall o | o in OperandsOf(i) ensures Clear(o, SlotsAfter(gs, sizes, k), sizes, SizesOf(ts[k])) {
      if o.PseudoOp? && o.id in SlotsAfter(gs, sizes, k) { SlotsOf(gs, ts, k, o.id); }
    }
  }

  /** The frame a function gets from the shared table is the one it gets alone. */
  lemma SharedIsOwn(gs: seq<Fun>, ts: seq<Types>, k: nat)
    requires AllTyped(gs, ts) && k < |gs|
    ensures var sizes, low := SizesOf(Joint(ts)), LowerFunction(gs[k].params, gs[k].code);
            var shared, own := SharedLayout(gs, sizes, k), LaidOut(ts[k], gs[k]);
            shared == Over(SlotsAfter(gs, sizes, k), own) && ReplaceAll(low, shared.off) == ReplaceAll(low, own.off)
  {
    hide AllTyped, Joint, OperandsOf, PlaceAll, LowerFunction, Clear, Replace;
    var sizes, low := SizesOf(Joint(ts)), LowerFunction(gs[k].params, gs[k].code);
    SameLength(gs, ts);
    var prior, own := SlotsAfter(gs, sizes, k), LaidOut(ts[k], gs[k]);
    forall j | 0 <= j < |low| ensures AllClear(low[j], prior, sizes, SizesOf(ts[k])) && Replace(low[j], prior + own.off) == Replace(low[j], own.off) {
      OwnClear(gs, ts, k, j);
      ClearReplaced(prior, low[j], own.off, sizes, SizesOf(ts[k]));
    }
    AllOver(prior, Layout(0, map[]), low, sizes, SizesOf(ts[k]));
    assert prior + map[] == prior;
  }

  lemma SameLength(gs: seq<Fun>, ts: seq<Types>)
    requires AllTyped(gs, ts)
    ensures |gs| == |ts|
  {
  }

  lemma ClearReplaced(prior: map<nat, int>, i: X.AInstr, off: map<nat, int>, sizes: map<nat, nat>, own: map<nat, nat>)
    requires AllClear(i, prior, sizes, own)
    ensures Replace(i, prior + off) == Replace(i, off)
  {
    hide Replace, OperandsOf;
    forall o | o in OperandsOf(i) && o.PseudoOp? ensures o.id !in prior { assert Clear(o, prior, sizes, own); }
    ReplaceOver(prior, i, off);
  }

  /** Why the numbering matters: if two functions shared pseudo 0, the second one would find its slot taken, and
      its frame would have no room for it. */
  lemma SharedPseudo(g: Fun)
    requires g == Fun(Int, [Pseudo(Int, 0)], [])
    ensures var sizes: map<nat, nat> := map[0 := 4];
            var l := SharedLayout([g, g], sizes, 1);
            GoodSizes(sizes) && l.frame == 0 && 0 in l.off && l.off[0] == -4 && !LayoutOk(l, sizes)
  {
    var sizes: map<nat, nat> := map[0 := 4];
    var gs := [g, g];
    var low := LowerFunction(g.params, g.code);
    assert LowerParams(g.params, 0) == [] && LowerAll(g.code) == [];
    assert low == [X.Mov(W32, X.RegOp(X.DI), X.PseudoOp(0))];
    var slots: map<nat, int> := map[0 := -4];
    MoveAlone(Layout(0, map[]), sizes);
    MoveAlone(Layout(0, slots), sizes);
    assert SharedLayout(gs, sizes, 0) == Layout(4, slots);
    assert SharedLayout(gs, sizes, 1) == Layout(0, slots);
    assert !SlotOk(Layout(0, slots), sizes, 0);
  }

  lemma MoveAlone(l: Layout, sizes: map<nat, nat>)
    requires GoodSizes(sizes)
    ensures PlaceAll(l, [X.Mov(W32, X.RegOp(X.DI), X.PseudoOp(0))], sizes) == Place(l, X.PseudoOp(0), sizes)
  {
    var i := X.Mov(W32, X.RegOp(X.DI), X.PseudoOp(0));
    var os := OperandsOf(i);
    assert os[1..] == [X.PseudoOp(0)] && os[1..][1..] == [] && [i][1..] == [];
    assert Place(l, os[0], sizes) == l;
    assert PlaceEach(l, os, sizes) == PlaceEach(l, os[1..], sizes) == PlaceEach(Place(l, X.PseudoOp(0), sizes), [], sizes);
    assert PlaceAll(l, [i], sizes) == PlaceAll(PlaceEach(l, os, sizes), [], sizes);
  }
}
