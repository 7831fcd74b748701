/** The compiler from end to end: text to tokens, trees, analysed program, three-address code and machine
    code, and that what it accepts it compiles correctly. */
module Pipeline {
  import opened Arith
  import opened Syntax
  import opened Grammar
  import opened Lexing
  import opened Spelling
  import opened Ir
  import opened Typing
  import opened Execution
  import opened Placement
  import opened Program
  import opened Compiler
  import opened Callee
  import opened SharedSlots
  import opened Units
  import opened UnitTrees
  import opened Elaboration
  import opened UnitGrammar
  import E = ElaborationProof
  import Q = Acceptance
  import V = UnitDerivation
  import O = Ownership
  import N = Naming
  import L = Lexer
  import P = Parser
  import T = ParseTrees
  import D = Declarations
  import A = StmtAnalysis
  import B = X86Builder
  import I = IrBuilder
  import X = X86

  /** Every token the lexer makes is one that the parser can be given. */
  lemma MeaningReal(text: string, i: nat, l: Lexeme)
    requires NextIs(text, i, l)
    ensures T.Real(Meaning(text, l))
  {
    hide Newlines, LineStart, Gap, Stops, Punctuator, Matches, Spelling.Value;
  }

  lemma MeaningsReal(text: string, ls: seq<Lexeme>)
    requires Tiles(text, ls)
    ensures T.AllReal(Meanings(text, ls))
  {
    hide NextIs, Meaning, T.Real;
    forall k | 0 <= k < |ls| - 1 ensures T.Real(Meanings(text, ls)[k]) { MeaningReal(text, From(ls, k), ls[k]); }
  }

  lemma {:induction false} BodyIdsSnoc(items: seq<Item>, id: nat)
    requires items != []
    ensures BodyIds(items, id) == BodyIds(items[..|items| - 1], id) + BodyIds([items[|items| - 1]], id)
  {
    var n := |items| - 1;
    if n == 0 {
      assert items == [items[0]] && items[..0] == [];
    } else {
      BodyIdsSnoc(items[1..], id);
      assert items[1..][..n - 1] == items[..n][1..];
    }
  }

  lemma {:induction false} TotalIs(items: seq<Item>, id: nat)
    ensures RawTotal(Bodies(items), |Bodies(items)|, id) == BodyIds(items, id)
  {
    hide A.RawItemIds;
    if items != [] {
      var n := |items| - 1;
      var first, last := items[..n], items[n];
      TotalIs(first, id);
      BodyIdsSnoc(items, id);
      assert [last][1..] == [];
      if last.decl.isFunction && last.decl.hasBody {
        var bs := Bodies(first);
        TotalPrefix(bs, last.body, |bs|, id);
        assert Bodies(items) == bs + [last.body] && (bs + [last.body])[|bs|] == last.body;
        assert RawTotal(Bodies(items), |bs| + 1, id) == RawTotal(Bodies(items), |bs|, id) + A.RawItemIds(last.body, id);
        assert BodyIds([last], id) == A.RawItemIds(last.body, id) + BodyIds([last][1..], id);
      } else {
        assert Bodies(items) == Bodies(first) + [] == Bodies(first);
        assert BodyIds([last], id) == BodyIds([last][1..], id);
      }
    }
  }

  lemma {:induction false} TotalPrefix(raws: seq<seq<RStmt>>, raw: seq<RStmt>, n: nat, id: nat)
    requires n <= |raws|
    ensures RawTotal(raws + [raw], n, id) == RawTotal(raws, n, id)
  {
    hide A.RawItemIds;
    if n > 0 { TotalPrefix(raws, raw, n - 1, id); }
  }

  /** A program that the front end made of 'text'. */
  ghost predicate Accepts(text: string, prog: seq<Fn>, syms: seq<D.Sym>, items: seq<Item>) {
    && (exists ls :: ReadsAs(text, ls, items))
    && UnitFine(prog, Bodies(items), syms) && ObjectsApart(prog, |syms|) && Elaborates(items, prog, syms)
  }

  /** The text is tokens that are a translation unit of the grammar, and parse as it. */
  ghost predicate ReadsAs(text: string, ls: seq<Lexeme>, items: seq<Item>) {
    Tiles(text, ls) && ParseUnit(Meanings(text, ls), 0) == Some(items) && UnitSpan(Meanings(text, ls), items)
  }

  /** Every token could be read. */
  predicate Readable(text: string, ls: seq<Lexeme>) {
    ls != [] && P.Clean(Meanings(text, ls))
  }

  /** What analysis makes of the tokens; None if they do not parse or analysis finds an error. */
  function Unit(text: string, ls: seq<Lexeme>): Option<(D.State, seq<Fn>)>
    requires ls != []
  {
    var items := ParseUnit(Meanings(text, ls), 0);
    if items.None? then None else UnitIn(items.value, |items.value|)
  }

  /** The text is a translation unit of the grammar that has an elaboration. */
  ghost predicate HasProgram(text: string, ls: seq<Lexeme>) {
    exists items, prog :: ReadsAs(text, ls, items) && Q.HasElaboration(items, prog)
  }

  /** Parsing and analysis accept a text if and only if grammar, scope and constraints allow it. */
  lemma AcceptedIff(text: string, ls: seq<Lexeme>)
    requires Tiles(text, ls)
    ensures ls != [] && (Unit(text, ls).Some? <==> HasProgram(text, ls))
  {
    hide Tiles, UnitIn, ParseUnit, UnitSpan, Meanings, Q.HasElaboration, ItemParsed, T.AllReal;
    assert ls != [] by { TilesSome(text, ls); }
    MeaningsReal(text, ls);
    var items := ParseUnit(Meanings(text, ls), 0);
    if items.Some? {
      UnitBuilds(Meanings(text, ls), 0, 0);
      V.UnitSound(Meanings(text, ls), 0);
      assert ReadsAs(text, ls, items.value);
      forall prog ensures Q.HasElaboration(items.value, prog) <==> Unit(text, ls).Some? && Unit(text, ls).value.1 == prog {
        Q.AcceptedExactly(items.value, prog);
      }
      if Unit(text, ls).Some? {
        assert ReadsAs(text, ls, items.value) && Q.HasElaboration(items.value, Unit(text, ls).value.1);
      }
    }
  }

  lemma TilesSome(text: string, ls: seq<Lexeme>)
    requires Tiles(text, ls)
    ensures ls != []
  {
  }

  /** Lexing, parsing and analysis: a program exactly when the text has one. */
  method FrontEnd(text: string) returns (prog: Option<seq<Fn>>, symbolCount: nat, ghost ls: seq<Lexeme>, ghost syms: seq<D.Sym>)
    requires '\0' !in text
    ensures Tiles(text, ls) && (prog.Some? <==> Readable(text, ls) && Unit(text, ls).Some?)
    ensures prog.Some? <==> Readable(text, ls) && HasProgram(text, ls)
    ensures prog.Some? ==>
              && prog.value == Unit(text, ls).value.1 && symbolCount == |syms|
              && Accepts(text, prog.value, syms, ParseUnit(Meanings(text, ls), 0).value) && N.NamesApart(syms)
  {
    hide UnitFine, ItemParsed, D.TableOk, D.Evolves, ElaboratedBy, N.NamesApart, NextIs, P.Clean, T.AllReal, UnitIn, ParseUnit, UnitSpan, Meanings, Bodies, HasProgram;
    syms, symbolCount := [], 0;
    var lexemes := L.LexAll(text);
    ls := lexemes;
    AcceptedIff(text, ls);
    var ts := Meanings(text, lexemes);
    var parser := new P.Parser(ts);
    var unit := parser.ParseTranslationUnit();
    P.NoBads(ts);
    if unit.None? { return None, 0, ls, []; }
    MeaningsReal(text, ls);
    UnitBuilds(ts, 0, 0);
    V.UnitSound(ts, 0);
    var table, fns := AnalyzeUnit(unit.value);
    if table.errors > 0 { return None, 0, ls, []; }
    O.UnitApart(unit.value, |unit.value|);
    Q.FinishedEvolves(UnitIn(unit.value, |unit.value|).value.0.symbols, table.symbols);
    E.UnitSound(unit.value, table.symbols);
    assert ReadsAs(text, ls, unit.value) && Elaborates(unit.value, fns, table.symbols);
    N.AllNames(table.scopes, table.linked, table.symbols);
    syms, symbolCount := table.symbols, |table.symbols|;
    prog := Some(fns);
  }

  /** What is left to the programmer: conditions and cast operands are arithmetic. */
  ghost predicate Disciplined(prog: seq<Fn>) {
    forall k :: 0 <= k < |prog| ==> A.StmtUses(prog[k].body)
  }

  /** Of an accepted program nothing else is asked. */
  lemma AcceptedOk(text: string, prog: seq<Fn>, syms: seq<D.Sym>, items: seq<Item>)
    requires Accepts(text, prog, syms, items)
    ensures Restricted(prog, Bodies(items)) <==> Disciplined(prog)
  {
    hide UnitFine, Bodies, RawTotal, A.StmtUses, NextIs, T.AllReal;
    var ls :| ReadsAs(text, ls, items);
    MeaningsReal(text, ls);
    forall id ensures RawTotal(Bodies(items), |Bodies(items)|, id) <= 1 {
      UnitBuilds(Meanings(text, ls), 0, id);
      TotalIs(items, id);
    }
  }

  /** Every accepted and disciplined program has an image, for which the compiler is correct. */
  lemma AcceptedCompiles(text: string, prog: seq<Fn>, syms: seq<D.Sym>, items: seq<Item>, data: map<nat, int>) returns (im: Image)
    requires Accepts(text, prog, syms, items) && Disciplined(prog)
    ensures ImageOk(im) && im.prog == prog && im.np == |syms| && im.nl == 0 && im.g == D.TypesOf(syms) && im.data == data
  {
    hide UnitFine, Bodies, ImageOk, Restricted, Disciplined;
    AcceptedOk(text, prog, syms, items);
    im := UnitCompiles(prog, Bodies(items), syms, 0, data);
  }

  /** Function 'i' as the back end gets it. */
  function FunsOf(prog: seq<Fn>, codes: seq<seq<Instr>>): (gs: seq<Fun>)
    requires |codes| == |prog|
    ensures |gs| == |prog|
  {
    seq(|prog|, i requires 0 <= i < |prog| => Fun(prog[i].ret, ParamValues(prog[i].params), codes[i]))
  }

  /** Translation of all functions, then each phase of the back end over all of them: the machine code of the
      image. */
  method BackEnd(prog: seq<Fn>, symbolCount: nat, ghost im: Image) returns (texts: seq<seq<X.AInstr>>)
    requires ImageOk(im) && im.prog == prog && im.np == symbolCount && im.nl == 0
    ensures |texts| == |prog| && forall i :: 0 <= i < |prog| ==> texts[i] == TextOf(im.ts[i], FunAt(im, i))
  {
    hide ImageOk, TextOf, CodeOf, StartOf, Prologue, ParamValues, AllTyped, Joint, FrameSize;
    assert |im.ts| == |im.prog| by { Lengths(im); }
    var codes, pseudoCount := I.Build(prog, symbolCount);
    var gs := FunsOf(prog, codes);
    assert forall i :: 0 <= i < |prog| ==> gs[i] == FunAt(im, i);
    ImageTyped(im, gs);
    ImageBounded(im, pseudoCount);
    var b := new B.Builder(Joint(im.ts), pseudoCount);
    b.CompileProgram(gs, im.ts);
    texts := [];
    for i := 0 to |prog|
      invariant |texts| == i && forall k :: 0 <= k < i ==> texts[k] == TextOf(im.ts[k], FunAt(im, k))
    {
      texts := texts + [Prologue(b.fns[i].stackSize) + b.fns[i].instrs];
    }
  }

  /** The tables of an image share no pseudo. */
  lemma ImageTyped(im: Image, gs: seq<Fun>)
    requires ImageOk(im) && |gs| == |im.prog| && forall i :: 0 <= i < |gs| ==> gs[i] == FunAt(im, i)
    ensures AllTyped(gs, im.ts)
  {
    hide CodeOf, StartOf, ParamsOk, AllInstrsOk, ProgramOk, NumberedApart, FnTyped, ObjectsApart, Compiler.FunUses;
    forall k | 0 <= k < |gs| ensures ParamsOk(im.ts[k], gs[k].params) && AllInstrsOk(im.ts[k], gs[k].code) {
      assert Compiler.TableOk(im.prog, k, im.np, im.nl, im.g, im.ts[k]);
    }
    forall i, j, id: nat | 0 <= i < j < |im.ts| && id in im.ts[i].pseudo ensures id !in im.ts[j].pseudo {
      assert Compiler.TableOk(im.prog, i, im.np, im.nl, im.g, im.ts[i]) && Compiler.TableOk(im.prog, j, im.np, im.nl, im.g, im.ts[j]);
      PseudosApart(im.prog, im.np, im.nl, i, j, id);
    }
    forall i, j | 0 <= i < j < |im.ts|
      ensures im.ts[i].statics == im.ts[j].statics && im.ts[i].params == im.ts[j].params && im.ts[i].ret == im.ts[j].ret
    {
      assert Compiler.TableOk(im.prog, i, im.np, im.nl, im.g, im.ts[i]) && Compiler.TableOk(im.prog, j, im.np, im.nl, im.g, im.ts[j]);
    }
  }

  lemma ImageBounded(im: Image, count: nat)
    requires ImageOk(im) && count == StartOf(im.prog, |im.prog|, im.np, im.nl).0
    ensures Bounded(Joint(im.ts), count)
  {
    hide CodeOf, StartOf, FunOk, ProgramOk, NumberedApart, FnTyped, FnMentions, Compiler.FunUses, Joint;
    forall k | 0 <= k < |im.ts| ensures Bounded(im.ts[k], count) {
      assert Compiler.TableOk(im.prog, k, im.np, im.nl, im.g, im.ts[k]);
      forall id | id in im.ts[k].pseudo ensures id < count {
        FunOwns(im.prog, k, im.np, im.nl, id);
        CountersGrow(im.prog, k + 1, |im.prog|, im.np, im.nl);
      }
    }
    JointBounded(im.ts, count);
  }
}
