/** Statements and translation units printed as tokens, and read back. */
module Printing {
  import opened Arith
  import opened Ast
  import opened Syntax
  import opened Pratt
  import G = ExprGrammar
  import opened Grammar

  function StorageWord(sc: Storage): Token
    requires !sc.ScNone?
  {
    Word(match sc case ScStatic => KwStatic case ScExtern => KwExtern case ScAuto => KwAuto case _ => KwRegister)
  }

  function PrintSpecs(ty: Ty, sc: Storage): (ts: Tokens)
    ensures ts != [] && IsDeclarationStart(ts[0])
  {
    (if sc.ScNone? then [] else [StorageWord(sc)]) + [TypeWord(ty)]
  }

  /** The type that the specifiers of a declarator spell. */
  function BaseOf(d: Declaration): Ty {
    if d.isFunction && d.ty.Function? then d.ty.ret else d.ty
  }

  /** '(void)' declares no parameter, so a single one cannot look like that. */
  predicate LooksEmpty(ps: seq<Declaration>) {
    |ps| == 1 && ps[0].name == "" && !ps[0].isFunction && ps[0].ty.Void? && ps[0].sc.ScNone?
  }

  predicate DeclaratorOk(d: Declaration)
    decreases d, 1
  {
    && !BaseOf(d).Function? && d.isFunction == d.ty.Function?
    && (if d.isFunction then d.ty.params == Types(d.params) && !LooksEmpty(d.params) && ParamsOk(d.params) else d.params == [])
  }

  predicate ParamsOk(ps: seq<Declaration>)
    decreases ps, 0
  {
    ps == [] || (ParamOk(ps[0]) && ParamsOk(ps[1..]))
  }

  predicate ParamOk(p: Declaration)
    decreases p, 2
  {
    p.isParameter && !p.hasBody && p.init.None? && DeclaratorOk(p)
  }

  function PrintDeclarator(d: Declaration): Tokens
    requires DeclaratorOk(d)
    decreases d, 1
  {
    (if d.name == "" then [] else [Identifier(d.name)]) + (if d.isFunction then [LParen] + PrintParams(d.params) else [])
  }

  function PrintParam(p: Declaration): Tokens
    requires ParamOk(p)
    decreases p, 2
  {
    PrintSpecs(BaseOf(p), p.sc) + PrintDeclarator(p)
  }

  function PrintParams(ps: seq<Declaration>): Tokens
    requires ParamsOk(ps)
    decreases ps, 0
  {
    if ps == [] then [RParen]
    else if |ps| == 1 then PrintParam(ps[0]) + [RParen]
    else PrintParam(ps[0]) + ([Comma] + PrintParams(ps[1..]))
  }

  /** A declarator of a declaration with these specifiers. */
  predicate InitOk(d: Declaration, base: Ty, sc: Storage) {
    && DeclaratorOk(d) && BaseOf(d) == base && d.sc == sc && d.name != "" && !d.isParameter && !d.hasBody
    && (d.init.Some? ==> !d.isFunction && Printable(d.init.value))
  }

  function PrintInit(d: Declaration): Tokens
    requires DeclaratorOk(d) && (d.init.Some? ==> Printable(d.init.value))
  {
    PrintDeclarator(d) + (if d.init.Some? then [Becomes(None)] + Print(d.init.value, ASSIGNMENT) else [])
  }

  predicate DeclsOk(ds: seq<Declaration>) {
    ds != [] && forall k :: 0 <= k < |ds| ==> InitOk(ds[k], BaseOf(ds[0]), ds[0].sc)
  }

  function PrintDecls(ds: seq<Declaration>, base: Ty, sc: Storage): Tokens
    requires ds != [] && forall k :: 0 <= k < |ds| ==> InitOk(ds[k], base, sc)
  {
    assert InitOk(ds[0], base, sc);
    if |ds| == 1 then PrintInit(ds[0]) + [Semicolon] else PrintInit(ds[0]) + ([Comma] + PrintDecls(ds[1..], base, sc))
  }

  function PrintLocal(ds: seq<Declaration>): (ts: Tokens)
    requires DeclsOk(ds)
    ensures ts != [] && IsDeclarationStart(ts[0])
  {
    PrintSpecs(BaseOf(ds[0]), ds[0].sc) + PrintDecls(ds, BaseOf(ds[0]), ds[0].sc)
  }

  lemma SpecsRead(ty: Ty, sc: Storage, rest: Tokens)
    requires !ty.Function? && (rest == [] || !IsDeclarationStart(rest[0]))
    ensures SpecsOf(PrintSpecs(ty, sc) + rest) == Some(((ty, sc), rest))
  {
    var s := PrintSpecs(ty, sc);
    if sc.ScNone? {
      assert (s + rest)[0] == TypeWord(ty) && (s + rest)[1..] == rest;
      assert ParseSpecs(AddSpec(NO_SPECS, TypeWord(ty)), rest) == (AddSpec(NO_SPECS, TypeWord(ty)), rest);
    } else {
      var w := StorageWord(sc);
      var a := AddSpec(NO_SPECS, w);
      var more := [TypeWord(ty)] + rest;
      assert (s + rest)[0] == w && (s + rest)[1..] == more;
      assert more[0] == TypeWord(ty) && more[1..] == rest;
      assert ParseSpecs(AddSpec(a, TypeWord(ty)), rest) == (AddSpec(a, TypeWord(ty)), rest);
      assert ParseSpecs(a, more) == ParseSpecs(AddSpec(a, TypeWord(ty)), rest);
    }
  }

  /** What the grammar knows of a declarator before its specifiers and initialiser are added. */
  function Bare(d: Declaration): Declaration {
    d.(sc := ScNone, isParameter := false, hasBody := false, init := None)
  }

  lemma {:induction false} DeclaratorReads(d: Declaration, abstractAllowed: bool, rest: Tokens)
    requires DeclaratorOk(d) && (d.name != "" || abstractAllowed) && (rest == [] || (rest[0] != LParen && !rest[0].Identifier?))
    ensures ParseDeclarator(BaseOf(d), abstractAllowed, PrintDeclarator(d) + rest) == Some((Bare(d), rest))
    decreases d, 1
  {
    hide ParseParams, ParamsOk;
    var head := if d.name == "" then [] else [Identifier(d.name)];
    if d.isFunction {
      var tail := PrintParams(d.params) + rest;
      assert PrintDeclarator(d) + rest == head + ([LParen] + tail);
      ParamsRead(d.params, rest);
      assert ([LParen] + tail)[1..] == tail;
      assert (head + ([LParen] + tail))[|head|..] == [LParen] + tail;
      assert Bare(d) == FunctionOf(d.name, BaseOf(d), d.params);
    } else {
      assert PrintDeclarator(d) + rest == head + rest;
      assert (head + rest)[|head|..] == rest;
    }
  }

  lemma {:induction false} ParamReads(p: Declaration, rest: Tokens)
    requires ParamOk(p) && rest != [] && (rest[0] == Comma || rest[0] == RParen)
    ensures ParseParam(PrintParam(p) + rest) == Some((p, rest))
    decreases p, 2
  {
    hide ParseDeclarator, SpecsOf, DeclaratorOk, PrintDeclarator;
    var tail := PrintDeclarator(p) + rest;
    assert PrintParam(p) + rest == PrintSpecs(BaseOf(p), p.sc) + tail;
    DeclaratorStarts(p, rest);
    SpecsRead(BaseOf(p), p.sc, tail);
    DeclaratorReads(p, true, rest);
  }

  lemma DeclaratorStarts(d: Declaration, rest: Tokens)
    requires DeclaratorOk(d) && rest != [] && !IsDeclarationStart(rest[0])
    ensures var ts := PrintDeclarator(d) + rest; ts != [] && !IsDeclarationStart(ts[0])
    ensures !BaseOf(d).Function?
  {
  }

  lemma {:induction false} ParamsRead(ps: seq<Declaration>, rest: Tokens)
    requires ParamsOk(ps) && !LooksEmpty(ps)
    ensures ParseParams(PrintParams(ps) + rest) == Some((ps, rest))
    decreases ps, 1
  {
    var ts := PrintParams(ps) + rest;
    if ps == [] {
      assert ts[1..] == rest;
    } else {
      ParamListReads(ps, rest);
      NotEmptyLooking(ps, rest);
    }
  }

  lemma NotEmptyLooking(ps: seq<Declaration>, rest: Tokens)
    requires ps != [] && ParamsOk(ps) && !LooksEmpty(ps)
    ensures var ts := PrintParams(ps) + rest;
            && ts[0] != RParen && (ts[0] == Word(KwVoid) ==> |ts| > 1 && ts[1] != RParen)
  {
    hide DeclaratorOk;
    var p := ps[0];
    var first := PrintParam(p);
    ParamTokens(p);
    assert (PrintParams(ps) + rest)[0] == first[0];
    if first[0] == Word(KwVoid) {
      if |first| > 1 {
        assert (PrintParams(ps) + rest)[1] == first[1];
      } else {
        assert |ps| > 1;
        assert (PrintParams(ps) + rest)[1] == Comma;
      }
    }
  }

  lemma ParamTokens(p: Declaration)
    requires ParamOk(p)
    ensures var ts := PrintParam(p);
            && ts != [] && ts[0] != RParen && (|ts| > 1 ==> ts[0] == Word(KwVoid) ==> ts[1] != RParen)
            && (ts == [Word(KwVoid)] ==> p.name == "" && !p.isFunction && p.ty.Void? && p.sc.ScNone?)
  {
    var s := PrintSpecs(BaseOf(p), p.sc);
    var d := PrintDeclarator(p);
    assert PrintParam(p) == s + d;
    if d != [] {
      assert (s + d)[|s|] == d[0];
    } else {
      assert s + d == s;
    }
  }

  lemma {:induction false} ParamListReads(ps: seq<Declaration>, rest: Tokens)
    requires ps != [] && ParamsOk(ps)
    ensures ParamList(PrintParams(ps) + rest) == Some((ps, rest))
    decreases ps, 0
  {
    hide ParseParam, ParamOk, PrintParams, PrintParam;
    var p := ps[0];
    var more := if |ps| == 1 then rest else PrintParams(ps[1..]) + rest;
    var tail := [if |ps| == 1 then RParen else Comma] + more;
    ParamsText(ps, rest);
    ParamReads(p, tail);
    assert tail[1..] == more;
    if |ps| == 1 { assert ps == [p]; }
    else {
      ParamListReads(ps[1..], rest);
      assert [p] + ps[1..] == ps;
    }
  }

  lemma ParamsText(ps: seq<Declaration>, rest: Tokens)
    requires ps != [] && ParamsOk(ps)
    ensures |ps| == 1 ==> PrintParams(ps) + rest == PrintParam(ps[0]) + ([RParen] + rest)
    ensures |ps| > 1 ==> PrintParams(ps) + rest == PrintParam(ps[0]) + ([Comma] + (PrintParams(ps[1..]) + rest))
  {
    hide PrintParam, ParamOk;
    if |ps| == 1 { Regroup(PrintParam(ps[0]), [RParen], rest); }
    else {
      Regroup(PrintParam(ps[0]), [Comma] + PrintParams(ps[1..]), rest);
      Regroup([Comma], PrintParams(ps[1..]), rest);
    }
  }

  lemma Regroup(a: Tokens, b: Tokens, c: Tokens)
    ensures (a + b) + c == a + (b + c)
  {
  }

  lemma InitReads(d: Declaration, base: Ty, sc: Storage, rest: Tokens)
    requires InitOk(d, base, sc) && rest != [] && (rest[0] == Comma || rest[0] == Semicolon)
    ensures ParseInitDeclarator(base, sc, PrintInit(d) + rest) == Some((d, rest))
  {
    hide ParseDeclarator, DeclaratorOk, ParseE, Print, PrintDeclarator;
    if d.init.Some? {
      var e := Print(d.init.value, ASSIGNMENT) + rest;
      var tail := [Becomes(None)] + e;
      assert PrintInit(d) + rest == PrintDeclarator(d) + tail;
      DeclaratorReads(d, false, tail);
      assert tail[1..] == e;
      G.RoundTrip(d.init.value, rest);
    } else {
      assert PrintInit(d) + rest == PrintDeclarator(d) + rest;
      DeclaratorReads(d, false, rest);
    }
  }

  lemma {:induction false} DeclsRead(ds: seq<Declaration>, base: Ty, sc: Storage, rest: Tokens)
    requires ds != [] && forall k :: 0 <= k < |ds| ==> InitOk(ds[k], base, sc)
    ensures ParseDecls(base, sc, PrintDecls(ds, base, sc) + rest) == Some((ds, rest))
  {
    hide ParseInitDeclarator, InitOk, PrintInit;
    var d := ds[0];
    assert InitOk(d, base, sc);
    InitIs(d, base, sc);
    if |ds| == 1 {
      var tail := [Semicolon] + rest;
      assert PrintDecls(ds, base, sc) + rest == PrintInit(d) + tail;
      InitReads(d, base, sc, tail);
      assert tail[1..] == rest && ds == [d];
    } else {
      var more := PrintDecls(ds[1..], base, sc) + rest;
      var tail := [Comma] + more;
      assert PrintDecls(ds, base, sc) + rest == PrintInit(d) + tail;
      InitReads(d, base, sc, tail);
      assert tail[1..] == more;
      DeclsRead(ds[1..], base, sc, rest);
      assert [d] + ds[1..] == ds;
    }
  }

  lemma InitIs(d: Declaration, base: Ty, sc: Storage)
    requires InitOk(d, base, sc)
    ensures DeclaratorOk(d) && (d.init.Some? ==> Printable(d.init.value)) && !base.Function? && BaseOf(d) == base && d.sc == sc && d.name != ""
  {
  }

  lemma InitStarts(d: Declaration, base: Ty, sc: Storage)
    requires InitOk(d, base, sc)
    ensures PrintInit(d) != [] && PrintInit(d)[0] == Identifier(d.name)
  {
  }

  lemma LocalReads(ds: seq<Declaration>, rest: Tokens, n: nat)
    requires DeclsOk(ds)
    ensures ParseLocal(PrintLocal(ds) + rest, n) == Some((SDecl(ds), rest, n + 1))
  {
    hide SpecsOf, ParseDecls, InitOk, PrintDecls;
    var base, sc := BaseOf(ds[0]), ds[0].sc;
    InitIs(ds[0], base, sc);
    var tail := PrintDecls(ds, base, sc) + rest;
    assert PrintLocal(ds) + rest == PrintSpecs(base, sc) + tail;
    assert tail[0] == Identifier(ds[0].name) by { DeclsStart(ds, base, sc); }
    SpecsRead(base, sc, tail);
    DeclsRead(ds, base, sc, rest);
  }

  lemma DeclsStart(ds: seq<Declaration>, base: Ty, sc: Storage)
    requires ds != [] && forall k :: 0 <= k < |ds| ==> InitOk(ds[k], base, sc)
    ensures PrintDecls(ds, base, sc) != [] && PrintDecls(ds, base, sc)[0] == Identifier(ds[0].name)
  {
    hide PrintInit;
    InitStarts(ds[0], base, sc);
  }
}
