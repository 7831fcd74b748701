/** The trees the parser builds: what analysis relies on, with all statements numbered apart. */
module UnitTrees {
  import opened Arith
  import opened Ast
  import opened Syntax
  import opened Pratt
  import opened Grammar
  import T = ParseTrees
  import D = Declarations
  import A = StmtAnalysis
  import Units
  import Analysis

  /** 1 for a number given out while the counter went from 'n' to 'm'. */
  function Between(id: nat, n: nat, m: nat): nat {
    if n <= id < m then 1 else 0
  }

  lemma ParsedE(prec: nat, ts: Tokens)
    requires prec >= 1 && T.AllReal(ts) && ParseE(prec, ts).Some?
    ensures Analysis.Parsed(ParseE(prec, ts).value.0) && T.AllReal(ParseE(prec, ts).value.1)
  {
    hide ParseE;
    T.ParserBuilds(prec, ts);
  }

  lemma SpecsBuild(ts: Tokens)
    requires T.AllReal(ts) && SpecsOf(ts).Some?
    ensures T.AllReal(SpecsOf(ts).value.1)
  {
    T.SpecsReal(NO_SPECS, ts);
  }

  predicate ParamsBuilt(ps: seq<Declaration>) {
    D.ParamsParsed(ps, Types(ps))
  }

  /** A declarator and the declarators of its parameters. */
  predicate DeclaratorBuilt(d: Declaration, base: Ty) {
    && d.init.None? && !d.isParameter && !d.hasBody && (d.name == "" || IsIdentifier(d.name))
    && (if d.isFunction then d.ty == Function(base, Types(d.params)) && ParamsBuilt(d.params) else d.ty == base)
  }

  lemma {:induction false} DeclaratorBuilds(base: Ty, abstractAllowed: bool, ts: Tokens)
    requires T.AllReal(ts) && ParseDeclarator(base, abstractAllowed, ts).Some?
    ensures var (d, rest) := ParseDeclarator(base, abstractAllowed, ts).value; DeclaratorBuilt(d, base) && (!abstractAllowed ==> IsIdentifier(d.name)) && T.AllReal(rest)
    decreases |ts|, 2
  {
    hide ParseParams;
    if ts != [] {
      T.Next(ts);
      var rest := if ts[0].Identifier? then ts[1..] else ts;
      if rest != [] && rest[0] == LParen {
        T.Next(rest);
        ParamsBuild(rest[1..]);
      }
    }
  }

  lemma {:induction false} ParamsBuild(ts: Tokens)
    requires T.AllReal(ts) && ParseParams(ts).Some?
    ensures var (ps, rest) := ParseParams(ts).value; ParamsBuilt(ps) && T.AllReal(rest)
    decreases |ts|, 1
  {
    hide ParamList;
    T.Next(ts);
    if ts[0] != RParen {
      if |ts| > 1 && ts[0] == Word(KwVoid) && ts[1] == RParen {
        T.Next(ts[1..]);
        assert ts[1..][1..] == ts[2..];
      } else {
        ParamListBuilds(ts);
      }
    }
  }

  lemma {:induction false} ParamListBuilds(ts: Tokens)
    requires T.AllReal(ts) && ParamList(ts).Some?
    ensures var (ps, rest) := ParamList(ts).value; ParamsBuilt(ps) && T.AllReal(rest)
    decreases |ts|, 0
  {
    hide SpecsOf, ParseDeclarator;
    SpecsBuild(ts);
    var s := SpecsOf(ts).value;
    DeclaratorBuilds(s.0.0, true, s.1);
    var (p, rest) := ParseParam(ts).value;
    T.Next(rest);
    var ps := ParamList(ts).value.0;
    if rest[0] == Comma {
      ParamListBuilds(rest[1..]);
      var more := ParamList(rest[1..]).value.0;
      assert ps == [p] + more;
      assert Types(ps) == [p.ty] + Types(more) by { assert ps[1..] == more; }
      forall k | 0 <= k < |ps| ensures D.ParamParsed(ps[k], Types(ps)[k]) {
        if k > 0 { assert D.ParamParsed(more[k - 1], Types(more)[k - 1]); }
      }
    } else {
      assert ps == [p] && Types(ps) == [p.ty];
    }
  }

  lemma InitBuilds(base: Ty, sc: Storage, ts: Tokens)
    requires !base.Function? && T.AllReal(ts) && ParseInitDeclarator(base, sc, ts).Some?
    ensures var (d, rest) := ParseInitDeclarator(base, sc, ts).value; D.DeclarationOk(d) && !d.isParameter && !d.hasBody && T.AllReal(rest)
  {
    hide ParseDeclarator, ParseE;
    DeclaratorBuilds(base, false, ts);
    var (d, rest) := ParseDeclarator(base, false, ts).value;
    if rest != [] && rest[0] == Becomes(None) {
      T.Next(rest);
      ParsedE(ASSIGNMENT, rest[1..]);
    }
  }

  predicate DeclsBuilt(ds: seq<Declaration>) {
    forall k :: 0 <= k < |ds| ==> D.DeclarationOk(ds[k]) && !ds[k].isParameter && !ds[k].hasBody
  }

  lemma {:induction false} DeclsBuild(base: Ty, sc: Storage, ts: Tokens)
    requires !base.Function? && T.AllReal(ts) && ParseDecls(base, sc, ts).Some?
    ensures var (ds, rest) := ParseDecls(base, sc, ts).value; DeclsBuilt(ds) && T.AllReal(rest)
    decreases |ts|
  {
    hide ParseInitDeclarator, D.DeclarationOk;
    InitBuilds(base, sc, ts);
    var rest := ParseInitDeclarator(base, sc, ts).value.1;
    T.Next(rest);
    if rest[0] == Comma { DeclsBuild(base, sc, rest[1..]); }
  }

  lemma LocalBuilds(ts: Tokens, n: nat)
    requires T.AllReal(ts) && ParseLocal(ts, n).Some?
    ensures var (s, rest, m) := ParseLocal(ts, n).value; s.SDecl? && A.StmtParsed(s) && T.AllReal(rest) && m == n + 1
  {
    hide SpecsOf, ParseDecls, D.DeclarationOk;
    SpecsBuild(ts);
    var s := SpecsOf(ts).value;
    DeclsBuild(s.0.0, s.0.1, s.1);
  }

  lemma ClosedBuilds(end: Token, ts: Tokens)
    requires T.AllReal(ts)
    ensures Closed(end, ts).Some? ==> Analysis.Parsed(Closed(end, ts).value.0) && T.AllReal(Closed(end, ts).value.1)
    ensures ClosedOptional(end, ts).Some? ==> A.OptParsed(ClosedOptional(end, ts).value.0) && T.AllReal(ClosedOptional(end, ts).value.1)
  {
    hide ParseE;
    if ts != [] { T.Next(ts); }
    if ParseE(ASSIGNMENT, ts).Some? {
      ParsedE(ASSIGNMENT, ts);
      var rest := ParseE(ASSIGNMENT, ts).value.1;
      if rest != [] { T.Next(rest); }
    }
  }

  lemma ParenBuilds(ts: Tokens)
    requires T.AllReal(ts) && Paren(ts).Some?
    ensures Analysis.Parsed(Paren(ts).value.0) && T.AllReal(Paren(ts).value.1)
  {
    hide Closed;
    T.Next(ts);
    ClosedBuilds(RParen, ts[1..]);
  }

  /** A tree that analysis can work on, its statements numbered by what the counter gave out. */
  predicate Built(r: Numbered<RStmt>, n: nat, id: nat) {
    r.Some? ==> A.StmtParsed(r.value.0) && !r.value.0.SDecl? && n <= r.value.2 && A.RawIds(r.value.0, id) <= Between(id, n, r.value.2) && T.AllReal(r.value.1)
  }

  lemma {:induction false} StmtBuilds(ts: Tokens, n: nat, id: nat)
    requires T.AllReal(ts)
    ensures Built(ParseS(ts, n), n, id)
    decreases |ts|, 3
  {
    hide ParseItems, ParseWord, Closed;
    if ts != [] && !IsDeclarationStart(ts[0]) {
      T.Next(ts);
      if ts[0] == LBrace { ItemsBuild(ts[1..], n + 1, id); }
      else if ts[0] == Semicolon { }
      else if ts[0].Word? { WordBuilds(ts[0].kw, ts[1..], n, id); }
      else if |ts| > 1 && ts[0].Identifier? && ts[1] == Colon {
        T.Next(ts[1..]);
        assert ts[1..][1..] == ts[2..];
        StmtBuilds(ts[2..], n + 1, id);
      } else { ClosedBuilds(Semicolon, ts); }
    }
  }

  lemma {:induction false} WordBuilds(kw: Keyword, ts: Tokens, n: nat, id: nat)
    requires T.AllReal(ts)
    ensures Built(ParseWord(kw, ts, n), n, id)
    decreases |ts|, 5
  {
    hide ParseE, ParseS, ParseIf, ParseDo, ParseFor, Paren, ClosedOptional, A.StmtParsed, A.RawIds;
    match kw
    case KwReturn => ReturnBuilds(ts, n, id);
    case KwIf => IfBuilds(ts, n, id);
    case KwWhile => GuardedBuilds(kw, ts, n, id);
    case KwDo => DoBuilds(ts, n, id);
    case KwFor => ForBuilds(ts, n, id);
    case KwSwitch => GuardedBuilds(kw, ts, n, id);
    case KwCase => CaseBuilds(ts, n, id);
    case KwDefault => DefaultBuilds(ts, n, id);
    case KwGoto => JumpBuilds(kw, ts, n, id);
    case KwBreak => JumpBuilds(kw, ts, n, id);
    case KwContinue => JumpBuilds(kw, ts, n, id);
    case _ =>
  }

  lemma ReturnBuilds(ts: Tokens, n: nat, id: nat)
    requires T.AllReal(ts)
    ensures Built(ParseWord(KwReturn, ts, n), n, id)
  {
    hide ClosedOptional;
    ClosedBuilds(Semicolon, ts);
  }

  lemma JumpBuilds(kw: Keyword, ts: Tokens, n: nat, id: nat)
    requires T.AllReal(ts) && (kw.KwGoto? || kw.KwBreak? || kw.KwContinue?)
    ensures Built(ParseWord(kw, ts, n), n, id)
  {
    if ts != [] {
      T.Next(ts);
      if |ts| > 1 { T.Next(ts[1..]); }
    }
  }

  lemma {:induction false} GuardedBuilds(kw: Keyword, ts: Tokens, n: nat, id: nat)
    requires T.AllReal(ts) && (kw.KwWhile? || kw.KwSwitch?)
    ensures Built(ParseWord(kw, ts, n), n, id)
    decreases |ts|, 4
  {
    hide ParseS, Paren;
    if Paren(ts).Some? {
      ParenBuilds(ts);
      StmtBuilds(Paren(ts).value.1, n + 1, id);
    }
  }

  lemma {:induction false} CaseBuilds(ts: Tokens, n: nat, id: nat)
    requires T.AllReal(ts)
    ensures Built(ParseWord(KwCase, ts, n), n, id)
    decreases |ts|, 4
  {
    hide ParseS, ParseE;
    if ParseE(TERNARY, ts).Some? {
      ParsedE(TERNARY, ts);
      var rest := ParseE(TERNARY, ts).value.1;
      if Expect(Colon, rest).Some? {
        T.Next(rest);
        StmtBuilds(rest[1..], n + 1, id);
      }
    }
  }

  lemma DefaultBuilt(b: RStmt, n: nat, r: Numbered<RStmt>, id: nat)
    requires r.Some? && r.value.0 == b && Built(r, n + 1, id)
    ensures Built(Some((SDefault(n, b), r.value.1, r.value.2)), n, id)
  {
    hide T.AllReal;
  }

  lemma {:induction false} DefaultBuilds(ts: Tokens, n: nat, id: nat)
    requires T.AllReal(ts)
    ensures Built(ParseWord(KwDefault, ts, n), n, id)
    decreases |ts|, 4
  {
    hide ParseS, T.AllReal, T.Real, A.StmtParsed, A.RawIds, Between;
    if Expect(Colon, ts).Some? {
      T.Next(ts);
      StmtBuilds(ts[1..], n + 1, id);
      var r := ParseS(ts[1..], n + 1);
      if r.Some? { DefaultBuilt(r.value.0, n, r, id); }
    }
  }

  lemma {:induction false} IfBuilds(ts: Tokens, n: nat, id: nat)
    requires T.AllReal(ts)
    ensures Built(ParseIf(ts, n), n, id)
    decreases |ts|, 4
  {
    hide ParseS, Paren;
    if Paren(ts).Some? {
      ParenBuilds(ts);
      var rest := Paren(ts).value.1;
      StmtBuilds(rest, n + 1, id);
      var a := ParseS(rest, n + 1);
      if a.Some? && a.value.1 != [] && a.value.1[0] == Word(KwElse) {
        T.Next(a.value.1);
        StmtBuilds(a.value.1[1..], a.value.2, id);
      }
    }
  }

  lemma {:induction false} DoBuilds(ts: Tokens, n: nat, id: nat)
    requires T.AllReal(ts)
    ensures Built(ParseDo(ts, n), n, id)
    decreases |ts|, 4
  {
    hide ParseS, Paren;
    StmtBuilds(ts, n + 1, id);
    var b := ParseS(ts, n + 1);
    if b.Some? && Expect(Word(KwWhile), b.value.1).Some? {
      T.Next(b.value.1);
      var rest := b.value.1[1..];
      if Paren(rest).Some? {
        ParenBuilds(rest);
        if Paren(rest).value.1 != [] { T.Next(Paren(rest).value.1); }
      }
    }
  }

  lemma ForInitBuilds(ts: Tokens, n: nat, id: nat)
    requires T.AllReal(ts) && ParseForInit(ts, n).Some?
    ensures var (s, rest, m) := ParseForInit(ts, n).value;
            (s.SNull? || s.SExpr? || s.SDecl?) && A.StmtParsed(s) && A.RawIds(s, id) == 0 && n <= m && T.AllReal(rest)
  {
    hide ParseLocal, Closed, D.DeclarationOk;
    if ts != [] { T.Next(ts); }
    if ts != [] && IsDeclarationStart(ts[0]) { LocalBuilds(ts, n); }
    else { ClosedBuilds(Semicolon, ts); }
  }

  lemma {:induction false} ForBuilds(ts: Tokens, n: nat, id: nat)
    requires T.AllReal(ts)
    ensures Built(ParseFor(ts, n), n, id)
    decreases |ts|, 4
  {
    hide ParseS, ClosedOptional, ParseForInit, D.DeclarationOk;
    if Expect(LParen, ts).Some? {
      T.Next(ts);
      var i := ParseForInit(ts[1..], n + 1);
      if i.Some? {
        ForInitBuilds(ts[1..], n + 1, id);
        ClosedBuilds(Semicolon, i.value.1);
        var t := ClosedOptional(Semicolon, i.value.1);
        if t.Some? {
          ClosedBuilds(RParen, t.value.1);
          var p := ClosedOptional(RParen, t.value.1);
          if p.Some? { StmtBuilds(p.value.1, i.value.2, id); }
        }
      }
    }
  }

  lemma {:induction false} ItemsBuild(ts: Tokens, n: nat, id: nat)
    requires T.AllReal(ts)
    ensures var r := ParseItems(ts, n);
            r.Some? ==> A.ItemsParsed(r.value.0) && n <= r.value.2 && A.RawItemIds(r.value.0, id) <= Between(id, n, r.value.2) && T.AllReal(r.value.1)
    decreases |ts|, 5
  {
    hide ParseS, ParseLocal, A.StmtParsed;
    if ts != [] {
      T.Next(ts);
      if ts[0] != RBrace {
        var i := ParseItem(ts, n);
        if IsDeclarationStart(ts[0]) { if i.Some? { LocalBuilds(ts, n); } } else { StmtBuilds(ts, n, id); }
        if i.Some? {
          ItemsBuild(i.value.1, i.value.2, id);
          var rest := ParseItems(i.value.1, i.value.2);
          if rest.Some? { assert ([i.value.0] + rest.value.0)[1..] == rest.value.0; }
        }
      }
    }
  }

  /** What analysis relies on, for each declaration of the file. */
  predicate ItemsFine(items: seq<Item>) {
    forall k :: 0 <= k < |items| ==> Units.ItemParsed(items[k])
  }

  /** Statements of all function bodies numbered 'id'. */
  function BodyIds(items: seq<Item>, id: nat): nat {
    if items == [] then 0
    else (if items[0].decl.isFunction && items[0].decl.hasBody then A.RawItemIds(items[0].body, id) else 0) + BodyIds(items[1..], id)
  }

  lemma {:induction false} NoBodies(ds: seq<Declaration>, rest: seq<Item>, id: nat)
    requires DeclsBuilt(ds)
    ensures BodyIds(ItemsOf(ds) + rest, id) == BodyIds(rest, id)
  {
    var all := ItemsOf(ds) + rest;
    if ds == [] {
      assert all == rest;
    } else {
      assert all[1..] == ItemsOf(ds[1..]) + rest;
      assert all[0] == Item(ds[0], []) && !ds[0].hasBody;
      NoBodies(ds[1..], rest, id);
    }
  }

  lemma TopBuilds(ts: Tokens, n: nat, id: nat, more: seq<Item>)
    requires T.AllReal(ts) && ParseTop(ts, n).Some?
    ensures var (items, rest, m) := ParseTop(ts, n).value;
            ItemsFine(items) && n <= m && T.AllReal(rest) && BodyIds(items + more, id) <= Between(id, n, m) + BodyIds(more, id)
  {
    hide SpecsOf, ParseDecls, ParseInitDeclarator, ParseItems, A.RawItemIds, A.ItemsParsed;
    SpecsBuild(ts);
    var s := SpecsOf(ts).value;
    InitBuilds(s.0.0, s.0.1, s.1);
    var (d, rest) := ParseInitDeclarator(s.0.0, s.0.1, s.1).value;
    var items := ParseTop(ts, n).value.0;
    if d.isFunction && rest != [] && rest[0] == LBrace {
      T.Next(rest);
      ItemsBuild(rest[1..], n + 2, id);
      assert (items + more)[0] == items[0] && (items + more)[1..] == more;
    } else {
      DeclsBuild(s.0.0, s.0.1, s.1);
      NoBodies(ParseDecls(s.0.0, s.0.1, s.1).value.0, more, id);
    }
  }

  /** A unit that parses is what analysis relies on, and no two of its statements share a number. */
  lemma {:induction false} UnitBuilds(ts: Tokens, n: nat, id: nat)
    requires T.AllReal(ts) && ParseUnit(ts, n).Some?
    ensures ItemsFine(ParseUnit(ts, n).value) && BodyIds(ParseUnit(ts, n).value, id) <= if id >= n then 1 else 0
    decreases |ts|
  {
    hide ParseTop, Units.ItemParsed;
    if ts != [] {
      var i := ParseTop(ts, n).value;
      var more := ParseUnit(i.1, i.2).value;
      TopBuilds(ts, n, id, more);
      UnitBuilds(i.1, i.2, id);
    }
  }
}
