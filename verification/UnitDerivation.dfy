/** The parser of declarations, statements and units and the grammar agree: what is parsed stands in the tokens, and
    whatever stands there is parsed. */
module UnitDerivation {
  import opened Arith
  import opened Ast
  import opened Syntax
  import opened Pratt
  import opened Grammar
  import opened ExprGrammar
  import opened UnitGrammar
  import V = Derivation

  lemma ExprSound(prec: nat, ts: Tokens)
    requires (prec == ASSIGNMENT || prec == TERNARY) && ParseE(prec, ts).Some?
    ensures ExprSpan(if prec == ASSIGNMENT then AssignmentExpr else ConditionalExpr, ts, ParseE(prec, ts).value.0, ParseE(prec, ts).value.1)
  {
    hide ParseE, ExprSpan, CategoryFor;
    V.LevelNames();
    V.ParserDerives(prec, ts);
  }

  lemma ExprComplete(c: Category, ts: Tokens, e: Raw, rest: Tokens)
    requires (c == AssignmentExpr || c == ConditionalExpr) && ExprSpan(c, ts, e, rest) && (rest == [] || Prec(rest[0]) == 0)
    ensures ParseE(LevelFor(c), ts) == Some((e, rest)) && ts != [] && Starts(ts[0])
  {
    hide ParseE, Climb, Derives;
    var w := ts[..|ts| - |rest|];
    assert ts == w + rest;
    DerivedReads(c, LevelFor(c), w, e, rest);
    Stop(LevelFor(c), e, rest);
    DerivesStarts(c, w, e);
  }

  lemma SpecsSound(ts: Tokens)
    requires SpecsOf(ts).Some?
    ensures SpecsSpan(ts, SpecsOf(ts).value.0.0, SpecsOf(ts).value.0.1, SpecsOf(ts).value.1)
  {
    hide ParseSpecs, Specifiers, V.Counted;
    V.SpecsCount(NO_SPECS, ts);
    var rest := ParseSpecs(NO_SPECS, ts).1;
    V.SpecifiersRead(ts, |ts| - |rest|, SpecsOf(ts).value.0.0, SpecsOf(ts).value.0.1);
  }

  lemma SpecsComplete(ts: Tokens, ty: Ty, sc: Storage, rest: Tokens)
    requires SpecsSpan(ts, ty, sc, rest)
    ensures SpecsOf(ts) == Some(((ty, sc), rest)) && |rest| < |ts| && IsDeclarationStart(ts[0])
  {
    hide ParseSpecs, Specifiers, SpecsOf;
    V.SpecifiersRead(ts, |ts| - |rest|, ty, sc);
    assert IsDeclarationStart(ts[..|ts| - |rest|][0]);
  }

  lemma Head(ts: Tokens)
    requires ts != []
    ensures ts == [ts[0]] + ts[1..]
    ensures |ts| > 1 ==> ts == [ts[0], ts[1]] + ts[2..] && ts[1..] == [ts[1]] + ts[2..]
  {
  }

  lemma {:induction false} DeclaratorSound(base: Ty, abstractAllowed: bool, ts: Tokens)
    requires ParseDeclarator(base, abstractAllowed, ts).Some?
    ensures var (d, rest) := ParseDeclarator(base, abstractAllowed, ts).value;
            DeclaratorSpan(ts, base, abstractAllowed, d, rest) && d == Bare(d) && (!d.isFunction && rest != [] ==> rest[0] != LParen)
    decreases |ts|, 2
  {
    hide ParseParams, ParamsSpan;
    var m := if ts != [] && ts[0].Identifier? then ts[1..] else ts;
    if m != [] && m[0] == LParen { ParamsSound(m[1..]); }
  }

  /** A declarator before its specifiers and initialiser are added. */
  function Bare(d: Declaration): Declaration {
    d.(sc := ScNone, isParameter := false, hasBody := false, init := None)
  }

  lemma BareSpan(ts: Tokens, base: Ty, abstractAllowed: bool, d: Declaration, rest: Tokens)
    ensures DeclaratorSpan(ts, base, abstractAllowed, d, rest) <==> DeclaratorSpan(ts, base, abstractAllowed, Bare(d), rest)
  {
    hide ParamsSpan;
  }

  lemma {:induction false} ParamsSound(ts: Tokens)
    requires ParseParams(ts).Some?
    ensures ParamsSpan(ts, ParseParams(ts).value.0, ParseParams(ts).value.1)
    decreases |ts|, 1
  {
    hide ParamList, ParamListSpan;
    if ts[0] == RParen { Head(ts); }
    else if |ts| > 1 && ts[0] == Word(KwVoid) && ts[1] == RParen { Head(ts); }
    else { ParamListSound(ts); }
  }

  lemma {:induction false} ParamListSound(ts: Tokens)
    requires ParamList(ts).Some?
    ensures ParamListSpan(ts, ParamList(ts).value.0, ParamList(ts).value.1) && ParamList(ts).value.0 != []
    decreases |ts|, 0
  {
    hide ParseParam, ParamSpan;
    ParamSound(ts);
    var (p, m) := ParseParam(ts).value;
    var (ps, rest) := ParamList(ts).value;
    if m[0] == Comma {
      ParamListSound(m[1..]);
      assert ps[1..] == ParamList(m[1..]).value.0;
    } else {
      Head(m);
    }
    assert ParamSpan(ts, ps[0], m) && |m| < |ts|;
  }

  lemma {:induction false} ParamSound(ts: Tokens)
    requires ParseParam(ts).Some?
    ensures ParamSpan(ts, ParseParam(ts).value.0, ParseParam(ts).value.1)
    decreases |ts|, -1
  {
    hide SpecsOf, ParseDeclarator, SpecsSpan, DeclaratorSpan;
    SpecsSound(ts);
    var ((base, sc), m) := SpecsOf(ts).value;
    DeclaratorSound(base, true, m);
    var (d, rest) := ParseDeclarator(base, true, m).value;
    var p := ParseParam(ts).value.0;
    BareSpan(m, base, true, d, rest);
    BareSpan(m, base, true, p, rest);
    assert Bare(p) == Bare(d);
    assert SpecsSpan(ts, base, p.sc, m) && |m| < |ts| && DeclaratorSpan(m, base, true, p, rest);
  }

  lemma InitSound(base: Ty, sc: Storage, ts: Tokens)
    requires ParseInitDeclarator(base, sc, ts).Some?
    ensures InitSpan(ts, base, sc, ParseInitDeclarator(base, sc, ts).value.0, ParseInitDeclarator(base, sc, ts).value.1)
  {
    hide ParseDeclarator, DeclaratorSpan, ParseE, ExprSpan;
    DeclaratorSound(base, false, ts);
    var (b, m) := ParseDeclarator(base, false, ts).value;
    var (d, rest) := ParseInitDeclarator(base, sc, ts).value;
    BareSpan(ts, base, false, b, m);
    BareSpan(ts, base, false, d, m);
    assert Bare(d) == Bare(b);
    if m != [] && m[0] == Becomes(None) {
      ExprSound(ASSIGNMENT, m[1..]);
      Head(m);
      assert DeclaratorSpan(ts, base, false, d, [Becomes(None)] + m[1..]) && ExprSpan(AssignmentExpr, m[1..], d.init.value, rest);
    }
  }

  lemma {:induction false} DeclListSound(base: Ty, sc: Storage, ts: Tokens)
    requires ParseDecls(base, sc, ts).Some?
    ensures DeclListSpan(ts, base, sc, ParseDecls(base, sc, ts).value.0, ParseDecls(base, sc, ts).value.1)
    ensures ParseDecls(base, sc, ts).value.0 != []
    decreases |ts|
  {
    hide ParseInitDeclarator, InitSpan;
    InitSound(base, sc, ts);
    var (d, m) := ParseInitDeclarator(base, sc, ts).value;
    var (ds, rest) := ParseDecls(base, sc, ts).value;
    if m[0] == Comma {
      DeclListSound(base, sc, m[1..]);
      assert ds[1..] == ParseDecls(base, sc, m[1..]).value.0;
    } else {
      Head(m);
    }
    assert InitSpan(ts, base, sc, ds[0], m);
  }

  lemma LocalSound(ts: Tokens, n: nat)
    requires ParseLocal(ts, n).Some?
    ensures var (r, rest, m) := ParseLocal(ts, n).value; r.SDecl? && DeclSpan(ts, r.decls, rest) && Number(r, n) == (r, m)
  {
    hide SpecsOf, ParseDecls, SpecsSpan, DeclListSpan;
    SpecsSound(ts);
    var ((base, sc), m) := SpecsOf(ts).value;
    DeclListSound(base, sc, m);
    assert SpecsSpan(ts, base, sc, m) && DeclListSpan(m, base, sc, ParseDecls(base, sc, m).value.0, ParseDecls(base, sc, m).value.1);
  }

  lemma ClosedSound(end: Token, ts: Tokens)
    ensures Closed(end, ts).Some? ==> CloseSpan(end, ts, Closed(end, ts).value.0, Closed(end, ts).value.1)
    ensures ClosedOptional(end, ts).Some? ==> OptSpan(end, ts, ClosedOptional(end, ts).value.0, ClosedOptional(end, ts).value.1)
  {
    hide ParseE, ExprSpan;
    if ts != [] { Head(ts); }
    if Closed(end, ts).Some? {
      ExprSound(ASSIGNMENT, ts);
      Head(ParseE(ASSIGNMENT, ts).value.1);
    }
  }

  lemma ParenSound(ts: Tokens)
    requires Paren(ts).Some?
    ensures ParenSpan(ts, Paren(ts).value.0, Paren(ts).value.1)
  {
    hide Closed, CloseSpan;
    ClosedSound(RParen, ts[1..]);
  }

  /** What the parser takes for a statement is one, numbered in source order, and no 'else' of its own follows. */
  ghost predicate Right(ts: Tokens, n: nat, p: Numbered<RStmt>) {
    p.Some? ==>
      var (r, rest, m) := p.value;
      StmtSpan(ts, r, rest) && MayFollow(r, rest) && Number(r, n) == (r, m)
  }

  lemma {:induction false} StmtSound(ts: Tokens, n: nat)
    ensures Right(ts, n, ParseS(ts, n))
    decreases |ts|, 3
  {
    hide ParseItems, ParseWord, Closed, CloseSpan, ItemsSpan;
    if ts != [] && !IsDeclarationStart(ts[0]) {
      Head(ts);
      if ts[0] == LBrace { BlockSound(ts[1..], n + 1); }
      else if ts[0] == Semicolon { }
      else if ts[0].Word? { WordSound(ts, n); }
      else if |ts| > 1 && ts[0].Identifier? && ts[1] == Colon { StmtSound(ts[2..], n + 1); }
      else { ClosedSound(Semicolon, ts); }
    }
  }

  lemma {:induction false} WordSound(ts: Tokens, n: nat)
    requires ts != [] && ts[0].Word?
    ensures Right(ts, n, ParseWord(ts[0].kw, ts[1..], n))
    decreases |ts|, 2
  {
    hide ParseE, ParseS, ParseIf, ParseDo, ParseFor, Paren, ClosedOptional, Right;
    match ts[0].kw
    case KwReturn => ReturnSound(ts, n);
    case KwIf => IfSound(ts, n);
    case KwWhile => GuardedSound(ts, n);
    case KwDo => DoSound(ts, n);
    case KwFor => ForSound(ts, n);
    case KwSwitch => GuardedSound(ts, n);
    case KwCase => CaseSound(ts, n);
    case KwDefault => DefaultSound(ts, n);
    case KwGoto => JumpSound(ts, n);
    case KwBreak => JumpSound(ts, n);
    case KwContinue => JumpSound(ts, n);
    case _ => NothingRight(ts, n);
  }

  lemma NothingRight(ts: Tokens, n: nat)
    ensures Right(ts, n, None)
  {
  }

  lemma ReturnSound(ts: Tokens, n: nat)
    requires ts != [] && ts[0] == Word(KwReturn)
    ensures Right(ts, n, ParseWord(KwReturn, ts[1..], n))
  {
    hide ClosedOptional, OptSpan;
    ClosedSound(Semicolon, ts[1..]);
  }

  lemma JumpSound(ts: Tokens, n: nat)
    requires ts != [] && ts[0].Word? && (ts[0].kw.KwGoto? || ts[0].kw.KwBreak? || ts[0].kw.KwContinue?)
    ensures Right(ts, n, ParseWord(ts[0].kw, ts[1..], n))
  {
    Head(ts);
    if ts[0].kw.KwGoto? { GotoSound(ts, n); }
  }

  lemma GotoSound(ts: Tokens, n: nat)
    requires ts != [] && ts[0] == Word(KwGoto)
    ensures Right(ts, n, ParseWord(KwGoto, ts[1..], n))
  {
    if |ts| > 2 {
      var rest := ts[1..][1..][1..];
      assert ts == [ts[0], ts[1], ts[2]] + rest;
    }
  }

  lemma {:induction false} GuardedSound(ts: Tokens, n: nat)
    requires ts != [] && ts[0].Word? && (ts[0].kw.KwWhile? || ts[0].kw.KwSwitch?)
    ensures Right(ts, n, ParseWord(ts[0].kw, ts[1..], n))
    decreases |ts|, 1
  {
    hide ParseS, Paren, ParenSpan;
    if Paren(ts[1..]).Some? {
      var (c, m) := Paren(ts[1..]).value;
      ParenSound(ts[1..]);
      StmtSound(m, n + 1);
      if ParseS(m, n + 1).Some? { assert ParenSpan(ts[1..], c, m) && StmtSpan(m, ParseS(m, n + 1).value.0, ParseS(m, n + 1).value.1); }
    }
  }

  lemma {:induction false} CaseSound(ts: Tokens, n: nat)
    requires ts != [] && ts[0] == Word(KwCase)
    ensures Right(ts, n, ParseWord(KwCase, ts[1..], n))
    decreases |ts|, 1
  {
    hide ParseS, ParseE, ExprSpan;
    if ParseWord(KwCase, ts[1..], n).Some? {
      var (e, m) := ParseE(TERNARY, ts[1..]).value;
      ExprSound(TERNARY, ts[1..]);
      Head(m);
      StmtSound(m[1..], n + 1);
      assert ExprSpan(ConditionalExpr, ts[1..], e, [Colon] + m[1..]);
    }
  }

  lemma {:induction false} DefaultSound(ts: Tokens, n: nat)
    requires ts != [] && ts[0] == Word(KwDefault)
    ensures Right(ts, n, ParseWord(KwDefault, ts[1..], n))
    decreases |ts|, 1
  {
    hide ParseS;
    if |ts| > 1 {
      Head(ts);
      StmtSound(ts[2..], n + 1);
    }
  }

  lemma {:induction false} IfSound(ts: Tokens, n: nat)
    requires ts != [] && ts[0] == Word(KwIf)
    ensures Right(ts, n, ParseIf(ts[1..], n))
    decreases |ts|, 1
  {
    hide ParseS, Paren, ParenSpan, Right;
    if ParseIf(ts[1..], n).Some? {
      var (c, m) := Paren(ts[1..]).value;
      ParenSound(ts[1..]);
      StmtSound(m, n + 1);
      var (a, k, i) := ParseS(m, n + 1).value;
      if k != [] && k[0] == Word(KwElse) {
        StmtSound(k[1..], i);
        ElseRight(ts, c, m, n);
      } else {
        IfRight(ts, c, m, n);
      }
    } else {
      NothingRight(ts, n);
    }
  }

  lemma IfRight(ts: Tokens, c: Raw, m: Tokens, n: nat)
    requires ts != [] && ts[0] == Word(KwIf) && ParenSpan(ts[1..], c, m) && Right(m, n + 1, ParseS(m, n + 1)) && ParseS(m, n + 1).Some?
    requires var k := ParseS(m, n + 1).value.1; k == [] || k[0] != Word(KwElse)
    ensures var (a, k, i) := ParseS(m, n + 1).value; Right(ts, n, Some((SIf(c, a, None), k, i)))
  {
    hide ParseS, ParenSpan;
  }

  lemma ElseRight(ts: Tokens, c: Raw, m: Tokens, n: nat)
    requires ts != [] && ts[0] == Word(KwIf) && ParenSpan(ts[1..], c, m) && Right(m, n + 1, ParseS(m, n + 1)) && ParseS(m, n + 1).Some?
    requires var (a, k, i) := ParseS(m, n + 1).value;
             k != [] && k[0] == Word(KwElse) && Right(k[1..], i, ParseS(k[1..], i)) && ParseS(k[1..], i).Some?
    ensures var (a, k, i) := ParseS(m, n + 1).value;
            var (b, rest, j) := ParseS(k[1..], i).value;
            Right(ts, n, Some((SIf(c, a, Some(b)), rest, j)))
  {
    hide ParseS, ParenSpan;
    var (a, k, _) := ParseS(m, n + 1).value;
    Head(k);
    assert StmtSpan(m, a, [Word(KwElse)] + k[1..]);
  }

  lemma {:induction false} DoSound(ts: Tokens, n: nat)
    requires ts != [] && ts[0] == Word(KwDo)
    ensures Right(ts, n, ParseDo(ts[1..], n))
    decreases |ts|, 1
  {
    hide ParseS, Paren, ParenSpan;
    if ParseDo(ts[1..], n).Some? {
      StmtSound(ts[1..], n + 1);
      var (b, k, i) := ParseS(ts[1..], n + 1).value;
      Head(k);
      ParenSound(k[1..]);
      Head(Paren(k[1..]).value.1);
      assert StmtSpan(ts[1..], b, [Word(KwWhile)] + k[1..]);
    }
  }

  lemma ForInitSound(ts: Tokens, n: nat)
    requires ParseForInit(ts, n).Some?
    ensures var (i, rest, m) := ParseForInit(ts, n).value; ForInitSpan(ts, i, rest) && m == if i.SNull? then n else n + 1
  {
    hide ParseLocal, Closed, CloseSpan, DeclSpan;
    if ts != [] { Head(ts); }
    if ts != [] && IsDeclarationStart(ts[0]) { LocalSound(ts, n); } else { ClosedSound(Semicolon, ts); }
  }

  lemma {:induction false} ForSound(ts: Tokens, n: nat)
    requires ts != [] && ts[0] == Word(KwFor)
    ensures Right(ts, n, ParseFor(ts[1..], n))
    decreases |ts|, 1
  {
    hide ParseS, ClosedOptional, ParseForInit, ForInitSpan, OptSpan;
    if ParseFor(ts[1..], n).Some? {
      Head(ts);
      var (i, x, j) := ParseForInit(ts[2..], n + 1).value;
      var (t, y) := ClosedOptional(Semicolon, x).value;
      var (p, z) := ClosedOptional(RParen, y).value;
      ForInitSound(ts[2..], n + 1);
      ClosedSound(Semicolon, x);
      ClosedSound(RParen, y);
      StmtSound(z, j);
      assert ForInitSpan(ts[2..], i, x) && OptSpan(Semicolon, x, t, y) && OptSpan(RParen, y, p, z);
    }
  }

  lemma {:induction false} BlockSound(ts: Tokens, n: nat)
    ensures var p := ParseItems(ts, n);
            p.Some? ==> ItemsSpan(ts, p.value.0, p.value.1) && NumberItems(p.value.0, n) == (p.value.0, p.value.2)
    decreases |ts|, 5
  {
    hide ParseS, ParseLocal, StmtSpan, DeclSpan, Number;
    if ts != [] {
      Head(ts);
      if ts[0] != RBrace && ParseItems(ts, n).Some? {
        var (i, m, k) := ParseItem(ts, n).value;
        if IsDeclarationStart(ts[0]) { LocalSound(ts, n); } else { StmtSound(ts, n); NoDeclaration(ts, i, m); }
        BlockSound(m, k);
        var (items, rest, j) := ParseItems(ts, n).value;
        assert items[1..] == ParseItems(m, k).value.0;
        assert ItemSpan(ts, items[0], m);
      }
    }
  }

  lemma NoDeclaration(ts: Tokens, r: RStmt, rest: Tokens)
    requires StmtSpan(ts, r, rest)
    ensures !r.SDecl?
  {
  }

  lemma TopSound(ts: Tokens, n: nat)
    requires ParseTop(ts, n).Some?
    ensures TopSpan(ts, ParseTop(ts, n).value.0, ParseTop(ts, n).value.1) && ParseTop(ts, n).value.0 != []
  {
    hide SpecsOf, ParseDecls, ParseInitDeclarator, ParseItems, SpecsSpan, InitSpan, DeclListSpan, ItemsSpan;
    SpecsSound(ts);
    var ((base, sc), m) := SpecsOf(ts).value;
    InitSound(base, sc, m);
    var (d, k) := ParseInitDeclarator(base, sc, m).value;
    var (items, rest, _) := ParseTop(ts, n).value;
    if d.isFunction && k != [] && k[0] == LBrace {
      BlockSound(k[1..], n + 2);
      Head(k);
      var x := items[0].decl.(hasBody := false);
      assert x == d && items[0].decl.sc == sc by { InitNoBody(m, base, sc, d, k); }
      assert SpecsSpan(ts, base, items[0].decl.sc, m) && InitSpan(m, base, items[0].decl.sc, x, [LBrace] + k[1..]) && ItemsSpan(k[1..], items[0].body, rest);
    } else {
      DeclListSound(base, sc, m);
      var ds := ParseDecls(base, sc, m).value.0;
      assert SpecsSpan(ts, base, sc, m) && DeclListSpan(m, base, sc, ds, rest);
      assert items == ItemsOf(ds) && DeclSpan(ts, ds, rest);
    }
  }

  lemma InitNoBody(ts: Tokens, base: Ty, sc: Storage, d: Declaration, rest: Tokens)
    requires InitSpan(ts, base, sc, d, rest)
    ensures !d.hasBody && d.(hasBody := true).(hasBody := false) == d && d.sc == sc
  {
    hide DeclaratorSpan;
  }

  /** What is parsed is a translation unit of the grammar. */
  lemma {:induction false} UnitSound(ts: Tokens, n: nat)
    requires ParseUnit(ts, n).Some?
    ensures UnitSpan(ts, ParseUnit(ts, n).value)
    decreases |ts|
  {
    hide ParseTop, TopSpan;
    if ts != [] {
      var (first, m, k) := ParseTop(ts, n).value;
      TopSound(ts, n);
      UnitSound(m, k);
      var more := ParseUnit(m, k).value;
      assert first != [] && first + more != [] && TopSpan(ts, first, m) && UnitSpan(m, more);
    }
  }

  lemma {:induction false} DeclaratorComplete(base: Ty, abstractAllowed: bool, ts: Tokens, d: Declaration, rest: Tokens)
    requires DeclaratorSpan(ts, base, abstractAllowed, d, rest) && (rest == [] || rest[0] != LParen)
    ensures ParseDeclarator(base, abstractAllowed, ts) == Some((Bare(d), rest))
    decreases |ts|, 3
  {
    hide ParseParams, ParamsSpan;
    var m := if ts != [] && ts[0].Identifier? then ts[1..] else ts;
    if d.isFunction {
      ParamsComplete(m[1..], d.params, rest);
      assert Bare(d) == FunctionOf(d.name, base, d.params);
    } else {
      assert Bare(d) == ObjectOf(d.name, base);
    }
  }

  lemma {:induction false} ParamsComplete(ts: Tokens, ps: seq<Declaration>, rest: Tokens)
    requires ParamsSpan(ts, ps, rest)
    ensures ParseParams(ts) == Some((ps, rest))
    decreases |ts|, 2
  {
    hide ParamList, ParamListSpan;
    if ps == [] {
      V.NoParameters(ts, rest);
    } else {
      ParamListComplete(ts, ps, rest);
    }
  }

  lemma {:induction false} ParamListComplete(ts: Tokens, ps: seq<Declaration>, rest: Tokens)
    requires ParamListSpan(ts, ps, rest)
    ensures ParamList(ts) == Some((ps, rest)) && ts != [] && IsDeclarationStart(ts[0])
    decreases |ts|, 1
  {
    hide ParseParam, ParamSpan;
    var m: Tokens :| ParamSpan(ts, ps[0], m) && |m| < |ts|
                     && if |ps| == 1 then m == [RParen] + rest else m != [] && m[0] == Comma && ParamListSpan(m[1..], ps[1..], rest);
    ParamComplete(ts, ps[0], m);
    if |ps| == 1 {
      assert m[1..] == rest && ps == [ps[0]];
    } else {
      ParamListComplete(m[1..], ps[1..], rest);
      assert ps == [ps[0]] + ps[1..];
    }
  }

  lemma {:induction false} ParamComplete(ts: Tokens, p: Declaration, rest: Tokens)
    requires ParamSpan(ts, p, rest) && rest != [] && rest[0] != LParen
    ensures ParseParam(ts) == Some((p, rest)) && ts != [] && IsDeclarationStart(ts[0])
    decreases |ts|, 0
  {
    hide SpecsOf, ParseDeclarator, SpecsSpan, DeclaratorSpan;
    var m, base :| SpecsSpan(ts, base, p.sc, m) && |m| < |ts| && DeclaratorSpan(m, base, true, p, rest);
    SpecsComplete(ts, base, p.sc, m);
    DeclaratorComplete(base, true, m, p, rest);
    assert Bare(p).(sc := p.sc, isParameter := true) == p;
  }

  predicate EndsDeclarator(t: Token) {
    t == Comma || t == Semicolon || t == LBrace
  }

  lemma InitComplete(base: Ty, sc: Storage, ts: Tokens, d: Declaration, rest: Tokens)
    requires InitSpan(ts, base, sc, d, rest) && rest != [] && EndsDeclarator(rest[0])
    ensures ParseInitDeclarator(base, sc, ts) == Some((d, rest))
  {
    hide ParseDeclarator, DeclaratorSpan, ParseE, ExprSpan;
    if d.init.None? {
      DeclaratorComplete(base, false, ts, d, rest);
      assert Bare(d).(sc := sc) == d;
    } else {
      var m :| DeclaratorSpan(ts, base, false, d, [Becomes(None)] + m) && ExprSpan(AssignmentExpr, m, d.init.value, rest);
      DeclaratorComplete(base, false, ts, d, [Becomes(None)] + m);
      assert ([Becomes(None)] + m)[1..] == m;
      ExprComplete(AssignmentExpr, m, d.init.value, rest);
      assert Bare(d).(sc := sc, init := Some(d.init.value)) == d;
    }
  }

  lemma {:induction false} DeclListComplete(base: Ty, sc: Storage, ts: Tokens, ds: seq<Declaration>, rest: Tokens)
    requires DeclListSpan(ts, base, sc, ds, rest)
    ensures ParseDecls(base, sc, ts) == Some((ds, rest))
    decreases |ds|
  {
    hide ParseInitDeclarator, InitSpan;
    var m: Tokens :| InitSpan(ts, base, sc, ds[0], m)
                     && if |ds| == 1 then m == [Semicolon] + rest else m != [] && m[0] == Comma && DeclListSpan(m[1..], base, sc, ds[1..], rest);
    InitComplete(base, sc, ts, ds[0], m);
    if |ds| == 1 {
      assert m[1..] == rest && ds == [ds[0]];
    } else {
      DeclListComplete(base, sc, m[1..], ds[1..], rest);
      assert ds == [ds[0]] + ds[1..];
    }
  }

  lemma LocalComplete(ts: Tokens, ds: seq<Declaration>, rest: Tokens, n: nat)
    requires DeclSpan(ts, ds, rest)
    ensures ParseLocal(ts, n) == Some((SDecl(ds), rest, n + 1)) && ts != [] && IsDeclarationStart(ts[0])
  {
    hide SpecsOf, ParseDecls, SpecsSpan, DeclListSpan;
    var m, base, sc :| SpecsSpan(ts, base, sc, m) && DeclListSpan(m, base, sc, ds, rest);
    SpecsComplete(ts, base, sc, m);
    DeclListComplete(base, sc, m, ds, rest);
  }

  lemma CloseComplete(end: Token, ts: Tokens, e: Raw, rest: Tokens)
    requires CloseSpan(end, ts, e, rest) && (end == Semicolon || end == RParen)
    ensures Closed(end, ts) == Some((e, rest)) && ts != [] && Starts(ts[0])
  {
    hide ParseE, ExprSpan;
    ExprComplete(AssignmentExpr, ts, e, [end] + rest);
    assert ([end] + rest)[1..] == rest;
  }

  lemma OptComplete(end: Token, ts: Tokens, e: Option<Raw>, rest: Tokens)
    requires OptSpan(end, ts, e, rest) && (end == Semicolon || end == RParen)
    ensures ClosedOptional(end, ts) == Some((e, rest))
  {
    hide Closed, CloseSpan;
    if e.None? { assert ts[1..] == rest; } else { CloseComplete(end, ts, e.value, rest); }
  }

  lemma ParenComplete(ts: Tokens, e: Raw, rest: Tokens)
    requires ParenSpan(ts, e, rest)
    ensures Paren(ts) == Some((e, rest))
  {
    hide Closed, CloseSpan;
    CloseComplete(RParen, ts[1..], e, rest);
  }

  /** A statement of the grammar is read as its tree, numbered in source order. */
  lemma {:induction false} StmtComplete(ts: Tokens, r: RStmt, rest: Tokens, n: nat)
    requires StmtSpan(ts, r, rest) && MayFollow(r, rest)
    ensures ParseS(ts, n) == Some((Number(r, n).0, rest, Number(r, n).1)) && ts != [] && !IsDeclarationStart(ts[0]) && ts[0] != RBrace
    decreases r, 5
  {
    hide ParseS, StmtSpan, Number, MayFollow;
    if r.SNull? { NullComplete(ts, rest, n); }
    else if r.SExpr? { ExprStmtComplete(ts, r, rest, n); }
    else if r.SBlock? { BlockStmtComplete(ts, r, rest, n); }
    else if r.SLabel? { LabelComplete(ts, r, rest, n); }
    else { NoDeclaration(ts, r, rest); WordComplete(ts, r, rest, n); }
  }

  lemma NullComplete(ts: Tokens, rest: Tokens, n: nat)
    requires StmtSpan(ts, SNull, rest)
    ensures ParseS(ts, n) == Some((Number(SNull, n).0, rest, Number(SNull, n).1)) && ts != [] && !IsDeclarationStart(ts[0]) && ts[0] != RBrace
  {
    assert ts[1..] == rest;
  }

  lemma {:induction false} BlockStmtComplete(ts: Tokens, r: RStmt, rest: Tokens, n: nat)
    requires r.SBlock? && StmtSpan(ts, r, rest)
    ensures ParseS(ts, n) == Some((Number(r, n).0, rest, Number(r, n).1)) && ts != [] && !IsDeclarationStart(ts[0]) && ts[0] != RBrace
    decreases r, 4
  {
    hide ParseItems, ItemsSpan, NumberItems;
    BlockComplete(ts[1..], r.items, rest, n + 1);
  }

  lemma {:induction false} LabelComplete(ts: Tokens, r: RStmt, rest: Tokens, n: nat)
    requires r.SLabel? && StmtSpan(ts, r, rest) && MayFollow(r, rest)
    ensures ParseS(ts, n) == Some((Number(r, n).0, rest, Number(r, n).1)) && ts != [] && !IsDeclarationStart(ts[0]) && ts[0] != RBrace
    decreases r, 4
  {
    hide ParseItems, ParseWord;
    StmtComplete(ts[2..], r.stmt, rest, n + 1);
  }

  lemma ExprStmtComplete(ts: Tokens, r: RStmt, rest: Tokens, n: nat)
    requires r.SExpr? && StmtSpan(ts, r, rest)
    ensures ParseS(ts, n) == Some((Number(r, n).0, rest, Number(r, n).1)) && ts != [] && !IsDeclarationStart(ts[0]) && ts[0] != RBrace
  {
    hide ParseItems, ParseWord, Closed, Derives;
    CloseComplete(Semicolon, ts, r.e, rest);
    var k := |ts| - |rest| - 1;
    assert ts[k..] == [Semicolon] + rest && ts[k] == Semicolon;
    DerivesSecond(AssignmentExpr, ts[..k], r.e);
  }

  predicate WordStmt(r: RStmt) {
    !r.SNull? && !r.SExpr? && !r.SBlock? && !r.SLabel? && !r.SDecl?
  }

  lemma {:induction false} WordComplete(ts: Tokens, r: RStmt, rest: Tokens, n: nat)
    requires StmtSpan(ts, r, rest) && MayFollow(r, rest) && WordStmt(r)
    ensures ParseS(ts, n) == Some((Number(r, n).0, rest, Number(r, n).1)) && ts != [] && !IsDeclarationStart(ts[0]) && ts[0] != RBrace
    decreases r, 4
  {
    hide ParseItems, ParseWord, Closed, Number, MayFollow;
    AfterComplete(ts, r, rest, n);
  }

  lemma {:induction false} AfterComplete(ts: Tokens, r: RStmt, rest: Tokens, n: nat)
    requires StmtSpan(ts, r, rest) && MayFollow(r, rest) && WordStmt(r)
    ensures ts != [] && ts[0].Word? && !IsDeclarationStart(ts[0])
    ensures ParseWord(ts[0].kw, ts[1..], n) == Some((Number(r, n).0, rest, Number(r, n).1))
    decreases r, 3
  {
    hide ParseWord, ParseIf, ParseDo, ParseFor, StmtSpan, MayFollow, Number;
    match r
    case SReturn(_) => SimpleComplete(ts, r, rest, n);
    case SIf(_, _, _) => IfComplete(ts, r, rest, n); WordIs(ts[1..], n);
    case SFor(_, _, _, _, _) => ForComplete(ts, r, rest, n); WordIs(ts[1..], n);
    case SWhile(_, _, _) => GuardedComplete(ts, r, rest, n);
    case SDoWhile(_, _, _) => DoComplete(ts, r, rest, n); WordIs(ts[1..], n);
    case SSwitch(_, _, _) => GuardedComplete(ts, r, rest, n);
    case SCase(_, _, _) => CaseComplete(ts, r, rest, n);
    case SDefault(_, _) => SimpleComplete(ts, r, rest, n);
    case _ => JumpComplete(ts, r, rest, n);
  }

  lemma WordIs(ts: Tokens, n: nat)
    ensures ParseWord(KwIf, ts, n) == ParseIf(ts, n) && ParseWord(KwFor, ts, n) == ParseFor(ts, n) && ParseWord(KwDo, ts, n) == ParseDo(ts, n)
    ensures !IsDeclarationStart(Word(KwIf)) && !IsDeclarationStart(Word(KwFor)) && !IsDeclarationStart(Word(KwDo)) && !IsDeclarationStart(Word(KwCase))
  {
    hide ParseIf, ParseFor, ParseDo;
  }

  lemma {:induction false} SimpleComplete(ts: Tokens, r: RStmt, rest: Tokens, n: nat)
    requires StmtSpan(ts, r, rest) && MayFollow(r, rest) && (r.SReturn? || r.SDefault?)
    ensures ts != [] && ts[0].Word? && !IsDeclarationStart(ts[0])
    ensures ParseWord(ts[0].kw, ts[1..], n) == Some((Number(r, n).0, rest, Number(r, n).1))
    decreases r, 2
  {
    hide ParseS, ClosedOptional, OptSpan;
    if r.SReturn? {
      OptComplete(Semicolon, ts[1..], r.result, rest);
    } else {
      assert ts[1..][1..] == ts[2..];
      StmtComplete(ts[2..], r.stmt, rest, n + 1);
    }
  }

  lemma JumpComplete(ts: Tokens, r: RStmt, rest: Tokens, n: nat)
    requires StmtSpan(ts, r, rest) && (r.SBreak? || r.SContinue? || r.SGoto?)
    ensures ts != [] && ts[0].Word? && !IsDeclarationStart(ts[0])
    ensures ParseWord(ts[0].kw, ts[1..], n) == Some((Number(r, n).0, rest, Number(r, n).1))
  {
    if r.SGoto? {
      GotoWord(r.name, rest, n);
      assert ts[1..] == [Identifier(r.name), Semicolon] + rest;
    } else {
      LeaveWord(rest, n);
      assert ts[1..] == [Semicolon] + rest;
    }
  }

  lemma GotoWord(name: string, rest: Tokens, n: nat)
    ensures ParseWord(KwGoto, [Identifier(name), Semicolon] + rest, n) == Some((SGoto(name), rest, n + 1))
  {
    var ts := [Identifier(name), Semicolon] + rest;
    assert ts[1..] == [Semicolon] + rest && ts[1..][1..] == rest;
  }

  lemma LeaveWord(rest: Tokens, n: nat)
    ensures ParseWord(KwBreak, [Semicolon] + rest, n) == Some((SBreak, rest, n + 1))
    ensures ParseWord(KwContinue, [Semicolon] + rest, n) == Some((SContinue, rest, n + 1))
  {
    assert ([Semicolon] + rest)[1..] == rest;
  }

  lemma {:induction false} GuardedComplete(ts: Tokens, r: RStmt, rest: Tokens, n: nat)
    requires StmtSpan(ts, r, rest) && MayFollow(r, rest) && (r.SWhile? || r.SSwitch?)
    ensures ts != [] && ts[0].Word? && !IsDeclarationStart(ts[0])
    ensures ParseWord(ts[0].kw, ts[1..], n) == Some((Number(r, n).0, rest, Number(r, n).1))
    decreases r, 2
  {
    hide ParseS, ParseWord, Paren, ParenSpan;
    var m :| ParenSpan(ts[1..], r.cond, m) && StmtSpan(m, r.body, rest);
    ParenComplete(ts[1..], r.cond, m);
    StmtComplete(m, r.body, rest, n + 1);
    GuardedWord(ts[1..], r.cond, m, n);
  }

  lemma GuardedWord(ts: Tokens, c: Raw, m: Tokens, n: nat)
    requires Paren(ts) == Some((c, m)) && ParseS(m, n + 1).Some?
    ensures var (b, rest, k) := ParseS(m, n + 1).value;
            ParseWord(KwWhile, ts, n) == Some((SWhile(n, c, b), rest, k)) && ParseWord(KwSwitch, ts, n) == Some((SSwitch(n, c, b), rest, k))
  {
    hide ParseS, Paren;
  }

  lemma {:induction false} CaseComplete(ts: Tokens, r: RStmt, rest: Tokens, n: nat)
    requires StmtSpan(ts, r, rest) && MayFollow(r, rest) && r.SCase?
    ensures ts != [] && ts[0] == Word(KwCase) && ParseWord(KwCase, ts[1..], n) == Some((Number(r, n).0, rest, Number(r, n).1))
    decreases r, 2
  {
    hide ParseS, ParseE, ParseWord, ExprSpan;
    var m :| ExprSpan(ConditionalExpr, ts[1..], r.e, [Colon] + m) && StmtSpan(m, r.stmt, rest);
    ExprComplete(ConditionalExpr, ts[1..], r.e, [Colon] + m);
    StmtComplete(m, r.stmt, rest, n + 1);
    CaseWord(ts[1..], r.e, m, n);
  }

  lemma CaseWord(ts: Tokens, e: Raw, m: Tokens, n: nat)
    requires ParseE(TERNARY, ts) == Some((e, [Colon] + m)) && ParseS(m, n + 1).Some?
    ensures var (b, rest, k) := ParseS(m, n + 1).value; ParseWord(KwCase, ts, n) == Some((SCase(n, e, b), rest, k))
  {
    hide ParseS, ParseE;
    assert ([Colon] + m)[1..] == m;
  }

  lemma {:induction false} IfComplete(ts: Tokens, r: RStmt, rest: Tokens, n: nat)
    requires StmtSpan(ts, r, rest) && MayFollow(r, rest) && r.SIf?
    ensures ts != [] && ts[0] == Word(KwIf) && ParseIf(ts[1..], n) == Some((Number(r, n).0, rest, Number(r, n).1))
    decreases r, 2
  {
    hide ParseS, Paren, ParenSpan, ParseIf;
    if r.els.None? {
      var m :| ParenSpan(ts[1..], r.cond, m) && StmtSpan(m, r.thn, rest);
      ParenComplete(ts[1..], r.cond, m);
      StmtComplete(m, r.thn, rest, n + 1);
      IfWord(ts[1..], r.cond, m, n);
    } else {
      ElseComplete(ts, r, rest, n);
    }
  }

  lemma {:induction false} ElseComplete(ts: Tokens, r: RStmt, rest: Tokens, n: nat)
    requires StmtSpan(ts, r, rest) && MayFollow(r, rest) && r.SIf? && r.els.Some?
    ensures ts != [] && ts[0] == Word(KwIf) && ParseIf(ts[1..], n) == Some((Number(r, n).0, rest, Number(r, n).1))
    decreases r, 1
  {
    hide ParseS, Paren, ParenSpan, ParseIf;
    var m :| ParenSpan(ts[1..], r.cond, m) && exists k :: StmtSpan(m, r.thn, [Word(KwElse)] + k) && StmtSpan(k, r.els.value, rest);
    var k :| StmtSpan(m, r.thn, [Word(KwElse)] + k) && StmtSpan(k, r.els.value, rest);
    ParenComplete(ts[1..], r.cond, m);
    StmtComplete(m, r.thn, [Word(KwElse)] + k, n + 1);
    assert ([Word(KwElse)] + k)[1..] == k;
    StmtComplete(k, r.els.value, rest, Number(r.thn, n + 1).1);
    IfWord(ts[1..], r.cond, m, n);
  }

  lemma IfWord(ts: Tokens, c: Raw, m: Tokens, n: nat)
    requires Paren(ts) == Some((c, m)) && ParseS(m, n + 1).Some?
    ensures var (a, k, i) := ParseS(m, n + 1).value;
            && (k == [] || k[0] != Word(KwElse) ==> ParseIf(ts, n) == Some((SIf(c, a, None), k, i)))
            && (k != [] && k[0] == Word(KwElse) && ParseS(k[1..], i).Some? ==>
                  ParseIf(ts, n) == Some((SIf(c, a, Some(ParseS(k[1..], i).value.0)), ParseS(k[1..], i).value.1, ParseS(k[1..], i).value.2)))
  {
    hide ParseS, Paren;
  }

  lemma {:induction false} DoComplete(ts: Tokens, r: RStmt, rest: Tokens, n: nat)
    requires StmtSpan(ts, r, rest) && r.SDoWhile?
    ensures ts != [] && ts[0] == Word(KwDo) && ParseDo(ts[1..], n) == Some((Number(r, n).0, rest, Number(r, n).1))
    decreases r, 2
  {
    hide ParseS, ParseDo, Paren, ParenSpan;
    var m :| StmtSpan(ts[1..], r.body, [Word(KwWhile)] + m) && ParenSpan(m, r.cond, [Semicolon] + rest);
    StmtComplete(ts[1..], r.body, [Word(KwWhile)] + m, n + 1);
    ParenComplete(m, r.cond, [Semicolon] + rest);
    DoWord(ts[1..], m, r.cond, rest, n);
  }

  lemma DoWord(ts: Tokens, m: Tokens, c: Raw, rest: Tokens, n: nat)
    requires ParseS(ts, n + 1).Some? && ParseS(ts, n + 1).value.1 == [Word(KwWhile)] + m && Paren(m) == Some((c, [Semicolon] + rest))
    ensures var (b, _, k) := ParseS(ts, n + 1).value; ParseDo(ts, n) == Some((SDoWhile(n, c, b), rest, k))
  {
    hide ParseS, Paren;
    assert ([Word(KwWhile)] + m)[1..] == m && ([Semicolon] + rest)[1..] == rest;
  }

  lemma ForInitComplete(ts: Tokens, i: RStmt, rest: Tokens, n: nat)
    requires ForInitSpan(ts, i, rest)
    ensures ParseForInit(ts, n) == Some((i, rest, if i.SNull? then n else n + 1))
  {
    hide ParseLocal, Closed, CloseSpan, DeclSpan;
    match i
    case SNull => assert ts[1..] == rest;
    case SExpr(e) => CloseComplete(Semicolon, ts, e, rest);
    case SDecl(ds) => LocalComplete(ts, ds, rest, n);
  }

  lemma {:induction false} ForComplete(ts: Tokens, r: RStmt, rest: Tokens, n: nat)
    requires StmtSpan(ts, r, rest) && MayFollow(r, rest) && r.SFor?
    ensures ts != [] && ts[0] == Word(KwFor) && ParseFor(ts[1..], n) == Some((Number(r, n).0, rest, Number(r, n).1))
    decreases r, 2
  {
    hide ParseS, ClosedOptional, ParseForInit, ForInitSpan, OptSpan;
    var x, y, z :| ForInitSpan(ts[2..], r.init, x) && OptSpan(Semicolon, x, r.test, y) && OptSpan(RParen, y, r.post, z) && StmtSpan(z, r.body, rest);
    assert ts[1..][1..] == ts[2..];
    ForInitComplete(ts[2..], r.init, x, n + 1);
    OptComplete(Semicolon, x, r.test, y);
    OptComplete(RParen, y, r.post, z);
    StmtComplete(z, r.body, rest, if r.init.SNull? then n + 1 else n + 2);
  }

  lemma {:induction false} BlockComplete(ts: Tokens, items: seq<RStmt>, rest: Tokens, n: nat)
    requires ItemsSpan(ts, items, rest)
    ensures ParseItems(ts, n) == Some((NumberItems(items, n).0, rest, NumberItems(items, n).1)) && ts != [] && ts[0] != Word(KwElse)
    decreases items, 0
  {
    hide ParseS, ParseLocal, StmtSpan, DeclSpan, Number;
    if items == [] {
      assert ts[1..] == rest;
    } else {
      var i := items[0];
      var m :| ItemSpan(ts, i, m) && ItemsSpan(m, items[1..], rest);
      BlockComplete(m, items[1..], rest, Number(i, n).1);
      if i.SDecl? {
        LocalComplete(ts, i.decls, m, n);
        assert Number(i, n) == (i, n + 1) by { NumberDecl(i, n); }
      } else {
        StmtComplete(ts, i, m, n);
        NoElse(ts, i, m);
      }
    }
  }

  lemma NumberDecl(i: RStmt, n: nat)
    requires i.SDecl?
    ensures Number(i, n) == (i, n + 1)
  {
  }

  lemma NoElse(ts: Tokens, r: RStmt, rest: Tokens)
    requires StmtSpan(ts, r, rest) && ts != []
    ensures ts[0] != Word(KwElse)
  {
    hide Derives, ItemsSpan, ParenSpan, OptSpan, ForInitSpan;
    if r.SExpr? { CloseComplete(Semicolon, ts, r.e, rest); }
  }

  /** Numbering forgets the old numbers. */
  lemma {:induction false} Renumbered(r: RStmt, n: nat, m: nat)
    ensures Number(Number(r, n).0, m) == Number(r, m)
    decreases r, 1
  {
    match r
    case SBlock(items) => ItemsRenumbered(items, n + 1, m + 1);
    case SIf(_, a, b) =>
      Renumbered(a, n + 1, m + 1);
      if b.Some? { Renumbered(b.value, Number(a, n + 1).1, Number(a, m + 1).1); }
    case SFor(_, i, _, _, b) => Renumbered(b, if i.SNull? then n + 1 else n + 2, if i.SNull? then m + 1 else m + 2);
    case SWhile(_, _, b) => Renumbered(b, n + 1, m + 1);
    case SDoWhile(_, _, b) => Renumbered(b, n + 1, m + 1);
    case SSwitch(_, _, b) => Renumbered(b, n + 1, m + 1);
    case SCase(_, _, b) => Renumbered(b, n + 1, m + 1);
    case SDefault(_, b) => Renumbered(b, n + 1, m + 1);
    case SLabel(_, _, b) => Renumbered(b, n + 1, m + 1);
    case _ =>
  }

  lemma {:induction false} ItemsRenumbered(items: seq<RStmt>, n: nat, m: nat)
    ensures NumberItems(NumberItems(items, n).0, m) == NumberItems(items, m)
    decreases items, 0
  {
    hide Number;
    if items != [] {
      Renumbered(items[0], n, m);
      ItemsRenumbered(items[1..], Number(items[0], n).1, Number(items[0], m).1);
      var xs := NumberItems(items, n).0;
      assert xs[0] == Number(items[0], n).0 && xs[1..] == NumberItems(items[1..], Number(items[0], n).1).0;
    }
  }

  /** The same up to the numbers of their statements. */
  predicate Alike(a: seq<Item>, b: seq<Item>) {
    |a| == |b| && forall k :: 0 <= k < |a| ==> NumberTop(a[k], 0).0 == NumberTop(b[k], 0).0
  }

  lemma TopComplete(ts: Tokens, items: seq<Item>, rest: Tokens, n: nat)
    requires TopSpan(ts, items, rest) && items != []
    ensures ParseTop(ts, n).Some? && ParseTop(ts, n).value.1 == rest && Alike(ParseTop(ts, n).value.0, items) && ts != []
  {
    hide SpecsSpan, InitSpan, DeclSpan, ItemsSpan, ParseTop, Alike;
    if ds: seq<Declaration> :| items == ItemsOf(ds) && DeclSpan(ts, ds, rest) {
      DeclTopComplete(ts, ds, rest, n);
    } else {
      FunctionTopComplete(ts, items, rest, n);
    }
  }

  lemma DeclTopComplete(ts: Tokens, ds: seq<Declaration>, rest: Tokens, n: nat)
    requires DeclSpan(ts, ds, rest)
    ensures ts != [] && ParseTop(ts, n).Some? && ParseTop(ts, n).value.1 == rest && Alike(ParseTop(ts, n).value.0, ItemsOf(ds))
  {
    hide SpecsOf, ParseDecls, ParseInitDeclarator, SpecsSpan, InitSpan, NumberTop, ParseItems;
    var m, base, sc :| SpecsSpan(ts, base, sc, m) && DeclListSpan(m, base, sc, ds, rest);
    SpecsComplete(ts, base, sc, m);
    DeclListComplete(base, sc, m, ds, rest);
    var k: Tokens :| InitSpan(m, base, sc, ds[0], k)
                     && if |ds| == 1 then k == [Semicolon] + rest else k != [] && k[0] == Comma && DeclListSpan(k[1..], base, sc, ds[1..], rest);
    InitComplete(base, sc, m, ds[0], k);
  }

  lemma FunctionTopComplete(ts: Tokens, items: seq<Item>, rest: Tokens, n: nat)
    requires |items| == 1 && items[0].decl.hasBody && items[0].decl.isFunction
    requires exists m, k, base :: SpecsSpan(ts, base, items[0].decl.sc, m)
                                  && InitSpan(m, base, items[0].decl.sc, items[0].decl.(hasBody := false), [LBrace] + k)
                                  && ItemsSpan(k, items[0].body, rest)
    ensures ts != [] && ParseTop(ts, n).Some? && ParseTop(ts, n).value.1 == rest && Alike(ParseTop(ts, n).value.0, items)
  {
    hide SpecsOf, ParseDecls, ParseInitDeclarator, SpecsSpan, InitSpan, ItemsSpan, ParseItems, NumberItems;
    var i := items[0];
    var d := i.decl.(hasBody := false);
    var m, k, base :| SpecsSpan(ts, base, i.decl.sc, m) && InitSpan(m, base, i.decl.sc, d, [LBrace] + k) && ItemsSpan(k, i.body, rest);
    SpecsComplete(ts, base, i.decl.sc, m);
    InitComplete(base, i.decl.sc, m, d, [LBrace] + k);
    assert ([LBrace] + k)[1..] == k;
    BlockComplete(k, i.body, rest, n + 2);
    ItemsRenumbered(i.body, n + 2, 2);
    assert d.(hasBody := true) == i.decl;
  }

  /** Every translation unit of the grammar is parsed, as its tree. */
  lemma {:induction false} UnitComplete(ts: Tokens, items: seq<Item>, n: nat)
    requires UnitSpan(ts, items)
    ensures ParseUnit(ts, n).Some? && Alike(ParseUnit(ts, n).value, items)
    decreases |items|
  {
    hide ParseTop, TopSpan, NumberTop;
    if items != [] {
      var first, more, m :| first != [] && items == first + more && TopSpan(ts, first, m) && UnitSpan(m, more);
      TopComplete(ts, first, m, n);
      UnitComplete(m, more, ParseTop(ts, n).value.2);
    }
  }

  /** The parser and the grammar agree on whole files: a token list is parsed if and only if it is a translation unit,
      and then as the only tree it has, up to the numbers of its statements. */
  lemma ParsesUnits(ts: Tokens, n: nat)
    ensures ParseUnit(ts, n).Some? <==> exists items :: UnitSpan(ts, items)
    ensures ParseUnit(ts, n).Some? ==> forall items :: UnitSpan(ts, items) ==> Alike(ParseUnit(ts, n).value, items)
  {
    hide ParseUnit, UnitSpan, Alike;
    if ParseUnit(ts, n).Some? { UnitSound(ts, n); }
    forall items | UnitSpan(ts, items) ensures ParseUnit(ts, n).Some? && Alike(ParseUnit(ts, n).value, items) { UnitComplete(ts, items, n); }
  }
}
