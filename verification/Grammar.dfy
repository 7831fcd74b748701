/** Statements, declarations and translation units: what the parser reads when nothing is wrong. */
module Grammar {
  import opened Arith
  import opened Ast
  import opened Syntax
  import opened Pratt

  /** A declaration's type and storage class. */
  function SpecsOf(ts: Tokens): (r: Parsed<(Ty, Storage)>)
    ensures r.Some? ==> |r.value.1| < |ts| && !r.value.0.0.Function?
  {
    var (s, rest) := ParseSpecs(NO_SPECS, ts);
    if s.twice || SpecType(s).None? then None
    else assert |rest| < |ts| by { SpecsTaken(ts); } Some(((SpecType(s).value, s.sc), rest))
  }

  lemma SpecsTaken(ts: Tokens)
    ensures SpecType(ParseSpecs(NO_SPECS, ts).0).Some? ==> |ParseSpecs(NO_SPECS, ts).1| < |ts|
  {
    if ts != [] && IsDeclarationStart(ts[0]) {
      assert ParseSpecs(NO_SPECS, ts) == ParseSpecs(AddSpec(NO_SPECS, ts[0]), ts[1..]);
    }
  }

  function Types(ps: seq<Declaration>): (tys: seq<Ty>)
    ensures |tys| == |ps| && forall k :: 0 <= k < |ps| ==> tys[k] == ps[k].ty
  {
    if ps == [] then [] else [ps[0].ty] + Types(ps[1..])
  }

  function ObjectOf(name: string, base: Ty): Declaration {
    Declaration(name, false, base, ScNone, false, false, None, [])
  }

  function FunctionOf(name: string, base: Ty, ps: seq<Declaration>): Declaration {
    Declaration(name, true, Function(base, Types(ps)), ScNone, false, false, None, ps)
  }

  /** A name, which only a parameter may leave out, and the parameters of a function. */
  function ParseDeclarator(base: Ty, abstractAllowed: bool, ts: Tokens): (r: Parsed<Declaration>)
    ensures r.Some? ==> |r.value.1| <= |ts|
    decreases |ts|, 2
  {
    var named := ts != [] && ts[0].Identifier?;
    if !named && !abstractAllowed then None
    else
      var name, rest := if named then ts[0].name else "", if named then ts[1..] else ts;
      if rest != [] && rest[0] == LParen then
        var ps := ParseParams(rest[1..]);
        if ps.None? then None else Some((FunctionOf(name, base, ps.value.0), ps.value.1))
      else Some((ObjectOf(name, base), rest))
  }

  /** Parameters up to and including the closing parenthesis. */
  function ParseParams(ts: Tokens): (r: Parsed<seq<Declaration>>)
    ensures r.Some? ==> |r.value.1| < |ts|
    decreases |ts|, 1
  {
    if ts != [] && ts[0] == RParen then Some(([], ts[1..]))
    else if |ts| > 1 && ts[0] == Word(KwVoid) && ts[1] == RParen then Some(([], ts[2..]))
    else ParamList(ts)
  }

  function ParseParam(ts: Tokens): (r: Parsed<Declaration>)
    ensures r.Some? ==> |r.value.1| < |ts|
    decreases |ts|, -1
  {
    var s := SpecsOf(ts);
    if s.None? then None else
    var d := ParseDeclarator(s.value.0.0, true, s.value.1);
    if d.None? then None else Some((d.value.0.(sc := s.value.0.1, isParameter := true), d.value.1))
  }

  function ParamList(ts: Tokens): (r: Parsed<seq<Declaration>>)
    ensures r.Some? ==> |r.value.1| < |ts|
    decreases |ts|, 0
  {
    var p := ParseParam(ts);
    if p.None? || p.value.1 == [] then None
    else if p.value.1[0] == Comma then
      var rest := ParamList(p.value.1[1..]);
      if rest.None? then None else Some(([p.value.0] + rest.value.0, rest.value.1))
    else if p.value.1[0] == RParen then Some(([p.value.0], p.value.1[1..]))
    else None
  }

  /** A declarator with its initialiser, which a function has not. */
  function ParseInitDeclarator(base: Ty, sc: Storage, ts: Tokens): (r: Parsed<Declaration>)
    ensures r.Some? ==> |r.value.1| <= |ts|
  {
    var d := ParseDeclarator(base, false, ts);
    if d.None? then None
    else if d.value.1 != [] && d.value.1[0] == Becomes(None) then
      if d.value.0.isFunction then None else
      var e := ParseE(ASSIGNMENT, d.value.1[1..]);
      if e.None? then None else Some((d.value.0.(sc := sc, init := Some(e.value.0)), e.value.1))
    else Some((d.value.0.(sc := sc), d.value.1))
  }

  /** Declarators up to and including the semicolon. */
  function ParseDecls(base: Ty, sc: Storage, ts: Tokens): (r: Parsed<seq<Declaration>>)
    ensures r.Some? ==> |r.value.1| < |ts|
    decreases |ts|
  {
    var d := ParseInitDeclarator(base, sc, ts);
    if d.None? || d.value.1 == [] then None
    else if d.value.1[0] == Comma then
      var rest := ParseDecls(base, sc, d.value.1[1..]);
      if rest.None? then None else Some(([d.value.0] + rest.value.0, rest.value.1))
    else if d.value.1[0] == Semicolon then Some(([d.value.0], d.value.1[1..]))
    else None
  }

  /** A parsed phrase, what is left, and the next statement number. */
  type Numbered<T> = Option<(T, Tokens, nat)>

  function ParseLocal(ts: Tokens, n: nat): (r: Numbered<RStmt>)
    ensures r.Some? ==> |r.value.1| < |ts|
  {
    var s := SpecsOf(ts);
    if s.None? then None else
    var ds := ParseDecls(s.value.0.0, s.value.0.1, s.value.1);
    if ds.None? then None else Some((SDecl(ds.value.0), ds.value.1, n + 1))
  }

  function Paren(ts: Tokens): (r: Parsed<Raw>)
    ensures r.Some? ==> |r.value.1| < |ts|
  {
    var open := Expect(LParen, ts);
    if open.None? then None else Closed(RParen, open.value)
  }

  /** An expression and the token that ends it. */
  function Closed(end: Token, ts: Tokens): (r: Parsed<Raw>)
    ensures r.Some? ==> |r.value.1| < |ts|
  {
    var e := ParseE(ASSIGNMENT, ts);
    if e.None? then None else
    var rest := Expect(end, e.value.1);
    if rest.None? then None else Some((e.value.0, rest.value))
  }

  function ClosedOptional(end: Token, ts: Tokens): (r: Parsed<Option<Raw>>)
    ensures r.Some? ==> |r.value.1| < |ts|
  {
    if ts != [] && ts[0] == end then Some((None, ts[1..])) else
    var e := Closed(end, ts);
    if e.None? then None else Some((Some(e.value.0), e.value.1))
  }

  function ParseS(ts: Tokens, n: nat): (r: Numbered<RStmt>)
    ensures r.Some? ==> |r.value.1| < |ts|
    decreases |ts|, 3
  {
    if ts == [] || IsDeclarationStart(ts[0]) then None
    else if ts[0] == LBrace then
      var r := ParseItems(ts[1..], n + 1);
      if r.None? then None else Some((SBlock(r.value.0), r.value.1, r.value.2))
    else if ts[0] == Semicolon then Some((SNull, ts[1..], n + 1))
    else if ts[0].Word? then ParseWord(ts[0].kw, ts[1..], n)
    else if |ts| > 1 && ts[0].Identifier? && ts[1] == Colon then
      var r := ParseS(ts[2..], n + 1);
      if r.None? then None else Some((SLabel(n, ts[0].name, r.value.0), r.value.1, r.value.2))
    else
      var e := Closed(Semicolon, ts);
      if e.None? then None else Some((SExpr(e.value.0), e.value.1, n + 1))
  }

  /** A statement that starts with keyword 'kw', already consumed. */
  function ParseWord(kw: Keyword, ts: Tokens, n: nat): (r: Numbered<RStmt>)
    ensures r.Some? ==> |r.value.1| <= |ts|
    decreases |ts|, 5
  {
    match kw
    case KwReturn =>
      var e := ClosedOptional(Semicolon, ts);
      if e.None? then None else Some((SReturn(e.value.0), e.value.1, n + 1))
    case KwIf => ParseIf(ts, n)
    case KwWhile =>
      var c := Paren(ts);
      if c.None? then None else
      var b := ParseS(c.value.1, n + 1);
      if b.None? then None else Some((SWhile(n, c.value.0, b.value.0), b.value.1, b.value.2))
    case KwDo => ParseDo(ts, n)
    case KwFor => ParseFor(ts, n)
    case KwSwitch =>
      var c := Paren(ts);
      if c.None? then None else
      var b := ParseS(c.value.1, n + 1);
      if b.None? then None else Some((SSwitch(n, c.value.0, b.value.0), b.value.1, b.value.2))
    case KwCase =>
      var e := ParseE(TERNARY, ts);
      if e.None? then None else
      var rest := Expect(Colon, e.value.1);
      if rest.None? then None else
      var b := ParseS(rest.value, n + 1);
      if b.None? then None else Some((SCase(n, e.value.0, b.value.0), b.value.1, b.value.2))
    case KwDefault =>
      var rest := Expect(Colon, ts);
      if rest.None? then None else
      var b := ParseS(rest.value, n + 1);
      if b.None? then None else Some((SDefault(n, b.value.0), b.value.1, b.value.2))
    case KwGoto =>
      if ts == [] || !ts[0].Identifier? then None else
      var rest := Expect(Semicolon, ts[1..]);
      if rest.None? then None else Some((SGoto(ts[0].name), rest.value, n + 1))
    case KwBreak => if Expect(Semicolon, ts).None? then None else Some((SBreak, ts[1..], n + 1))
    case KwContinue => if Expect(Semicolon, ts).None? then None else Some((SContinue, ts[1..], n + 1))
    case _ => None
  }

  /** An 'else' belongs to the nearest 'if'. */
  function ParseIf(ts: Tokens, n: nat): (r: Numbered<RStmt>)
    ensures r.Some? ==> |r.value.1| <= |ts|
    decreases |ts|, 4
  {
    var c := Paren(ts);
    if c.None? then None else
    var a := ParseS(c.value.1, n + 1);
    if a.None? then None
    else if a.value.1 != [] && a.value.1[0] == Word(KwElse) then
      var b := ParseS(a.value.1[1..], a.value.2);
      if b.None? then None else Some((SIf(c.value.0, a.value.0, Some(b.value.0)), b.value.1, b.value.2))
    else Some((SIf(c.value.0, a.value.0, None), a.value.1, a.value.2))
  }

  function ParseDo(ts: Tokens, n: nat): (r: Numbered<RStmt>)
    ensures r.Some? ==> |r.value.1| <= |ts|
    decreases |ts|, 4
  {
    var b := ParseS(ts, n + 1);
    if b.None? then None else
    var rest := Expect(Word(KwWhile), b.value.1);
    if rest.None? then None else
    var c := Paren(rest.value);
    if c.None? then None else
    var end := Expect(Semicolon, c.value.1);
    if end.None? then None else Some((SDoWhile(n, c.value.0, b.value.0), end.value, b.value.2))
  }

  /** What stands before the first semicolon of a 'for'; nothing there makes no statement. */
  function ParseForInit(ts: Tokens, n: nat): (r: Numbered<RStmt>)
    ensures r.Some? ==> |r.value.1| < |ts|
  {
    if ts != [] && IsDeclarationStart(ts[0]) then ParseLocal(ts, n)
    else if ts != [] && ts[0] == Semicolon then Some((SNull, ts[1..], n))
    else
      var e := Closed(Semicolon, ts);
      if e.None? then None else Some((SExpr(e.value.0), e.value.1, n + 1))
  }

  function ParseFor(ts: Tokens, n: nat): (r: Numbered<RStmt>)
    ensures r.Some? ==> |r.value.1| <= |ts|
    decreases |ts|, 4
  {
    var open := Expect(LParen, ts);
    if open.None? then None else
    var i := ParseForInit(open.value, n + 1);
    if i.None? then None else
    var t := ClosedOptional(Semicolon, i.value.1);
    if t.None? then None else
    var p := ClosedOptional(RParen, t.value.1);
    if p.None? then None else
    var b := ParseS(p.value.1, i.value.2);
    if b.None? then None else Some((SFor(n, i.value.0, t.value.0, p.value.0, b.value.0), b.value.1, b.value.2))
  }

  /** Block items up to and including the closing brace. */
  function ParseItems(ts: Tokens, n: nat): (r: Numbered<seq<RStmt>>)
    ensures r.Some? ==> |r.value.1| < |ts|
    decreases |ts|, 5
  {
    if ts == [] then None
    else if ts[0] == RBrace then Some(([], ts[1..], n))
    else
      var i := ParseItem(ts, n);
      if i.None? then None else
      var rest := ParseItems(i.value.1, i.value.2);
      if rest.None? then None else Some(([i.value.0] + rest.value.0, rest.value.1, rest.value.2))
  }

  function ParseItem(ts: Tokens, n: nat): (r: Numbered<RStmt>)
    ensures r.Some? ==> |r.value.1| < |ts|
    decreases |ts|, 4
  {
    if ts != [] && IsDeclarationStart(ts[0]) then ParseLocal(ts, n) else ParseS(ts, n)
  }

  /** File-scope declarations up to the end of the file. */
  function ParseUnit(ts: Tokens, n: nat): Option<seq<Item>>
    decreases |ts|
  {
    if ts == [] then Some([]) else
    var i := ParseTop(ts, n);
    if i.None? then None else
    var rest := ParseUnit(i.value.1, i.value.2);
    if rest.None? then None else Some(i.value.0 + rest.value)
  }

  /** One file-scope declaration, or a function definition. */
  function ParseTop(ts: Tokens, n: nat): (r: Numbered<seq<Item>>)
    ensures r.Some? ==> |r.value.1| < |ts|
  {
    var s := SpecsOf(ts);
    if s.None? then None else
    var d := ParseInitDeclarator(s.value.0.0, s.value.0.1, s.value.1);
    if d.None? then None
    else if d.value.0.isFunction && d.value.1 != [] && d.value.1[0] == LBrace then
      var b := ParseItems(d.value.1[1..], n + 2);
      if b.None? then None else Some(([Item(d.value.0.(hasBody := true), b.value.0)], b.value.1, b.value.2))
    else
      var ds := ParseDecls(s.value.0.0, s.value.0.1, s.value.1);
      if ds.None? then None else Some((ItemsOf(ds.value.0), ds.value.1, n + 1))
  }

  function ItemsOf(ds: seq<Declaration>): (items: seq<Item>)
    ensures |items| == |ds| && forall k :: 0 <= k < |ds| ==> items[k] == Item(ds[k], [])
  {
    if ds == [] then [] else [Item(ds[0], [])] + ItemsOf(ds[1..])
  }

  /** Reading goes on after 'xs'. */
  function ItemsFrom(xs: seq<RStmt>, ts: Tokens, n: nat): Numbered<seq<RStmt>> {
    var r := ParseItems(ts, n);
    if r.None? then None else Some((xs + r.value.0, r.value.1, r.value.2))
  }

  lemma NoItemYet(ts: Tokens, n: nat)
    ensures ItemsFrom([], ts, n) == ParseItems(ts, n)
  {
    hide ParseItems;
    var r := ParseItems(ts, n);
    if r.Some? { assert [] + r.value.0 == r.value.0; }
  }

  lemma ItemTaken(xs: seq<RStmt>, ts: Tokens, n: nat, goal: Numbered<seq<RStmt>>)
    requires ItemsFrom(xs, ts, n) == goal && ts != [] && ts[0] != RBrace
    ensures var i := ParseItem(ts, n);
            if i.None? then goal.None? else ItemsFrom(xs + [i.value.0], i.value.1, i.value.2) == goal
  {
    hide ParseItem;
    var i := ParseItem(ts, n);
    if i.Some? {
      var r := ParseItems(i.value.1, i.value.2);
      if r.Some? { assert xs + ([i.value.0] + r.value.0) == xs + [i.value.0] + r.value.0; }
    }
  }

  lemma ItemsEnd(xs: seq<RStmt>, ts: Tokens, n: nat, goal: Numbered<seq<RStmt>>)
    requires ItemsFrom(xs, ts, n) == goal && (ts == [] || ts[0] == RBrace)
    ensures goal == if ts == [] then None else Some((xs, ts[1..], n))
  {
    assert xs + [] == xs;
  }

  function ParamsFrom(ps: seq<Declaration>, ts: Tokens): Parsed<seq<Declaration>> {
    var r := ParamList(ts);
    if r.None? then None else Some((ps + r.value.0, r.value.1))
  }

  /** The list ends here, if its closing token stands here. */
  predicate Ends<T(==)>(xs: seq<T>, end: Token, ts: Tokens, goal: Parsed<seq<T>>) {
    goal == if ts != [] && ts[0] == end then Some((xs, ts[1..])) else None
  }

  lemma NoParamYet(ts: Tokens)
    ensures ParamsFrom([], ts) == ParamList(ts)
  {
    hide ParamList;
    var r := ParamList(ts);
    if r.Some? { assert [] + r.value.0 == r.value.0; }
  }

  lemma ParamTaken(ps: seq<Declaration>, ts: Tokens, goal: Parsed<seq<Declaration>>)
    requires ParamsFrom(ps, ts) == goal
    ensures var p := ParseParam(ts);
            if p.None? then goal.None?
            else if p.value.1 != [] && p.value.1[0] == Comma then ParamsFrom(ps + [p.value.0], p.value.1[1..]) == goal
            else Ends(ps + [p.value.0], RParen, p.value.1, goal)
  {
    hide ParseParam;
    var p := ParseParam(ts);
    if p.Some? && p.value.1 != [] && p.value.1[0] == Comma {
      var r := ParamList(p.value.1[1..]);
      if r.Some? { assert ps + ([p.value.0] + r.value.0) == ps + [p.value.0] + r.value.0; }
    }
  }

  function DeclsFrom(ds: seq<Declaration>, base: Ty, sc: Storage, ts: Tokens): Parsed<seq<Declaration>> {
    var r := ParseDecls(base, sc, ts);
    if r.None? then None else Some((ds + r.value.0, r.value.1))
  }

  lemma NoDeclYet(base: Ty, sc: Storage, ts: Tokens)
    ensures DeclsFrom([], base, sc, ts) == ParseDecls(base, sc, ts)
  {
    hide ParseDecls;
    var r := ParseDecls(base, sc, ts);
    if r.Some? { assert [] + r.value.0 == r.value.0; }
  }

  lemma DeclTaken(ds: seq<Declaration>, base: Ty, sc: Storage, ts: Tokens, goal: Parsed<seq<Declaration>>)
    requires DeclsFrom(ds, base, sc, ts) == goal
    ensures var d := ParseInitDeclarator(base, sc, ts);
            if d.None? then goal.None?
            else if d.value.1 != [] && d.value.1[0] == Comma then DeclsFrom(ds + [d.value.0], base, sc, d.value.1[1..]) == goal
            else Ends(ds + [d.value.0], Semicolon, d.value.1, goal)
  {
    hide ParseInitDeclarator;
    var d := ParseInitDeclarator(base, sc, ts);
    if d.Some? && d.value.1 != [] && d.value.1[0] == Comma {
      var r := ParseDecls(base, sc, d.value.1[1..]);
      if r.Some? { assert ds + ([d.value.0] + r.value.0) == ds + [d.value.0] + r.value.0; }
    }
  }

  /** No brace follows a declarator in a list. */
  lemma DeclsNeedFirst(base: Ty, sc: Storage, ts: Tokens)
    ensures var d := ParseInitDeclarator(base, sc, ts);
            d.None? || (d.value.1 != [] && d.value.1[0] == LBrace) ==> ParseDecls(base, sc, ts).None?
  {
    hide ParseInitDeclarator;
  }

  function UnitFrom(xs: seq<Item>, ts: Tokens, n: nat): Option<seq<Item>> {
    var r := ParseUnit(ts, n);
    if r.None? then None else Some(xs + r.value)
  }

  lemma NoTopYet(ts: Tokens, n: nat)
    ensures UnitFrom([], ts, n) == ParseUnit(ts, n)
  {
    hide ParseUnit;
    var r := ParseUnit(ts, n);
    if r.Some? { assert [] + r.value == r.value; }
  }

  lemma TopTaken(xs: seq<Item>, ts: Tokens, n: nat, goal: Option<seq<Item>>)
    requires UnitFrom(xs, ts, n) == goal && ts != []
    ensures !IsDeclarationStart(ts[0]) ==> ParseTop(ts, n).None?
    ensures var i := ParseTop(ts, n);
            if i.None? then goal.None? else UnitFrom(xs + i.value.0, i.value.1, i.value.2) == goal
  {
    hide ParseInitDeclarator, ParseDecls, ParseItems;
    var i := ParseTop(ts, n);
    if i.Some? {
      hide ParseTop;
      var r := ParseUnit(i.value.1, i.value.2);
      if r.Some? { assert xs + (i.value.0 + r.value) == xs + i.value.0 + r.value; }
    }
  }
}
