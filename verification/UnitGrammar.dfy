/** The grammar of declarations, statements and translation units, sections 6.7 to 6.9 of ISO/IEC 9899:2011 as far as
    the language has them. Each relation says what stands at the beginning of the tokens 'ts' and that 'rest' follows
    it. Statement numbers are no part of the grammar. */
module UnitGrammar {
  import opened Arith
  import opened Ast
  import opened Syntax
  import opened Pratt
  import opened Grammar
  import opened ExprGrammar

  /** Declaration specifiers, as many as there are. */
  predicate SpecsSpan(ts: Tokens, ty: Ty, sc: Storage, rest: Tokens) {
    && |rest| <= |ts| && ts[|ts| - |rest|..] == rest && Specifiers(multiset(ts[..|ts| - |rest|]), ty, sc)
    && AllStarts(ts[..|ts| - |rest|]) && (rest == [] || !IsDeclarationStart(rest[0]))
  }

  /** A name, which only a parameter may leave out, and for a function its parameters. */
  ghost predicate DeclaratorSpan(ts: Tokens, base: Ty, abstractAllowed: bool, d: Declaration, rest: Tokens)
    decreases |ts|, 3
  {
    var named := ts != [] && ts[0].Identifier?;
    var m := if named then ts[1..] else ts;
    && (if named then d.name == ts[0].name else abstractAllowed && d.name == "")
    && if d.isFunction then
         m != [] && m[0] == LParen && d.ty == Function(base, Types(d.params)) && ParamsSpan(m[1..], d.params, rest)
       else rest == m && d.ty == base && d.params == []
  }

  /** Parameters up to and including the closing parenthesis; '(void)' has none. */
  ghost predicate ParamsSpan(ts: Tokens, ps: seq<Declaration>, rest: Tokens)
    decreases |ts|, 2
  {
    if ps == [] then ts == [RParen] + rest || ts == [Word(KwVoid), RParen] + rest
    else !(|ts| > 1 && ts[0] == Word(KwVoid) && ts[1] == RParen) && ParamListSpan(ts, ps, rest)
  }

  ghost predicate ParamListSpan(ts: Tokens, ps: seq<Declaration>, rest: Tokens)
    decreases |ts|, 1
  {
    && ps != []
    && exists m: Tokens :: ParamSpan(ts, ps[0], m) && |m| < |ts|
                           && if |ps| == 1 then m == [RParen] + rest else m != [] && m[0] == Comma && ParamListSpan(m[1..], ps[1..], rest)
  }

  ghost predicate ParamSpan(ts: Tokens, p: Declaration, rest: Tokens)
    decreases |ts|, 0
  {
    && p.isParameter && !p.hasBody && p.init.None?
    && exists m, base :: SpecsSpan(ts, base, p.sc, m) && |m| < |ts| && DeclaratorSpan(m, base, true, p, rest)
  }

  /** A declarator of a declaration with these specifiers; only an object has an initialiser. */
  ghost predicate InitSpan(ts: Tokens, base: Ty, sc: Storage, d: Declaration, rest: Tokens) {
    && d.sc == sc && !d.isParameter && !d.hasBody
    && if d.init.None? then DeclaratorSpan(ts, base, false, d, rest)
       else !d.isFunction && exists m :: DeclaratorSpan(ts, base, false, d, [Becomes(None)] + m) && ExprSpan(AssignmentExpr, m, d.init.value, rest)
  }

  /** Declarators separated by commas up to and including the semicolon. */
  ghost predicate DeclListSpan(ts: Tokens, base: Ty, sc: Storage, ds: seq<Declaration>, rest: Tokens)
    decreases |ds|
  {
    && ds != []
    && exists m: Tokens :: InitSpan(ts, base, sc, ds[0], m)
                           && if |ds| == 1 then m == [Semicolon] + rest
                              else m != [] && m[0] == Comma && DeclListSpan(m[1..], base, sc, ds[1..], rest)
  }

  ghost predicate DeclSpan(ts: Tokens, ds: seq<Declaration>, rest: Tokens) {
    exists m, base, sc :: SpecsSpan(ts, base, sc, m) && DeclListSpan(m, base, sc, ds, rest)
  }

  /** An expression and the token that ends it. */
  ghost predicate CloseSpan(end: Token, ts: Tokens, e: Raw, rest: Tokens) {
    ExprSpan(AssignmentExpr, ts, e, [end] + rest)
  }

  ghost predicate OptSpan(end: Token, ts: Tokens, e: Option<Raw>, rest: Tokens) {
    if e.None? then ts == [end] + rest else CloseSpan(end, ts, e.value, rest)
  }

  ghost predicate ParenSpan(ts: Tokens, e: Raw, rest: Tokens) {
    ts != [] && ts[0] == LParen && CloseSpan(RParen, ts[1..], e, rest)
  }

  /** An 'else' after this statement would belong to an 'if' inside it. */
  predicate EndsOpen(r: RStmt) {
    match r
    case SIf(_, _, b) => b.None? || EndsOpen(b.value)
    case SFor(_, _, _, _, b) => EndsOpen(b)
    case SWhile(_, _, b) => EndsOpen(b)
    case SSwitch(_, _, b) => EndsOpen(b)
    case SCase(_, _, b) => EndsOpen(b)
    case SDefault(_, b) => EndsOpen(b)
    case SLabel(_, _, b) => EndsOpen(b)
    case _ => false
  }

  ghost predicate ForInitSpan(ts: Tokens, i: RStmt, rest: Tokens) {
    match i
    case SNull => ts == [Semicolon] + rest
    case SExpr(e) => CloseSpan(Semicolon, ts, e, rest)
    case SDecl(ds) => DeclSpan(ts, ds, rest)
    case _ => false
  }

  /** A statement (section 6.8). An 'else' belongs to the nearest 'if' (section 6.8.4.1). */
  ghost predicate StmtSpan(ts: Tokens, r: RStmt, rest: Tokens)
    decreases r, 1
  {
    match r
    case SNull => ts == [Semicolon] + rest
    case SExpr(e) => CloseSpan(Semicolon, ts, e, rest)
    case SDecl(_) => false
    case SBlock(items) => ts != [] && ts[0] == LBrace && ItemsSpan(ts[1..], items, rest)
    case SReturn(e) => ts != [] && ts[0] == Word(KwReturn) && OptSpan(Semicolon, ts[1..], e, rest)
    case SIf(c, a, b) =>
      && ts != [] && ts[0] == Word(KwIf)
      && exists m :: ParenSpan(ts[1..], c, m)
                     && if b.None? then StmtSpan(m, a, rest)
                        else !EndsOpen(a) && exists k :: StmtSpan(m, a, [Word(KwElse)] + k) && StmtSpan(k, b.value, rest)
    case SFor(_, i, t, p, b) =>
      && |ts| > 1 && ts[0] == Word(KwFor) && ts[1] == LParen
      && exists x, y, z :: ForInitSpan(ts[2..], i, x) && OptSpan(Semicolon, x, t, y) && OptSpan(RParen, y, p, z) && StmtSpan(z, b, rest)
    case SWhile(_, c, b) => ts != [] && ts[0] == Word(KwWhile) && exists m :: ParenSpan(ts[1..], c, m) && StmtSpan(m, b, rest)
    case SDoWhile(_, c, b) =>
      ts != [] && ts[0] == Word(KwDo) && exists m :: StmtSpan(ts[1..], b, [Word(KwWhile)] + m) && ParenSpan(m, c, [Semicolon] + rest)
    case SSwitch(_, c, b) => ts != [] && ts[0] == Word(KwSwitch) && exists m :: ParenSpan(ts[1..], c, m) && StmtSpan(m, b, rest)
    case SCase(_, e, b) =>
      ts != [] && ts[0] == Word(KwCase) && exists m :: ExprSpan(ConditionalExpr, ts[1..], e, [Colon] + m) && StmtSpan(m, b, rest)
    case SDefault(_, b) => |ts| > 1 && ts[0] == Word(KwDefault) && ts[1] == Colon && StmtSpan(ts[2..], b, rest)
    case SLabel(_, name, b) => |ts| > 1 && ts[0] == Identifier(name) && ts[1] == Colon && StmtSpan(ts[2..], b, rest)
    case SBreak => ts == [Word(KwBreak), Semicolon] + rest
    case SContinue => ts == [Word(KwContinue), Semicolon] + rest
    case SGoto(name) => ts == [Word(KwGoto), Identifier(name), Semicolon] + rest
  }

  /** Block items up to and including the closing brace. */
  ghost predicate ItemsSpan(ts: Tokens, items: seq<RStmt>, rest: Tokens)
    decreases items, 0
  {
    if items == [] then ts == [RBrace] + rest
    else exists m :: ItemSpan(ts, items[0], m) && ItemsSpan(m, items[1..], rest)
  }

  ghost predicate ItemSpan(ts: Tokens, i: RStmt, rest: Tokens)
    decreases i, 2
  {
    if i.SDecl? then DeclSpan(ts, i.decls, rest) else StmtSpan(ts, i, rest)
  }

  /** A function definition, or the declarators of one declaration (section 6.9). */
  ghost predicate TopSpan(ts: Tokens, items: seq<Item>, rest: Tokens) {
    || (|items| == 1 && items[0].decl.hasBody && items[0].decl.isFunction
        && exists m, k, base :: SpecsSpan(ts, base, items[0].decl.sc, m)
                                && InitSpan(m, base, items[0].decl.sc, items[0].decl.(hasBody := false), [LBrace] + k)
                                && ItemsSpan(k, items[0].body, rest))
    || exists ds :: items == ItemsOf(ds) && DeclSpan(ts, ds, rest)
  }

  /** External declarations up to the end of the file. */
  ghost predicate UnitSpan(ts: Tokens, items: seq<Item>)
    decreases |items|
  {
    if items == [] then ts == []
    else exists first, more, m :: first != [] && items == first + more && TopSpan(ts, first, m) && UnitSpan(m, more)
  }

  /** What may follow a statement: no 'else' that would be taken for its own. */
  predicate MayFollow(r: RStmt, rest: Tokens) {
    EndsOpen(r) ==> rest == [] || rest[0] != Word(KwElse)
  }

  /** The statement with its numbers given in source order from 'n' on, and the next number. */
  function Number(r: RStmt, n: nat): (RStmt, nat)
    decreases r, 1
  {
    match r
    case SBlock(items) => var (b, m) := NumberItems(items, n + 1); (SBlock(b), m)
    case SIf(c, a, b) =>
      var (x, m) := Number(a, n + 1);
      if b.None? then (SIf(c, x, None), m)
      else var (y, k) := Number(b.value, m); (SIf(c, x, Some(y)), k)
    case SFor(_, i, t, p, b) => var (x, m) := Number(b, if i.SNull? then n + 1 else n + 2); (SFor(n, i, t, p, x), m)
    case SWhile(_, c, b) => var (x, m) := Number(b, n + 1); (SWhile(n, c, x), m)
    case SDoWhile(_, c, b) => var (x, m) := Number(b, n + 1); (SDoWhile(n, c, x), m)
    case SSwitch(_, c, b) => var (x, m) := Number(b, n + 1); (SSwitch(n, c, x), m)
    case SCase(_, e, b) => var (x, m) := Number(b, n + 1); (SCase(n, e, x), m)
    case SDefault(_, b) => var (x, m) := Number(b, n + 1); (SDefault(n, x), m)
    case SLabel(_, name, b) => var (x, m) := Number(b, n + 1); (SLabel(n, name, x), m)
    case _ => (r, n + 1)
  }

  function NumberItems(items: seq<RStmt>, n: nat): (seq<RStmt>, nat)
    decreases items, 0
  {
    if items == [] then ([], n)
    else
      var (x, m) := Number(items[0], n);
      var (rest, k) := NumberItems(items[1..], m);
      ([x] + rest, k)
  }

  function NumberTop(i: Item, n: nat): (Item, nat) {
    if i.decl.hasBody then var (b, m) := NumberItems(i.body, n + 2); (Item(i.decl, b), m) else (i, n + 1)
  }

  function NumberUnit(items: seq<Item>, n: nat): seq<Item> {
    if items == [] then [] else [NumberTop(items[0], n).0] + NumberUnit(items[1..], NumberTop(items[0], n).1)
  }
}
