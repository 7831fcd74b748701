/** Statements printed and read back: an 'else' goes to the nearest 'if', and numbers are given in source
    order. */
module StmtPrinting {
  import opened Arith
  import opened Ast
  import opened Syntax
  import opened Pratt
  import opened ExprGrammar
  import opened Grammar
  import opened UnitGrammar
  import U = UnitDerivation
  import opened Printing
  import opened Lexing
  import opened Spelling

  predicate OptPrintable(e: Option<Raw>) {
    e.Some? ==> Printable(e.value)
  }

  /** Statements that some text reads as; declarations stand in blocks and in 'for' only. */
  predicate PrintableS(r: RStmt)
    decreases r, 1
  {
    match r
    case SNull => true
    case SExpr(e) => Printable(e)
    case SDecl(_) => false
    case SBlock(items) => PrintableItems(items)
    case SReturn(e) => OptPrintable(e)
    case SIf(c, a, b) => Printable(c) && PrintableS(a) && (b.Some? ==> PrintableS(b.value) && !EndsOpen(a))
    case SFor(_, i, t, p, b) => ForInitOk(i) && OptPrintable(t) && OptPrintable(p) && PrintableS(b)
    case SWhile(_, c, b) => Printable(c) && PrintableS(b)
    case SDoWhile(_, c, b) => Printable(c) && PrintableS(b)
    case SSwitch(_, c, b) => Printable(c) && PrintableS(b)
    case SCase(_, e, b) => Printable(e) && PrintableS(b)
    case SDefault(_, b) => PrintableS(b)
    case SLabel(_, _, b) => PrintableS(b)
    case _ => true
  }

  predicate ForInitOk(i: RStmt) {
    match i
    case SNull => true
    case SExpr(e) => Printable(e)
    case SDecl(ds) => DeclsOk(ds)
    case _ => false
  }

  predicate PrintableItems(items: seq<RStmt>)
    decreases items, 0
  {
    items == [] || ((if items[0].SDecl? then DeclsOk(items[0].decls) else PrintableS(items[0])) && PrintableItems(items[1..]))
  }

  function PrintClosed(e: Raw, end: Token): Tokens
    requires Printable(e)
  {
    Print(e, ASSIGNMENT) + [end]
  }

  function PrintOptional(e: Option<Raw>, end: Token): Tokens
    requires OptPrintable(e)
  {
    if e.None? then [end] else PrintClosed(e.value, end)
  }

  function PrintParen(e: Raw): Tokens
    requires Printable(e)
  {
    [LParen] + PrintClosed(e, RParen)
  }

  function PrintForInit(i: RStmt): Tokens
    requires ForInitOk(i)
  {
    match i
    case SExpr(e) => PrintClosed(e, Semicolon)
    case SDecl(ds) => PrintLocal(ds)
    case _ => [Semicolon]
  }

  function PrintS(r: RStmt): Tokens
    requires PrintableS(r)
    decreases r, 1
  {
    match r
    case SNull => [Semicolon]
    case SExpr(e) => PrintClosed(e, Semicolon)
    case SBlock(items) => [LBrace] + PrintItems(items)
    case SReturn(e) => [Word(KwReturn)] + PrintOptional(e, Semicolon)
    case SIf(c, a, b) =>
      [Word(KwIf)] + (PrintParen(c) + (PrintS(a) + (if b.None? then [] else [Word(KwElse)] + PrintS(b.value))))
    case SFor(_, i, t, p, b) =>
      [Word(KwFor), LParen] + (PrintForInit(i) + (PrintOptional(t, Semicolon) + (PrintOptional(p, RParen) + PrintS(b))))
    case SWhile(_, c, b) => [Word(KwWhile)] + (PrintParen(c) + PrintS(b))
    case SDoWhile(_, c, b) => [Word(KwDo)] + (PrintS(b) + ([Word(KwWhile)] + (PrintParen(c) + [Semicolon])))
    case SSwitch(_, c, b) => [Word(KwSwitch)] + (PrintParen(c) + PrintS(b))
    case SCase(_, e, b) => [Word(KwCase)] + (Print(e, TERNARY) + ([Colon] + PrintS(b)))
    case SDefault(_, b) => [Word(KwDefault), Colon] + PrintS(b)
    case SLabel(_, name, b) => [Identifier(name), Colon] + PrintS(b)
    case SBreak => [Word(KwBreak), Semicolon]
    case SContinue => [Word(KwContinue), Semicolon]
    case SGoto(name) => [Word(KwGoto), Identifier(name), Semicolon]
  }

  function PrintItems(items: seq<RStmt>): Tokens
    requires PrintableItems(items)
    decreases items, 0
  {
    if items == [] then [RBrace]
    else (if items[0].SDecl? then PrintLocal(items[0].decls) else PrintS(items[0])) + PrintItems(items[1..])
  }

  lemma PrintSpan(c: Category, level: nat, e: Raw, rest: Tokens)
    requires Printable(e) && ASSIGNMENT <= level <= PRIMARY && c == CategoryFor(level)
    ensures ExprSpan(c, Print(e, level) + rest, e, rest)
  {
    hide Print, Derives;
    PrintDerives(e, level);
    var w := Print(e, level);
    assert (w + rest)[..|w|] == w && (w + rest)[|w|..] == rest;
  }

  lemma ClosedPrints(e: Raw, end: Token, rest: Tokens)
    requires Printable(e)
    ensures CloseSpan(end, PrintClosed(e, end) + rest, e, rest)
  {
    hide Print, ExprSpan;
    PrintSpan(AssignmentExpr, ASSIGNMENT, e, [end] + rest);
    assert PrintClosed(e, end) + rest == Print(e, ASSIGNMENT) + ([end] + rest);
  }

  lemma OptionalPrints(e: Option<Raw>, end: Token, rest: Tokens)
    requires OptPrintable(e)
    ensures OptSpan(end, PrintOptional(e, end) + rest, e, rest)
  {
    hide PrintClosed, CloseSpan;
    if e.Some? { ClosedPrints(e.value, end, rest); }
  }

  lemma ParenPrints(e: Raw, rest: Tokens)
    requires Printable(e)
    ensures ParenSpan(PrintParen(e) + rest, e, rest)
  {
    hide PrintClosed, CloseSpan;
    ClosedPrints(e, RParen, rest);
    assert (PrintParen(e) + rest)[1..] == PrintClosed(e, RParen) + rest;
  }

  lemma LocalPrints(ds: seq<Declaration>, rest: Tokens)
    requires DeclsOk(ds)
    ensures DeclSpan(PrintLocal(ds) + rest, ds, rest)
  {
    hide DeclsOk, PrintLocal, ParseLocal, DeclSpan;
    LocalReads(ds, rest, 0);
    U.LocalSound(PrintLocal(ds) + rest, 0);
  }

  lemma ForInitPrints(i: RStmt, rest: Tokens)
    requires ForInitOk(i)
    ensures ForInitSpan(PrintForInit(i) + rest, i, rest)
  {
    hide PrintClosed, CloseSpan, PrintLocal, DeclSpan;
    match i
    case SExpr(e) => ClosedPrints(e, Semicolon, rest);
    case SDecl(ds) => LocalPrints(ds, rest);
    case SNull =>
  }

  /** Every statement printed is one of the grammar. */
  lemma {:induction false} StmtPrints(r: RStmt, rest: Tokens)
    requires PrintableS(r)
    ensures StmtSpan(PrintS(r) + rest, r, rest)
    decreases r, 2
  {
    hide PrintS, PrintableS, StmtSpan;
    match r
    case SIf(_, _, _) => IfPrints(r, rest);
    case SFor(_, _, _, _, _) => ForPrints(r, rest);
    case SWhile(_, _, _) => GuardedPrints(r, rest);
    case SSwitch(_, _, _) => GuardedPrints(r, rest);
    case SDoWhile(_, _, _) => DoPrints(r, rest);
    case SCase(_, _, _) => LabelledPrints(r, rest);
    case SDefault(_, _) => LabelledPrints(r, rest);
    case SLabel(_, _, _) => LabelledPrints(r, rest);
    case _ => SimplePrints(r, rest);
  }

  lemma {:induction false} SimplePrints(r: RStmt, rest: Tokens)
    requires PrintableS(r)
    requires r.SNull? || r.SExpr? || r.SDecl? || r.SBlock? || r.SReturn? || r.SBreak? || r.SContinue? || r.SGoto?
    ensures StmtSpan(PrintS(r) + rest, r, rest)
    decreases r, 1
  {
    hide PrintClosed, PrintOptional, CloseSpan, OptSpan, PrintItems, ItemsSpan;
    var ts := PrintS(r) + rest;
    if r.SExpr? { ClosedPrints(r.e, Semicolon, rest); }
    if r.SBlock? {
      ItemsPrint(r.items, rest);
      assert ts[1..] == PrintItems(r.items) + rest;
    }
    if r.SReturn? {
      OptionalPrints(r.result, Semicolon, rest);
      assert ts[1..] == PrintOptional(r.result, Semicolon) + rest;
    }
  }

  lemma {:induction false} GuardedPrints(r: RStmt, rest: Tokens)
    requires (r.SWhile? || r.SSwitch?) && PrintableS(r)
    ensures StmtSpan(PrintS(r) + rest, r, rest)
    decreases r, 1
  {
    hide PrintParen, ParenSpan;
    var m := PrintS(r.body) + rest;
    ParenPrints(r.cond, m);
    StmtPrints(r.body, rest);
    assert (PrintS(r) + rest)[1..] == PrintParen(r.cond) + m;
  }

  lemma {:induction false} LabelledPrints(r: RStmt, rest: Tokens)
    requires (r.SCase? || r.SDefault? || r.SLabel?) && PrintableS(r)
    ensures StmtSpan(PrintS(r) + rest, r, rest)
    decreases r, 1
  {
    hide Print, ExprSpan;
    var m := PrintS(r.stmt) + rest;
    StmtPrints(r.stmt, rest);
    if r.SCase? {
      PrintSpan(ConditionalExpr, TERNARY, r.e, [Colon] + m);
      assert (PrintS(r) + rest)[1..] == Print(r.e, TERNARY) + ([Colon] + m);
    } else {
      assert (PrintS(r) + rest)[2..] == m;
    }
  }

  lemma {:induction false} IfPrints(r: RStmt, rest: Tokens)
    requires r.SIf? && PrintableS(r)
    ensures StmtSpan(PrintS(r) + rest, r, rest)
    decreases r, 1
  {
    hide PrintParen, ParenSpan;
    if r.els.Some? {
      ElsePrints(r, rest);
    } else {
      var m := PrintS(r.thn) + rest;
      ParenPrints(r.cond, m);
      StmtPrints(r.thn, rest);
      assert (PrintS(r) + rest)[1..] == PrintParen(r.cond) + m;
    }
  }

  lemma {:induction false} ElsePrints(r: RStmt, rest: Tokens)
    requires r.SIf? && r.els.Some? && PrintableS(r)
    ensures StmtSpan(PrintS(r) + rest, r, rest)
    decreases r, 0
  {
    hide PrintParen, ParenSpan;
    var k := PrintS(r.els.value) + rest;
    var m := PrintS(r.thn) + ([Word(KwElse)] + k);
    ParenPrints(r.cond, m);
    StmtPrints(r.thn, [Word(KwElse)] + k);
    StmtPrints(r.els.value, rest);
    IfTokens(PrintParen(r.cond), PrintS(r.thn), PrintS(r.els.value), rest);
  }

  lemma IfTokens(c: Tokens, a: Tokens, b: Tokens, rest: Tokens)
    ensures ([Word(KwIf)] + (c + (a + ([Word(KwElse)] + b))) + rest)[1..] == c + (a + ([Word(KwElse)] + (b + rest)))
  {
  }

  lemma {:induction false} DoPrints(r: RStmt, rest: Tokens)
    requires r.SDoWhile? && PrintableS(r)
    ensures StmtSpan(PrintS(r) + rest, r, rest)
    decreases r, 1
  {
    hide PrintParen, ParenSpan;
    var m := PrintParen(r.cond) + ([Semicolon] + rest);
    ParenPrints(r.cond, [Semicolon] + rest);
    StmtPrints(r.body, [Word(KwWhile)] + m);
    assert (PrintS(r) + rest)[1..] == PrintS(r.body) + ([Word(KwWhile)] + m);
  }

  lemma {:induction false} ForPrints(r: RStmt, rest: Tokens)
    requires r.SFor? && PrintableS(r)
    ensures StmtSpan(PrintS(r) + rest, r, rest)
    decreases r, 1
  {
    hide PrintForInit, ForInitSpan, PrintOptional, OptSpan, ForInitOk;
    var z := PrintS(r.body) + rest;
    var y := PrintOptional(r.post, RParen) + z;
    var x := PrintOptional(r.test, Semicolon) + y;
    ForInitPrints(r.init, x);
    OptionalPrints(r.test, Semicolon, y);
    OptionalPrints(r.post, RParen, z);
    StmtPrints(r.body, rest);
    assert (PrintS(r) + rest)[2..] == PrintForInit(r.init) + x;
  }

  lemma {:induction false} ItemsPrint(items: seq<RStmt>, rest: Tokens)
    requires PrintableItems(items)
    ensures ItemsSpan(PrintItems(items) + rest, items, rest)
    decreases items, 0
  {
    hide PrintableS, PrintS, StmtSpan, PrintLocal, DeclSpan, DeclsOk;
    if items != [] {
      var i := items[0];
      var first, m := if i.SDecl? then PrintLocal(i.decls) else PrintS(i), PrintItems(items[1..]) + rest;
      assert PrintItems(items) + rest == first + m;
      ItemsPrint(items[1..], rest);
      if i.SDecl? { LocalPrints(i.decls, m); } else { StmtPrints(i, m); }
      assert ItemSpan(first + m, i, m);
    }
  }

  /** Every statement printed is read back, with its numbers in source order, up to where it ends. */
  lemma StmtReads(r: RStmt, rest: Tokens, n: nat)
    requires PrintableS(r) && MayFollow(r, rest)
    ensures var (x, m) := Number(r, n); ParseS(PrintS(r) + rest, n) == Some((x, rest, m))
  {
    hide PrintS, StmtSpan, ParseS;
    StmtPrints(r, rest);
    U.StmtComplete(PrintS(r) + rest, r, rest, n);
  }

  lemma ItemsRead(items: seq<RStmt>, rest: Tokens, n: nat)
    requires PrintableItems(items)
    ensures var (x, m) := NumberItems(items, n); ParseItems(PrintItems(items) + rest, n) == Some((x, rest, m))
  {
    hide PrintItems, ItemsSpan, ParseItems;
    ItemsPrint(items, rest);
    U.BlockComplete(PrintItems(items) + rest, items, rest, n);
  }

  /** A declaration at file scope, or a function definition. */
  predicate ItemOk(i: Item) {
    if i.decl.hasBody then i.decl.isFunction && InitOk(i.decl.(hasBody := false), BaseOf(i.decl), i.decl.sc) && PrintableItems(i.body)
    else DeclsOk([i.decl]) && i.body == []
  }

  function PrintTop(i: Item): Tokens
    requires ItemOk(i)
  {
    if i.decl.hasBody then
      var d := i.decl.(hasBody := false);
      PrintSpecs(BaseOf(d), d.sc) + (PrintInit(d) + ([LBrace] + PrintItems(i.body)))
    else PrintLocal([i.decl])
  }

  predicate UnitPrintable(items: seq<Item>) {
    forall k :: 0 <= k < |items| ==> ItemOk(items[k])
  }

  function PrintUnit(items: seq<Item>): Tokens
    requires UnitPrintable(items)
  {
    if items == [] then [] else PrintTop(items[0]) + PrintUnit(items[1..])
  }

  lemma TopReads(i: Item, rest: Tokens, n: nat)
    requires ItemOk(i)
    ensures ParseTop(PrintTop(i) + rest, n) == Some(([NumberTop(i, n).0], rest, NumberTop(i, n).1))
  {
    hide SpecsOf, ParseDecls, ParseInitDeclarator, ParseItems, InitOk, PrintInit, PrintItems, PrintDecls, DeclaratorOk;
    var d := i.decl.(hasBody := false);
    var base, sc := BaseOf(d), d.sc;
    assert InitOk(d, base, sc);
    InitIs(d, base, sc);
    InitStarts(d, base, sc);
    if i.decl.hasBody {
      var body := PrintItems(i.body) + rest;
      var tail := [LBrace] + body;
      var decl := PrintInit(d) + tail;
      assert PrintTop(i) + rest == PrintSpecs(base, sc) + decl;
      SpecsRead(base, sc, decl);
      FunctionHead(d, base, sc, tail);
      assert tail[1..] == body;
      ItemsRead(i.body, rest, n + 2);
    } else {
      var decls := PrintDecls([i.decl], base, sc) + rest;
      assert PrintTop(i) + rest == PrintSpecs(base, sc) + decls;
      DeclsStart([i.decl], base, sc);
      SpecsRead(base, sc, decls);
      DeclsRead([i.decl], base, sc, rest);
      var tail := [Semicolon] + rest;
      assert PrintDecls([i.decl], base, sc) == PrintInit(d) + [Semicolon] by { OneDecl(d, base, sc); }
      assert decls == PrintInit(d) + tail;
      InitReads(d, base, sc, tail);
      assert ItemsOf([i.decl]) == [i];
    }
  }

  lemma OneDecl(d: Declaration, base: Ty, sc: Storage)
    requires InitOk(d, base, sc)
    ensures PrintDecls([d], base, sc) == PrintInit(d) + [Semicolon]
  {
  }

  lemma FunctionHead(d: Declaration, base: Ty, sc: Storage, rest: Tokens)
    requires InitOk(d, base, sc) && d.isFunction && rest != [] && rest[0] == LBrace
    ensures ParseInitDeclarator(base, sc, PrintInit(d) + rest) == Some((d, rest))
  {
    hide ParseDeclarator, DeclaratorOk, PrintDeclarator;
    DeclaratorReads(d, false, rest);
    assert PrintInit(d) + rest == PrintDeclarator(d) + rest;
  }

  /** A whole translation unit printed is read back, its statements numbered in source order. */
  lemma {:induction false} UnitReads(items: seq<Item>, n: nat)
    requires UnitPrintable(items)
    ensures ParseUnit(PrintUnit(items), n) == Some(NumberUnit(items, n))
  {
    hide ItemOk, ParseTop, PrintTop, NumberTop;
    if items != [] {
      var rest := PrintUnit(items[1..]);
      TopReads(items[0], rest, n);
      assert PrintUnit(items) != [] by { TopStarts(items[0]); }
      UnitReads(items[1..], NumberTop(items[0], n).1);
    }
  }

  lemma TopStarts(i: Item)
    requires ItemOk(i)
    ensures PrintTop(i) != []
  {
    hide InitOk, PrintInit, PrintItems, PrintDecls;
  }

  /** From a translation unit to its text and back. */
  lemma UnitTextRoundTrip(items: seq<Item>, ls: seq<Lexeme>)
    requires UnitPrintable(items) && AllSpellable(PrintUnit(items)) && Tiles(SpellAll(PrintUnit(items)), ls)
    ensures ParseUnit(Meanings(SpellAll(PrintUnit(items)), ls), 0) == Some(NumberUnit(items, 0))
  {
    hide UnitPrintable, AllSpellable, Tiles, ParseUnit, PrintUnit;
    LexingUndoesSpelling(PrintUnit(items), ls);
    UnitReads(items, 0);
  }
}
