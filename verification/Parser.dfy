/** The parser as it runs: one current token, a panic flag, and loops that always get further. Without an
    error it builds exactly the trees of the grammar, and it reports an error exactly when there is none. */
module Parser {
  import opened Arith
  import opened Ast
  import opened Syntax
  import opened Pratt
  import opened Grammar

  predicate Clean(ts: Tokens) {
    forall k :: 0 <= k < |ts| ==> !ts[k].Bad?
  }

  /** The input without leading tokens that the lexer could not read. */
  function SkipBad(ts: Tokens): (r: Tokens)
    ensures |r| <= |ts| && (Clean(ts) ==> r == ts)
  {
    if ts != [] && ts[0].Bad? then SkipBad(ts[1..]) else ts
  }

  /** From one token to the next that could be read. */
  predicate Passed(ts: Tokens, n: nat) {
    n <= |ts| && (forall j :: 0 < j < n ==> ts[j].Bad?) && (n < |ts| ==> !ts[n].Bad?)
  }

  /** The token read before position 'k', 'before' standing in front. */
  function LastRead(before: Token, ts: Tokens, k: nat): Token
    requires k <= |ts|
  {
    if k == 0 then before else if ts[k - 1].Bad? then LastRead(before, ts, k - 1) else ts[k - 1]
  }

  /** A block item may start at 'k'. */
  predicate Resumes(before: Token, ts: Tokens, k: nat)
    requires k < |ts|
  {
    !ts[k].Bad? && (LastRead(before, ts, k).Semicolon? || IsDeclarationStart(ts[k]) || StartsItem(ts[k]))
  }

  lemma {:induction false} BadsPassed(before: Token, ts: Tokens, k: nat, n: nat)
    requires k < n <= |ts| && !ts[k].Bad? && forall j :: k < j < n ==> ts[j].Bad?
    ensures LastRead(before, ts, n) == ts[k] && forall j :: k < j < n ==> !Resumes(before, ts, j)
    decreases n
  {
    if k < n - 1 { BadsPassed(before, ts, k, n - 1); }
  }

  function Bads(ts: Tokens): nat {
    if ts == [] then 0 else (if ts[0].Bad? then 1 else 0) + Bads(ts[1..])
  }

  lemma {:induction false} NoBads(ts: Tokens)
    ensures Bads(ts) == 0 <==> Clean(ts)
  {
    if ts != [] {
      NoBads(ts[1..]);
      if Clean(ts) { assert forall k :: 0 <= k < |ts[1..]| ==> ts[1..][k] == ts[k + 1]; }
      if Clean(ts[1..]) && !ts[0].Bad? { assert forall k :: 0 < k < |ts| ==> ts[k] == ts[1..][k - 1]; }
    }
  }

  lemma InfixExists(t: Token)
    ensures Prec(t) >= 1 <==> t.LParen? || t.Question? || t.Op? || t.Step? || t.Becomes?
  {
  }

  predicate HasPrefix(t: Token) {
    match t
    case Op(op) => op.Add? || op.Sub?
    case _ => t.IntLiteral? || t.LongLiteral? || t.Identifier? || t.Bang? || t.Tilde? || t.Step? || t.LParen?
  }

  function UnaryOf(t: Token): UnOp {
    match t
    case Bang => LogNot
    case Tilde => BitNot
    case Op(op) => if op.Sub? then Neg else Plus
    case _ => Plus
  }

  class Parser {
    /** The current token and those after it; empty at the end of the file. */
    var toks: Tokens
    var previous: Token
    var panic: bool
    /** Some error was reported. */
    var failed: bool
    var nextStmt: nat
    /** Unreadable tokens of the whole input. */
    ghost const total: nat

    /** No error so far and none to come from the lexer. */
    predicate Fine()
      reads this
    {
      !panic && !failed && Clean(toks)
    }

    /** Without an error no unreadable token was passed over. */
    ghost predicate Kept()
      reads this
    {
      failed || (Bads(toks) == total && (toks != [] ==> !toks[0].Bad?))
    }

    constructor (input: Tokens)
      ensures toks == SkipBad(input) && nextStmt == 0 && (Clean(input) <==> Fine())
      ensures Clean(input) ==> toks == input
      ensures Kept() && total == Bads(input)
    {
      total := Bads(input);
      toks, previous, nextStmt := SkipBad(input), Semicolon, 0;
      panic := input != [] && input[0].Bad?;
      failed := input != [] && input[0].Bad?;
      new;
      BadSkipped(input);
    }

    method Error()
      modifies `panic, `failed
      ensures panic && failed
    {
      panic, failed := true, true;
    }

    method Advance()
      modifies `toks, `previous, `panic, `failed
      ensures |toks| <= |old(toks)| && (old(toks) != [] ==> |toks| < |old(toks)| && previous == old(toks)[0])
      ensures (old(panic) ==> panic) && (old(failed) ==> failed) && (old(Kept()) ==> Kept())
      ensures old(toks) != [] && old(Fine()) ==> Fine() && toks == old(toks)[1..]
      ensures old(toks) != [] ==> exists n :: 0 < n <= |old(toks)| && Passed(old(toks), n) && toks == old(toks)[n..]
    {
      if toks == [] { return; }
      previous := toks[0];
      toks := toks[1..];
      ghost var n := 1;
      while toks != [] && toks[0].Bad?
        invariant |toks| < |old(toks)| && previous == old(toks)[0] && (old(panic) ==> panic) && (old(failed) ==> failed)
        invariant 0 < n <= |old(toks)| && toks == old(toks)[n..] && forall j :: 0 < j < n ==> old(toks)[j].Bad?
        invariant old(Kept()) ==> failed || Bads(toks) == total
        invariant old(Fine()) ==> Fine() && toks == old(toks)[1..]
        decreases |toks|
      {
        Error();
        toks := toks[1..];
        n := n + 1;
      }
      assert Passed(old(toks), n);
    }

    predicate Check(t: Token)
      reads this
    {
      toks != [] && toks[0] == t
    }

    method Match(t: Token) returns (matched: bool)
      modifies `toks, `previous, `panic, `failed
      ensures matched == old(Check(t)) && |toks| <= |old(toks)| && (matched ==> |toks| < |old(toks)|)
      ensures !matched ==> toks == old(toks) && panic == old(panic) && previous == old(previous) && failed == old(failed)
      ensures (old(panic) ==> panic) && (old(failed) ==> failed) && (old(Kept()) ==> Kept())
      ensures old(Fine()) ==> Fine() && (matched ==> toks == old(toks)[1..])
    {
      matched := Check(t);
      if matched { Advance(); }
    }

    method Consume(t: Token)
      modifies `toks, `previous, `panic, `failed
      ensures |toks| <= |old(toks)| && (|toks| < |old(toks)| || panic) && (old(panic) ==> panic) && (old(failed) ==> failed) && (old(Kept()) ==> Kept())
      ensures old(Check(t)) ==> |toks| < |old(toks)|
      ensures old(Fine()) ==> if Expect(t, old(toks)).Some? then Fine() && toks == Expect(t, old(toks)).value else failed
    {
      if Check(t) { Advance(); } else { Error(); }
    }

    predicate AtDeclaration()
      reads this
    {
      toks != [] && IsDeclarationStart(toks[0])
    }

    /** Declaration specifiers: the type they spell, int when they spell none, and the last storage class. */
    method ParseDeclarationSpecs() returns (ty: Ty, sc: Storage)
      modifies `toks, `previous, `panic, `failed
      ensures |toks| <= |old(toks)| && (old(AtDeclaration()) ==> |toks| < |old(toks)|)
      ensures (old(panic) ==> panic) && (old(failed) ==> failed) && (old(Kept()) ==> Kept())
      ensures |toks| < |old(toks)| || panic
      ensures old(Fine()) ==> if SpecsOf(old(toks)).Some? then Fine() && SpecsOf(old(toks)) == Some(((ty, sc), toks)) else failed
    {
      hide Clean;
      var s := NO_SPECS;
      while AtDeclaration()
        invariant |toks| <= |old(toks)| && (old(panic) ==> panic) && (old(failed) ==> failed) && (old(Kept()) ==> Kept())
        invariant |toks| == |old(toks)| ==> toks == old(toks) && s == NO_SPECS
        invariant old(Fine()) ==> if Fine() then ParseSpecs(s, toks) == ParseSpecs(NO_SPECS, old(toks)) && !s.twice
                                  else failed && ParseSpecs(NO_SPECS, old(toks)).0.twice
        decreases |toks|
      {
        var t := toks[0];
        ghost var before := toks;
        Advance();
        if IsStorageWord(t) && !s.sc.ScNone? {
          TwiceStays(AddSpec(s, t), before[1..]);
          Error();
        }
        s := AddSpec(s, t);
      }
      sc := s.sc;
      ty := Int;
      if SpecType(s).Some? { ty := SpecType(s).value; } else { Error(); }
    }

    method ParseTypeName() returns (ty: Ty)
      modifies `toks, `previous, `panic, `failed
      ensures |toks| <= |old(toks)| && (old(panic) ==> panic) && (old(failed) ==> failed) && (old(Kept()) ==> Kept()) && (old(AtDeclaration()) ==> |toks| < |old(toks)|)
      ensures old(Fine()) ==> if Pratt.ParseTypeName(old(toks)).Some? then Fine() && Pratt.ParseTypeName(old(toks)) == Some((ty, toks)) else failed
    {
      var sc;
      ty, sc := ParseDeclarationSpecs();
      if !sc.ScNone? { Error(); }
    }

    /** An expression all of whose top-level operators bind at least as tightly as 'prec'; None after an
        error. Something is consumed, or an error reported. */
    method ParseExpression(prec: nat) returns (e: Option<Raw>)
      requires prec >= 1
      modifies `toks, `previous, `panic, `failed
      ensures |toks| <= |old(toks)| && (|toks| < |old(toks)| || panic) && (old(panic) ==> panic) && (old(failed) ==> failed) && (old(Kept()) ==> Kept())
      ensures old(Fine()) ==> if ParseE(prec, old(toks)).Some? then Fine() && e.Some? && ParseE(prec, old(toks)) == Some((e.value, toks)) else failed
      decreases |toks|, 0
    {
      hide ParsePrefix, ParseInfix, Clean;
      if toks == [] || !HasPrefix(toks[0]) {
        assert ParsePrefix(toks).None? by { PrefixNeeded(toks); }
        Error();
        return None;
      }
      ghost var ts, fine := toks, Fine();
      Advance();
      e := Prefix(ts);
      while toks != [] && prec <= Prec(toks[0])
        invariant |toks| < |ts| && (old(panic) ==> panic) && (old(failed) ==> failed) && (old(Kept()) ==> Kept())
        invariant fine ==> if Fine() then e.Some? && Climb(prec, e.value, toks) == ParseE(prec, ts) else failed && ParseE(prec, ts).None?
        decreases |toks|
      {
        ghost var here := toks;
        InfixExists(toks[0]);
        Advance();
        e := Infix(e, here);
      }
    }

    /** The rest of an expression that starts with the token just consumed. */
    method Prefix(ghost ts: Tokens) returns (e: Option<Raw>)
      requires ts != [] && HasPrefix(ts[0]) && previous == ts[0] && |toks| < |ts|
      modifies `toks, `previous, `panic, `failed
      ensures |toks| <= |old(toks)| && (old(panic) ==> panic) && (old(failed) ==> failed) && (old(Kept()) ==> Kept())
      ensures old(Fine()) && old(toks) == ts[1..] ==>
                (if Fine() then e.Some? && ParsePrefix(ts) == Some((e.value, toks)) else failed && ParsePrefix(ts).None?)
      decreases |toks|, 2
    {
      hide ParseE, Climb, ParseInfix, Clean;
      if (previous.IntLiteral? || previous.LongLiteral?) && previous.v > LITERAL_MAX {
        Error();
        e := None;
      } else if previous.IntLiteral? {
        e := Some(if previous.v < 0x8000_0000 then RInt(previous.v) else RLong(previous.v));
      } else if previous.LongLiteral? {
        e := Some(RLong(previous.v));
      } else if previous.Identifier? {
        e := Some(RName(previous.name));
      } else if previous.Step? {
        var inc := previous.inc;
        var a := ParseExpression(UNARY);
        e := if a.None? then None else Some(RPre(inc, a.value));
      } else if previous.LParen? {
        e := GroupingOrCast(ts);
      } else {
        var op := UnaryOf(previous);
        UnaryPrefix(ts);
        var a := ParseExpression(UNARY);
        e := if a.None? then None else Some(RUnary(op, a.value));
      }
    }

    method GroupingOrCast(ghost ts: Tokens) returns (e: Option<Raw>)
      requires ts != [] && ts[0] == LParen && |toks| < |ts|
      modifies `toks, `previous, `panic, `failed
      ensures |toks| <= |old(toks)| && (old(panic) ==> panic) && (old(failed) ==> failed) && (old(Kept()) ==> Kept())
      ensures old(Fine()) && old(toks) == ts[1..] ==>
                (if Fine() then e.Some? && ParsePrefix(ts) == Some((e.value, toks)) else failed && ParsePrefix(ts).None?)
      decreases |toks|, 1
    {
      hide ParseE, Climb, ParseInfix, Clean, ParseUnary;
      if toks != [] && IsTypeWord(toks[0]) {
        var ty := ParseTypeName();
        Consume(RParen);
        var a := ParseExpression(UNARY);
        e := if a.None? then None else Some(RCast(ty, a.value));
      } else {
        e := ParseExpression(ASSIGNMENT);
        Consume(RParen);
      }
    }

    /** The operator just consumed, applied to 'left'. */
    method Infix(left: Option<Raw>, ghost ts: Tokens) returns (e: Option<Raw>)
      requires ts != [] && previous == ts[0] && Prec(ts[0]) >= 1 && |toks| < |ts|
      modifies `toks, `previous, `panic, `failed
      ensures |toks| <= |old(toks)| && (old(panic) ==> panic) && (old(failed) ==> failed) && (old(Kept()) ==> Kept())
      ensures old(Fine()) && old(toks) == ts[1..] && left.Some? ==>
                (if Fine() then e.Some? && ParseInfix(left.value, ts) == Some((e.value, toks)) else failed && ParseInfix(left.value, ts).None?)
      decreases |toks|, 2
    {
      hide ParseE, Climb, ParsePrefix, Clean;
      InfixExists(previous);
      match previous
      case LParen =>
        CallSpec(ts);
        var args := CallArgs(ts);
        e := if left.None? || args.None? then None else Some(RCall(left.value, args.value));
      case Question =>
        var t := ParseExpression(ASSIGNMENT);
        if t.None? { return None; }
        Consume(Colon);
        var f := ParseExpression(TERNARY);
        e := if left.None? || f.None? then None else Some(RConditional(left.value, t.value, f.value));
      case Op(op) =>
        var r := ParseExpression(OpLevel(op) + 1);
        e := if left.None? || r.None? then None else Some(RBinary(op, left.value, r.value));
      case Step(inc) => e := if left.None? then None else Some(RPost(inc, left.value));
      case Becomes(op) =>
        var r := ParseExpression(ASSIGNMENT);
        e := if left.None? || r.None? then None
             else Some(if op.None? then RAssign(left.value, r.value) else RCompound(op.value, left.value, r.value));
    }

    /** Arguments of a call up to the closing parenthesis. */
    method CallArgs(ghost ts: Tokens) returns (args: Option<seq<Raw>>)
      requires ts != [] && ts[0] == LParen && |toks| < |ts|
      modifies `toks, `previous, `panic, `failed
      ensures |toks| <= |old(toks)| && (old(panic) ==> panic) && (old(failed) ==> failed) && (old(Kept()) ==> Kept())
      ensures old(Fine()) && old(toks) == ts[1..] ==>
                (if Fine() then args.Some? && AllArgs(ts[1..]) == Some((args.value, toks)) else failed && AllArgs(ts[1..]).None?)
      decreases |toks|, 1
    {
      hide ParseE, Climb, ParsePrefix, Clean, ParseArgs;
      ghost var goal, fine := AllArgs(toks), Fine();
      if Check(RParen) {
        Advance();
        return Some([]);
      }
      var xs: seq<Raw>, more := [], true;
      NoArgYet(toks);
      while more
        invariant |toks| <= |old(toks)| && (old(panic) ==> panic) && (old(failed) ==> failed) && (old(Kept()) ==> Kept())
        invariant fine ==> if Fine() then (if more then ArgsFrom(xs, toks) == goal else Ends(xs, RParen, toks, goal)) else failed && goal.None?
        decreases |toks| + (if more then 1 else 0)
      {
        if fine && Fine() { ArgTaken(xs, toks, goal); }
        var a := ParseExpression(ASSIGNMENT);
        if a.None? {
          return None;
        }
        more := Match(Comma);
        xs := xs + [a.value];
      }
      Consume(RParen);
      args := Some(xs);
    }

    /** Skips to the next token that may start a declaration, the current one left out. */
    method SynchronizeTranslationUnit()
      modifies `toks, `previous, `panic, `failed
      ensures |toks| <= |old(toks)| && (old(failed) ==> failed) && (old(Kept()) ==> Kept())
      ensures old(toks) != [] ==>
                exists k :: 0 < k <= |old(toks)| && toks == old(toks)[k..]
                            && (k < |old(toks)| ==> IsDeclarationStart(old(toks)[k])) && forall j :: 0 < j < k ==> !IsDeclarationStart(old(toks)[j])
    {
      panic := false;
      ghost var k := 0;
      while toks != []
        invariant |toks| <= |old(toks)| && (old(failed) ==> failed) && (old(Kept()) ==> Kept())
        invariant 0 <= k <= |old(toks)| && toks == old(toks)[k..] && forall j :: 0 < j <= k && j < |old(toks)| ==> !IsDeclarationStart(old(toks)[j])
        decreases |toks|
      {
        ghost var was := toks;
        Advance();
        ghost var n :| 0 < n <= |was| && Passed(was, n) && toks == was[n..];
        forall j | k < j < k + n ensures !IsDeclarationStart(old(toks)[j]) { assert old(toks)[j] == was[j - k]; }
        k := k + n;
        if AtDeclaration() { return; }
      }
    }

    /** Skips to the first token, the current one included, that may start a block item or stands after a semicolon. */
    method SynchronizeBlockItem()
      modifies `toks, `previous, `panic, `failed
      ensures |toks| <= |old(toks)| && (old(failed) ==> failed) && (old(Kept()) ==> Kept())
      ensures old(toks) != [] && !old(toks)[0].Bad? ==>
                exists k :: 0 <= k <= |old(toks)| && toks == old(toks)[k..]
                            && (k < |old(toks)| ==> Resumes(old(previous), old(toks), k)) && forall j :: 0 <= j < k ==> !Resumes(old(previous), old(toks), j)
    {
      panic := false;
      ghost var k := 0;
      while toks != []
        invariant |toks| <= |old(toks)| && (old(failed) ==> failed) && (old(Kept()) ==> Kept())
        invariant 0 <= k <= |old(toks)| && toks == old(toks)[k..]
        invariant old(toks) != [] && !old(toks)[0].Bad? ==>
                    && (toks != [] ==> !toks[0].Bad?) && previous == LastRead(old(previous), old(toks), k)
                    && forall j :: 0 <= j < k ==> !Resumes(old(previous), old(toks), j)
        decreases |toks|
      {
        if previous.Semicolon? || AtDeclaration() || StartsItem(toks[0]) { return; }
        ghost var was := toks;
        Advance();
        ghost var n :| 0 < n <= |was| && Passed(was, n) && toks == was[n..];
        forall j | k < j < k + n ensures old(toks)[j].Bad? { assert old(toks)[j] == was[j - k]; }
        if !old(toks)[0].Bad? { BadsPassed(old(previous), old(toks), k, k + n); }
        k := k + n;
      }
    }

    /** A number for a new statement. */
    method NewStmt() returns (id: nat)
      modifies `nextStmt
      ensures id == old(nextStmt) && nextStmt == id + 1
    {
      id := nextStmt;
      nextStmt := nextStmt + 1;
    }

    /** The outcome 's' is that of the grammar: a tree if it has one, else an error. */
    predicate Follows(s: Option<RStmt>, spec: Numbered<RStmt>)
      reads this
    {
      && if spec.Some? then Fine() && s.Some? && spec == Some((s.value, toks, nextStmt)) else failed
    }

    /** A statement: the one the grammar reads, or an error. Something is consumed, or an error reported. */
    method ParseStatement() returns (s: Option<RStmt>)
      modifies this
      ensures |toks| <= |old(toks)| && (|toks| < |old(toks)| || panic) && (old(failed) ==> failed) && (old(Kept()) ==> Kept())
      ensures old(Fine()) ==> Follows(s, ParseS(old(toks), old(nextStmt)))
      decreases |toks|, 3
    {
      hide Clean, ParseItems, ParseWord, Grammar.Closed;
      if AtDeclaration() {
        Error();
        return None;
      }
      if Check(LBrace) {
        var items := ParseBlock();
        return if items.None? then None else Some(SBlock(items.value));
      }
      var m := Match(Semicolon);
      if m {
        var _ := NewStmt();
        return Some(SNull);
      }
      if toks != [] && toks[0].Word? && StartsStatement(toks[0].kw) {
        s := ParseKeyword();
        return;
      }
      if |toks| > 1 && toks[0].Identifier? && toks[1].Colon? {
        var name := toks[0].name;
        Advance();
        Advance();
        var id := NewStmt();
        var b := ParseStatement();
        return if b.None? then None else Some(SLabel(id, name, b.value));
      }
      if toks == [] || toks[0].Word? { NoExpression(toks, nextStmt); }
      s := ParseExprStatement();
    }

    method ParseExprStatement() returns (s: Option<RStmt>)
      modifies this
      ensures |toks| <= |old(toks)| && (|toks| < |old(toks)| || panic) && (old(panic) ==> panic) && (old(failed) ==> failed) && (old(Kept()) ==> Kept())
      ensures nextStmt == old(nextStmt) + 1
      ensures old(Fine()) ==> if Grammar.Closed(Semicolon, old(toks)).Some? then Fine() && s == Some(SExpr(Grammar.Closed(Semicolon, old(toks)).value.0)) && toks == Grammar.Closed(Semicolon, old(toks)).value.1 else failed
    {
      hide Clean, ParseE;
      var _ := NewStmt();
      var e := ParseClosed(Semicolon);
      s := if e.None? then None else Some(SExpr(e.value));
    }

    /** An expression and the token that ends it. */
    method ParseClosed(end: Token) returns (e: Option<Raw>)
      modifies `toks, `previous, `panic, `failed
      ensures |toks| <= |old(toks)| && (|toks| < |old(toks)| || panic) && (old(panic) ==> panic) && (old(failed) ==> failed) && (old(Kept()) ==> Kept())
      ensures old(Fine()) ==> if Grammar.Closed(end, old(toks)).Some? then Fine() && e.Some? && Grammar.Closed(end, old(toks)) == Some((e.value, toks)) else failed
    {
      hide Clean, ParseE;
      e := ParseExpression(ASSIGNMENT);
      Consume(end);
    }

    method ParseClosedOptional(end: Token) returns (e: Option<Option<Raw>>)
      modifies `toks, `previous, `panic, `failed
      ensures |toks| <= |old(toks)| && (old(panic) ==> panic) && (old(failed) ==> failed) && (old(Kept()) ==> Kept())
      ensures old(Fine()) ==> if ClosedOptional(end, old(toks)).Some? then Fine() && e.Some? && ClosedOptional(end, old(toks)) == Some((e.value, toks)) else failed
    {
      hide Clean, ParseE;
      if Check(end) {
        Consume(end);
        e := Some(None);
      } else {
        var x := ParseExpression(ASSIGNMENT);
        Consume(end);
        e := if x.None? then None else Some(Some(x.value));
      }
    }

    method ParseParenthesised() returns (e: Option<Raw>)
      modifies `toks, `previous, `panic, `failed
      ensures |toks| <= |old(toks)| && (old(panic) ==> panic) && (old(failed) ==> failed) && (old(Kept()) ==> Kept())
      ensures old(Fine()) ==> if Paren(old(toks)).Some? then Fine() && e.Some? && Paren(old(toks)) == Some((e.value, toks)) else failed
    {
      hide Clean, Grammar.Closed;
      Consume(LParen);
      e := ParseClosed(RParen);
    }

    /** A statement that starts with a keyword. */
    method ParseKeyword() returns (s: Option<RStmt>)
      requires toks != [] && toks[0].Word? && StartsStatement(toks[0].kw)
      modifies this
      ensures |toks| < |old(toks)| && (old(failed) ==> failed) && (old(Kept()) ==> Kept())
      ensures old(Fine()) ==> Follows(s, ParseWord(old(toks)[0].kw, old(toks)[1..], old(nextStmt)))
      decreases |toks|, 2
    {
      hide Clean, ParseE, ParseS, ParseFor, ParseIf, ParseDo, Paren, ClosedOptional;
      var kw := toks[0].kw;
      Advance();
      if kw.KwIf? { s := ParseIfStatement(); return; }
      if kw.KwDo? { s := ParseDoStatement(); return; }
      if kw.KwFor? { s := ParseForStatement(); return; }
      if kw.KwWhile? || kw.KwSwitch? { s := ParseGuarded(kw); return; }
      if kw.KwCase? || kw.KwDefault? { s := ParseMarked(kw); return; }
      var _ := NewStmt();
      if kw.KwReturn? {
        var e := ParseClosedOptional(Semicolon);
        s := if e.None? then None else Some(SReturn(e.value));
      } else if kw.KwGoto? {
        var name := if toks != [] && toks[0].Identifier? then toks[0].name else "";
        if toks != [] && toks[0].Identifier? { Advance(); } else { Error(); }
        Consume(Semicolon);
        s := Some(SGoto(name));
      } else {
        Consume(Semicolon);
        s := Some(if kw.KwBreak? then SBreak else SContinue);
      }
    }

    method ParseGuarded(kw: Keyword) returns (s: Option<RStmt>)
      requires kw.KwWhile? || kw.KwSwitch?
      modifies this
      ensures |toks| <= |old(toks)| && (old(failed) ==> failed) && (old(Kept()) ==> Kept())
      ensures old(Fine()) ==> Follows(s, ParseWord(kw, old(toks), old(nextStmt)))
      decreases |toks|, 4
    {
      hide Clean, ParseS, Paren;
      var id := NewStmt();
      var c := ParseParenthesised();
      var b := ParseStatement();
      s := if c.None? || b.None? then None else Some(if kw.KwWhile? then SWhile(id, c.value, b.value) else SSwitch(id, c.value, b.value));
    }

    method ParseMarked(kw: Keyword) returns (s: Option<RStmt>)
      requires kw.KwCase? || kw.KwDefault?
      modifies this
      ensures |toks| <= |old(toks)| && (old(failed) ==> failed) && (old(Kept()) ==> Kept())
      ensures old(Fine()) ==> Follows(s, ParseWord(kw, old(toks), old(nextStmt)))
      decreases |toks|, 4
    {
      hide Clean, ParseS, ParseE;
      var id := NewStmt();
      var e := Some(RInt(0));
      if kw.KwCase? { e := ParseExpression(TERNARY); }
      Consume(Colon);
      var b := ParseStatement();
      s := if e.None? || b.None? then None else Some(if kw.KwCase? then SCase(id, e.value, b.value) else SDefault(id, b.value));
    }

    method ParseIfStatement() returns (s: Option<RStmt>)
      modifies this
      ensures |toks| <= |old(toks)| && (old(failed) ==> failed) && (old(Kept()) ==> Kept())
      ensures old(Fine()) ==> Follows(s, ParseIf(old(toks), old(nextStmt)))
      decreases |toks|, 4
    {
      hide Clean, ParseE, ParseS, Paren;
      var _ := NewStmt();
      var c := ParseParenthesised();
      var a := ParseStatement();
      var more := Match(Word(KwElse));
      var b := None;
      if more { b := ParseStatement(); }
      s := if c.None? || a.None? || (more && b.None?) then None else Some(SIf(c.value, a.value, b));
    }

    method ParseDoStatement() returns (s: Option<RStmt>)
      modifies this
      ensures |toks| <= |old(toks)| && (old(failed) ==> failed) && (old(Kept()) ==> Kept())
      ensures old(Fine()) ==> Follows(s, ParseDo(old(toks), old(nextStmt)))
      decreases |toks|, 4
    {
      hide Clean, ParseE, ParseS, Paren;
      var id := NewStmt();
      var b := ParseStatement();
      Consume(Word(KwWhile));
      var c := ParseParenthesised();
      Consume(Semicolon);
      s := if c.None? || b.None? then None else Some(SDoWhile(id, c.value, b.value));
    }

    /** What stands before the first semicolon of a 'for'. */
    method ParseForInitializer() returns (s: Option<RStmt>)
      modifies this
      ensures |toks| <= |old(toks)| && (old(failed) ==> failed) && (old(Kept()) ==> Kept())
      ensures old(Fine()) ==> Follows(s, ParseForInit(old(toks), old(nextStmt)))
      decreases |toks|, 4
    {
      hide Clean, ParseLocal, Grammar.Closed;
      if AtDeclaration() {
        s := ParseDeclaration();
      } else {
        var empty := Match(Semicolon);
        if empty { s := Some(SNull); } else { s := ParseExprStatement(); }
      }
    }

    /** What follows 'for'. */
    method ParseForStatement() returns (s: Option<RStmt>)
      modifies this
      ensures |toks| <= |old(toks)| && (old(failed) ==> failed) && (old(Kept()) ==> Kept())
      ensures old(Fine()) ==> Follows(s, ParseFor(old(toks), old(nextStmt)))
      decreases |toks|, 5
    {
      hide Clean, ParseE, ParseS, ClosedOptional, ParseForInit;
      var id := NewStmt();
      Consume(LParen);
      var i := ParseForInitializer();
      var t := ParseClosedOptional(Semicolon);
      var p := ParseClosedOptional(RParen);
      var b := ParseStatement();
      s := if i.None? || t.None? || p.None? || b.None? then None else Some(SFor(id, i.value, t.value, p.value, b.value));
    }

    method ParseBlockItem() returns (s: Option<RStmt>)
      modifies this
      ensures |toks| <= |old(toks)| && (|toks| < |old(toks)| || panic) && (old(failed) ==> failed) && (old(Kept()) ==> Kept())
      ensures old(Fine()) ==> Follows(s, ParseItem(old(toks), old(nextStmt)))
      decreases |toks|, 4
    {
      hide Clean, ParseLocal, ParseS;
      if AtDeclaration() { s := ParseDeclaration(); } else { s := ParseStatement(); }
    }

    /** Each item either consumes something or reports an error, and after an error at least one token
        is skipped, so the loop ends on every input. */
    method ParseBlock() returns (items: Option<seq<RStmt>>)
      requires Check(LBrace)
      modifies this
      ensures |toks| < |old(toks)| && (old(failed) ==> failed) && (old(Kept()) ==> Kept())
      ensures old(Fine()) ==>
                var spec := ParseItems(old(toks)[1..], old(nextStmt) + 1);
                if spec.Some? then Fine() && items.Some? && spec == Some((items.value, toks, nextStmt)) else failed
      decreases |toks|, 0
    {
      hide Clean, ParseItem, ParseItems;
      ghost var start, fine := |toks|, Fine();
      var _ := NewStmt();
      Consume(LBrace);
      ghost var goal := ParseItems(toks, nextStmt);
      NoItemYet(toks, nextStmt);
      var xs: seq<RStmt>, broken := [], false;
      while toks != [] && !Check(RBrace)
        invariant |toks| < start && (old(failed) ==> failed) && (old(Kept()) ==> Kept())
        invariant fine ==> if Fine() then !broken && ItemsFrom(xs, toks, nextStmt) == goal else failed && goal.None?
        decreases |toks|
      {
        var before := |toks|;
        if fine && Fine() { ItemTaken(xs, toks, nextStmt, goal); }
        var i := ParseBlockItem();
        if i.None? { broken := true; } else { xs := xs + [i.value]; }
        if panic {
          if |toks| == before { Advance(); }
          SynchronizeBlockItem();
        }
      }
      if fine && Fine() { ItemsEnd(xs, toks, nextStmt, goal); }
      Consume(RBrace);
      items := if broken then None else Some(xs);
    }

    method ParseDeclaratorOf(base: Ty, abstractAllowed: bool) returns (d: Declaration)
      modifies `toks, `previous, `panic, `failed
      ensures |toks| <= |old(toks)| && (old(panic) ==> panic) && (old(failed) ==> failed) && (old(Kept()) ==> Kept())
      ensures old(Fine()) ==> var spec := ParseDeclarator(base, abstractAllowed, old(toks));
                              if spec.Some? then Fine() && spec == Some((d, toks)) else failed
      decreases |toks|, 1
    {
      hide Clean, ParseParams;
      var name := "";
      if toks != [] && toks[0].Identifier? {
        name := toks[0].name;
        Advance();
      } else if !abstractAllowed {
        Error();
      }
      var isFunction := Match(LParen);
      if isFunction {
        var ps := ParseParameterList();
        d := FunctionOf(name, base, ps);
      } else {
        d := ObjectOf(name, base);
      }
    }

    method ParseParameter() returns (p: Declaration)
      modifies `toks, `previous, `panic, `failed
      ensures |toks| <= |old(toks)| && (old(panic) ==> panic) && (old(failed) ==> failed) && (old(Kept()) ==> Kept()) && (|toks| < |old(toks)| || panic)
      ensures old(Fine()) ==> if ParseParam(old(toks)).Some? then Fine() && ParseParam(old(toks)) == Some((p, toks)) else failed
      decreases |toks|, 2
    {
      hide Clean, SpecsOf, ParseDeclarator;
      var ty, sc := ParseDeclarationSpecs();
      p := ParseDeclaratorOf(ty, true);
      p := p.(sc := sc, isParameter := true);
    }

    method ParseParameterList() returns (ps: seq<Declaration>)
      modifies `toks, `previous, `panic, `failed
      ensures |toks| <= |old(toks)| && (old(panic) ==> panic) && (old(failed) ==> failed) && (old(Kept()) ==> Kept())
      ensures old(Fine()) ==> if ParseParams(old(toks)).Some? then Fine() && ParseParams(old(toks)) == Some((ps, toks)) else failed
      decreases |toks|, 3
    {
      hide Clean, ParamList;
      ps := [];
      var m := Match(RParen);
      if m { return; }
      if |toks| > 1 && toks[0] == Word(KwVoid) && toks[1] == RParen {
        Advance();
        Advance();
        return;
      }
      ghost var goal, fine := ParamList(toks), Fine();
      NoParamYet(toks);
      var more := true;
      while more
        invariant |toks| <= |old(toks)| && (old(panic) ==> panic) && (old(failed) ==> failed) && (old(Kept()) ==> Kept())
        invariant fine ==> if Fine() then (if more then ParamsFrom(ps, toks) == goal else Ends(ps, RParen, toks, goal)) else failed && goal.None?
        decreases |toks| + if more then 1 else 0
      {
        if fine && Fine() { ParamTaken(ps, toks, goal); }
        var p := ParseParameter();
        more := Match(Comma);
        ps := ps + [p];
      }
      Consume(RParen);
    }

    method ParseInitDeclaratorOf(base: Ty, sc: Storage) returns (d: Declaration)
      modifies `toks, `previous, `panic, `failed
      ensures |toks| <= |old(toks)| && (old(panic) ==> panic) && (old(failed) ==> failed) && (old(Kept()) ==> Kept())
      ensures old(Fine()) ==> var spec := ParseInitDeclarator(base, sc, old(toks));
                              if spec.Some? then Fine() && spec == Some((d, toks)) else failed
    {
      hide Clean, ParseDeclarator, ParseE;
      d := ParseDeclaratorOf(base, false);
      d := d.(sc := sc);
      var m := Match(Becomes(None));
      if m {
        var e := ParseExpression(ASSIGNMENT);
        if d.isFunction { Error(); } else { d := d.(init := e); }
      }
    }

    /** The declarators after the first, up to the semicolon. */
    method ParseRest(first: Declaration, base: Ty, sc: Storage, ghost ts: Tokens) returns (ds: seq<Declaration>)
      modifies `toks, `previous, `panic, `failed
      ensures |toks| <= |old(toks)| && (old(panic) ==> panic) && (old(failed) ==> failed) && (old(Kept()) ==> Kept())
      ensures old(Fine()) && ParseInitDeclarator(base, sc, ts) == Some((first, old(toks))) ==>
                if ParseDecls(base, sc, ts).Some? then Fine() && ParseDecls(base, sc, ts) == Some((ds, toks)) else failed
    {
      hide Clean, ParseInitDeclarator, ParseDecls;
      ghost var goal := ParseDecls(base, sc, ts);
      ghost var fine := Fine() && ParseInitDeclarator(base, sc, ts) == Some((first, toks));
      ds := [first];
      if fine {
        NoDeclYet(base, sc, ts);
        DeclTaken([], base, sc, ts, goal);
        assert [] + [first] == [first];
      }
      var more := Match(Comma);
      while more
        invariant |toks| <= |old(toks)| && (old(panic) ==> panic) && (old(failed) ==> failed) && (old(Kept()) ==> Kept())
        invariant fine ==> if Fine() then (if more then DeclsFrom(ds, base, sc, toks) == goal else Ends(ds, Semicolon, toks, goal)) else failed && goal.None?
        decreases |toks| + if more then 1 else 0
      {
        if fine && Fine() { DeclTaken(ds, base, sc, toks, goal); }
        var d := ParseInitDeclaratorOf(base, sc);
        more := Match(Comma);
        ds := ds + [d];
      }
      Consume(Semicolon);
    }

    /** A declaration inside a function, where no function is defined. */
    method ParseDeclaration() returns (s: Option<RStmt>)
      requires AtDeclaration()
      modifies this
      ensures |toks| < |old(toks)| && (old(failed) ==> failed) && (old(Kept()) ==> Kept())
      ensures old(Fine()) ==> Follows(s, ParseLocal(old(toks), old(nextStmt)))
      decreases |toks|, 3
    {
      hide Clean, SpecsOf, ParseDecls, ParseInitDeclarator;
      var _ := NewStmt();
      var ty, sc := ParseDeclarationSpecs();
      ghost var ts, fine := toks, Fine();
      var first := ParseInitDeclaratorOf(ty, sc);
      if fine { DeclsNeedFirst(ty, sc, ts); }
      if first.isFunction && Check(LBrace) {
        Error();
        var _ := ParseBlock();
        return None;
      }
      var ds := ParseRest(first, ty, sc, ts);
      s := Some(SDecl(ds));
    }

    /** A declaration at file scope, or a function definition. */
    method ParseFileDeclaration() returns (items: Option<seq<Item>>)
      requires AtDeclaration()
      modifies this
      ensures |toks| < |old(toks)| && (old(failed) ==> failed) && (old(Kept()) ==> Kept())
      ensures old(Fine()) ==>
                var spec := ParseTop(old(toks), old(nextStmt));
                if spec.Some? then Fine() && items.Some? && spec == Some((items.value, toks, nextStmt)) else failed
    {
      hide Clean, SpecsOf, ParseDecls, ParseInitDeclarator, ParseItems;
      var _ := NewStmt();
      var ty, sc := ParseDeclarationSpecs();
      ghost var ts, fine := toks, Fine();
      var first := ParseInitDeclaratorOf(ty, sc);
      if fine { DeclsNeedFirst(ty, sc, ts); }
      if first.isFunction && Check(LBrace) {
        var b := ParseBlock();
        return if b.None? then None else Some([Item(first.(hasBody := true), b.value)]);
      }
      var ds := ParseRest(first, ty, sc, ts);
      items := Some(ItemsOf(ds));
    }

    /** The parser reaches the end of every token stream, valid or not. It reports an error exactly when
        the grammar has no reading, and otherwise returns that reading. */
    method ParseTranslationUnit() returns (items: Option<seq<Item>>)
      modifies this
      ensures toks == [] && (old(failed) ==> failed) && (old(Kept()) ==> Kept()) && (items.Some? <==> !failed)
      ensures old(Fine()) ==> (!failed <==> ParseUnit(old(toks), old(nextStmt)).Some?) && (!failed ==> items == ParseUnit(old(toks), old(nextStmt)))
    {
      hide Clean, ParseTop;
      ghost var goal, fine := ParseUnit(toks, nextStmt), Fine();
      var xs: seq<Item> := [];
      NoTopYet(toks, nextStmt);
      while toks != []
        invariant (old(failed) ==> failed) && (old(Kept()) ==> Kept())
        invariant fine ==> if Fine() then UnitFrom(xs, toks, nextStmt) == goal else failed && goal.None?
        decreases |toks|
      {
        var before := |toks|;
        if fine && Fine() { TopTaken(xs, toks, nextStmt, goal); }
        var i := None;
        if !AtDeclaration() { Error(); } else { i := ParseFileDeclaration(); }
        if i.Some? { xs := xs + i.value; }
        if panic {
          if |toks| == before { Advance(); }
          SynchronizeTranslationUnit();
        }
      }
      if fine && Fine() { assert xs + [] == xs; }
      items := if failed then None else Some(xs);
    }
  }

  /** Nothing else starts with a keyword. */
  lemma NoExpression(ts: Tokens, n: nat)
    requires ts == [] || (ts[0].Word? && !StartsStatement(ts[0].kw))
    ensures Grammar.Closed(Semicolon, ts).None?
    ensures ts != [] ==> ParseWord(ts[0].kw, ts[1..], n).None?
  {
    PrefixNeeded(ts);
  }

  predicate StartsStatement(k: Keyword) {
    k.KwReturn? || k.KwIf? || k.KwWhile? || k.KwDo? || k.KwFor? || k.KwSwitch? || k.KwCase? || k.KwDefault? || k.KwGoto? || k.KwBreak?
    || k.KwContinue?
  }

  lemma BadSkipped(input: Tokens)
    ensures input != [] && !input[0].Bad? ==> SkipBad(input) == input
    ensures Clean(input) ==> input == [] || !input[0].Bad?
  {
  }

  predicate StartsItem(t: Token) {
    t.RBrace? ||
    (t.Word? && (t.kw.KwReturn? || t.kw.KwIf? || t.kw.KwFor? || t.kw.KwWhile? || t.kw.KwDo? || t.kw.KwBreak? || t.kw.KwContinue?
                 || t.kw.KwSwitch? || t.kw.KwCase? || t.kw.KwDefault? || t.kw.KwGoto?))
  }

  /** What a call's parentheses hold. */
  function AllArgs(ts: Tokens): Parsed<seq<Raw>> {
    if ts != [] && ts[0] == RParen then Some(([], ts[1..])) else ParseArgs(ts)
  }

  function ArgsFrom(xs: seq<Raw>, ts: Tokens): Parsed<seq<Raw>> {
    var r := ParseArgs(ts);
    if r.None? then None else Some((xs + r.value.0, r.value.1))
  }

  lemma NoArgYet(ts: Tokens)
    ensures ArgsFrom([], ts) == ParseArgs(ts)
  {
    hide ParseArgs;
    var r := ParseArgs(ts);
    if r.Some? { assert [] + r.value.0 == r.value.0; }
  }

  lemma UnaryPrefix(ts: Tokens)
    requires ts != [] && HasPrefix(ts[0]) && (ts[0].Op? || ts[0].Bang? || ts[0].Tilde?)
    ensures var r := ParseE(UNARY, ts[1..]);
            ParsePrefix(ts) == if r.None? then None else Some((RUnary(UnaryOf(ts[0]), r.value.0), r.value.1))
  {
    hide ParseE;
    assert ParsePrefix(ts) == ParseUnary(UnaryOf(ts[0]), ts);
  }

  lemma CallSpec(ts: Tokens)
    requires ts != [] && ts[0] == LParen
    ensures forall left :: ParseInfix(left, ts) ==
              (var r := AllArgs(ts[1..]); if r.None? then None else Some((RCall(left, r.value.0), r.value.1)))
  {
    hide ParseArgs;
  }

  /** One argument further. */
  lemma ArgTaken(xs: seq<Raw>, ts: Tokens, goal: Parsed<seq<Raw>>)
    requires ArgsFrom(xs, ts) == goal
    ensures var a := ParseE(ASSIGNMENT, ts);
            if a.None? then goal.None?
            else if a.value.1 != [] && a.value.1[0] == Comma then ArgsFrom(xs + [a.value.0], a.value.1[1..]) == goal
            else Ends(xs + [a.value.0], RParen, a.value.1, goal)
  {
    hide ParseE;
    var a := ParseE(ASSIGNMENT, ts);
    if a.Some? && a.value.1 != [] && a.value.1[0] == Comma {
      var r := ParseArgs(a.value.1[1..]);
      if r.Some? { assert xs + ([a.value.0] + r.value.0) == xs + [a.value.0] + r.value.0; }
    }
  }

  lemma PrefixNeeded(ts: Tokens)
    requires ts == [] || !HasPrefix(ts[0])
    ensures ParsePrefix(ts).None?
  {
    hide ParseE;
  }

  /** Several storage classes are not forgotten. */
  lemma {:induction false} TwiceStays(s: Specs, ts: Tokens)
    ensures s.twice ==> ParseSpecs(s, ts).0.twice
    decreases |ts|
  {
    if ts != [] && IsDeclarationStart(ts[0]) { TwiceStays(AddSpec(s, ts[0]), ts[1..]); }
  }
}
