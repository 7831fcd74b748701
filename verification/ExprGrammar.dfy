/** The grammar of expressions, section 6.5 of ISO/IEC 9899:2011 without its pointers, arrays, structures and comma
    operator, and that precedence climbing reads every expression of it as the grammar groups it. */
module ExprGrammar {
  import opened Arith
  import opened Ast
  import opened Syntax
  import opened Pratt

  datatype Category =
    | PrimaryExpr | PostfixExpr | UnaryExpr | CastExpr | MultiplicativeExpr | AdditiveExpr | ShiftExpr | RelationalExpr
    | EqualityExpr | AndExpr | ExclusiveOrExpr | InclusiveOrExpr | LogicalAndExpr | LogicalOrExpr | ConditionalExpr
    | AssignmentExpr

  /** The category each of whose expressions is one of 'c' too (sections 6.5.2 to 6.5.16). */
  function Tighter(c: Category): Category {
    match c
    case PrimaryExpr => PrimaryExpr
    case PostfixExpr => PrimaryExpr
    case UnaryExpr => PostfixExpr
    case CastExpr => UnaryExpr
    case MultiplicativeExpr => CastExpr
    case AdditiveExpr => MultiplicativeExpr
    case ShiftExpr => AdditiveExpr
    case RelationalExpr => ShiftExpr
    case EqualityExpr => RelationalExpr
    case AndExpr => EqualityExpr
    case ExclusiveOrExpr => AndExpr
    case InclusiveOrExpr => ExclusiveOrExpr
    case LogicalAndExpr => InclusiveOrExpr
    case LogicalOrExpr => LogicalAndExpr
    case ConditionalExpr => LogicalOrExpr
    case AssignmentExpr => ConditionalExpr
  }

  function Looseness(c: Category): nat {
    match c
    case PrimaryExpr => 0
    case PostfixExpr => 1
    case UnaryExpr => 2
    case CastExpr => 3
    case MultiplicativeExpr => 4
    case AdditiveExpr => 5
    case ShiftExpr => 6
    case RelationalExpr => 7
    case EqualityExpr => 8
    case AndExpr => 9
    case ExclusiveOrExpr => 10
    case InclusiveOrExpr => 11
    case LogicalAndExpr => 12
    case LogicalOrExpr => 13
    case ConditionalExpr => 14
    case AssignmentExpr => 15
  }

  /** The binary operators of a category. */
  predicate OperatorOf(c: Category, op: BinOp) {
    match c
    case MultiplicativeExpr => op.Mul? || op.Div? || op.Rem?
    case AdditiveExpr => op.Add? || op.Sub?
    case ShiftExpr => op.Shl? || op.Shr?
    case RelationalExpr => op.Lt? || op.Gt? || op.Le? || op.Ge?
    case EqualityExpr => op.Eq? || op.Ne?
    case AndExpr => op.And?
    case ExclusiveOrExpr => op.Xor?
    case InclusiveOrExpr => op.Or?
    case LogicalAndExpr => op.LogAnd?
    case LogicalOrExpr => op.LogOr?
    case _ => false
  }

  /** The kinds of operator that analysis and translation tell apart are categories of the grammar. */
  lemma OperatorKinds(op: BinOp)
    ensures IsShift(op) <==> OperatorOf(ShiftExpr, op)
    ensures IsCompare(op) <==> OperatorOf(RelationalExpr, op) || OperatorOf(EqualityExpr, op)
    ensures IsLogical(op) <==> OperatorOf(LogicalAndExpr, op) || OperatorOf(LogicalOrExpr, op)
  {
  }

  predicate UnaryOperator(op: UnOp, t: Token) {
    match op
    case Plus => t == Op(Add)
    case Neg => t == Op(Sub)
    case BitNot => t == Tilde
    case LogNot => t == Bang
  }

  /** Type specifiers in any order (section 6.7.2). */
  predicate TypeWords(ws: multiset<Token>, ty: Ty) {
    match ty
    case Void => ws == multiset{Word(KwVoid)}
    case Int => ws == multiset{Word(KwInt)}
    case Long => ws == multiset{Word(KwLong)} || ws == multiset{Word(KwLong), Word(KwInt)}
    case _ => false
  }

  /** Storage-class words among 'ws'. */
  function Classes(ws: multiset<Token>): nat {
    ws[Word(KwStatic)] + ws[Word(KwExtern)] + ws[Word(KwAuto)] + ws[Word(KwRegister)]
  }

  function ClassWord(sc: Storage): Token
    requires !sc.ScNone?
  {
    match sc
    case ScStatic => Word(KwStatic)
    case ScExtern => Word(KwExtern)
    case ScAuto => Word(KwAuto)
    case ScRegister => Word(KwRegister)
  }

  predicate AllStarts(ws: Tokens) {
    forall k :: 0 <= k < |ws| ==> IsDeclarationStart(ws[k])
  }

  /** The words but for the storage classes. */
  function TypePart(ws: multiset<Token>): multiset<Token> {
    ws[Word(KwStatic) := 0][Word(KwExtern) := 0][Word(KwAuto) := 0][Word(KwRegister) := 0]
  }

  /** Declaration specifiers in any order: those of a type (section 6.7.2) and at most one storage class
      (section 6.7.1). */
  predicate Specifiers(ws: multiset<Token>, ty: Ty, sc: Storage) {
    && TypeWords(TypePart(ws), ty)
    && if sc.ScNone? then Classes(ws) == 0 else Classes(ws) == 1 && ws[ClassWord(sc)] == 1
  }

  /** A decimal constant has the first of 'int' and 'long' that can hold it, with a suffix 'long' (section 6.4.4.1). */
  predicate IsLeaf(t: Token, e: Raw) {
    match t
    case IntLiteral(v) => if v < 0x8000_0000 then e == RInt(v) else v < 0x8000_0000_0000_0000 && e == RLong(v)
    case LongLiteral(v) => v < 0x8000_0000_0000_0000 && e == RLong(v)
    case Identifier(n) => e == RName(n)
    case _ => false
  }

  /** 'ts' is an expression of category 'c' whose tree is 'e'. Two rules are wider than the standard's, and analysis
      refuses what they add because it is no lvalue: the left side of an assignment may be any conditional expression,
      and the operand of '++' and '--' any cast expression. */
  ghost predicate Derives(c: Category, ts: Tokens, e: Raw)
    decreases |ts|, Looseness(c), 1
  {
    (c != PrimaryExpr && Derives(Tighter(c), ts, e)) || Rule(c, ts, e)
  }

  ghost predicate Rule(c: Category, ts: Tokens, e: Raw)
    decreases |ts|, Looseness(c), 0
  {
    match c
    case PrimaryExpr =>
      || (|ts| == 1 && IsLeaf(ts[0], e))
      || (|ts| >= 2 && ts[0] == LParen && ts[|ts| - 1] == RParen && Derives(AssignmentExpr, ts[1..|ts| - 1], e))
    case PostfixExpr =>
      || (e.RPost? && ts != [] && ts[|ts| - 1] == Step(e.inc) && Derives(PostfixExpr, ts[..|ts| - 1], e.operand))
      || (e.RCall? && exists k :: 0 <= k < |ts| && CallAt(k, ts, e.callee, e.args))
    case UnaryExpr =>
      && ts != []
      && ((e.RPre? && ts[0] == Step(e.inc) && Derives(CastExpr, ts[1..], e.operand))
          || (e.RUnary? && UnaryOperator(e.uop, ts[0]) && Derives(CastExpr, ts[1..], e.operand)))
    case CastExpr => e.RCast? && exists k :: 0 < k < |ts| && CastAt(k, ts, e.target, e.operand)
    case ConditionalExpr =>
      e.RConditional? && exists i, j :: 0 <= i < j < |ts| && ConditionalAt(i, j, ts, e.cond, e.thn, e.els)
    case AssignmentExpr =>
      || (e.RAssign? && exists k :: 0 <= k < |ts| && InfixAt(k, ConditionalExpr, c, ts, Becomes(None), e.left, e.right))
      || (e.RCompound? && exists k :: 0 <= k < |ts| && InfixAt(k, ConditionalExpr, c, ts, Becomes(Some(e.bop)), e.left, e.right))
    case _ =>
      && e.RBinary? && OperatorOf(c, e.bop)
      && exists k :: 0 <= k < |ts| && InfixAt(k, c, Tighter(c), ts, Op(e.bop), e.left, e.right)
  }

  /** Operator 't' stands at 'k' between expressions of categories 'lc' and 'rc'. */
  ghost predicate InfixAt(k: nat, lc: Category, rc: Category, ts: Tokens, t: Token, l: Raw, r: Raw)
    requires k < |ts|
    decreases |ts|, 0, 0
  {
    ts[k] == t && Derives(lc, ts[..k], l) && Derives(rc, ts[k + 1..], r)
  }

  ghost predicate CallAt(k: nat, ts: Tokens, f: Raw, args: seq<Raw>)
    requires k < |ts|
    decreases |ts|, 0, 0
  {
    ts[k] == LParen && Derives(PostfixExpr, ts[..k], f) && DerivesArgs(ts[k + 1..], args)
  }

  ghost predicate CastAt(k: nat, ts: Tokens, ty: Ty, e: Raw)
    requires 0 < k < |ts|
    decreases |ts|, 0, 0
  {
    ts[0] == LParen && TypeWords(multiset(ts[1..k]), ty) && ts[k] == RParen && Derives(CastExpr, ts[k + 1..], e)
  }

  ghost predicate ConditionalAt(i: nat, j: nat, ts: Tokens, c: Raw, a: Raw, b: Raw)
    requires i < j < |ts|
    decreases |ts|, 0, 0
  {
    && ts[i] == Question && ts[j] == Colon
    && Derives(LogicalOrExpr, ts[..i], c) && Derives(AssignmentExpr, ts[i + 1..j], a) && Derives(ConditionalExpr, ts[j + 1..], b)
  }

  /** Arguments up to and including the closing parenthesis. */
  ghost predicate DerivesArgs(ts: Tokens, args: seq<Raw>)
    decreases |ts|, 0, 2
  {
    if args == [] then ts == [RParen]
    else exists k :: 0 <= k < |ts| && ArgAt(k, ts, args)
  }

  ghost predicate ArgAt(k: nat, ts: Tokens, args: seq<Raw>)
    requires k < |ts| && args != []
    decreases |ts|, 0, 1
  {
    && Derives(AssignmentExpr, ts[..k], args[0])
    && if |args| == 1 then ts[k..] == [RParen] else ts[k] == Comma && DerivesArgs(ts[k + 1..], args[1..])
  }

  /** 'e' is an expression of category 'c' and the tokens 'rest' follow it. */
  ghost predicate ExprSpan(c: Category, ts: Tokens, e: Raw, rest: Tokens) {
    |rest| <= |ts| && ts[|ts| - |rest|..] == rest && Derives(c, ts[..|ts| - |rest|], e)
  }

  /** The precedence at which the parser reads the expressions of a category. */
  function LevelFor(c: Category): (l: nat)
    ensures ASSIGNMENT <= l <= PRIMARY
  {
    match c
    case PrimaryExpr => PRIMARY
    case PostfixExpr => POSTFIX
    case UnaryExpr => UNARY
    case CastExpr => UNARY
    case _ => 16 - Looseness(c)
  }

  /** The parser's table of precedences is the grammar's. */
  lemma LevelsMatch(c: Category, op: BinOp)
    requires OperatorOf(c, op)
    ensures OpLevel(op) == LevelFor(c) && LevelFor(Tighter(c)) == OpLevel(op) + 1
  {
  }

  lemma {:induction false} DerivesStarts(c: Category, ts: Tokens, e: Raw)
    requires Derives(c, ts, e)
    ensures ts != [] && Starts(ts[0])
    decreases |ts|, Looseness(c), 1
  {
    hide Rule;
    if c != PrimaryExpr && Derives(Tighter(c), ts, e) { DerivesStarts(Tighter(c), ts, e); } else { RuleStarts(c, ts, e); }
  }

  lemma {:induction false} RuleStarts(c: Category, ts: Tokens, e: Raw)
    requires Rule(c, ts, e)
    ensures ts != [] && Starts(ts[0])
    decreases |ts|, Looseness(c), 0
  {
    hide DerivesArgs, TypeWords, Derives;
    if c == PostfixExpr && e.RPost? {
      DerivesStarts(PostfixExpr, ts[..|ts| - 1], e.operand);
    } else if c == PostfixExpr {
      var k :| 0 <= k < |ts| && CallAt(k, ts, e.callee, e.args);
      DerivesStarts(PostfixExpr, ts[..k], e.callee);
    } else if c == ConditionalExpr {
      var i, j :| 0 <= i < j < |ts| && ConditionalAt(i, j, ts, e.cond, e.thn, e.els);
      DerivesStarts(LogicalOrExpr, ts[..i], e.cond);
    } else if Looseness(c) > 3 {
      var lc, k := InfixOf(c, ts, e);
      DerivesStarts(lc, ts[..k], e.left);
    }
  }

  /** No colon follows the name that an expression starts with. */
  lemma {:induction false} DerivesSecond(c: Category, ts: Tokens, e: Raw)
    requires Derives(c, ts, e)
    ensures |ts| > 1 && ts[0].Identifier? ==> ts[1] != Colon
    decreases |ts|, Looseness(c), 1
  {
    hide Rule;
    if c != PrimaryExpr && Derives(Tighter(c), ts, e) { DerivesSecond(Tighter(c), ts, e); } else { RuleSecond(c, ts, e); }
  }

  lemma {:induction false} RuleSecond(c: Category, ts: Tokens, e: Raw)
    requires Rule(c, ts, e)
    ensures |ts| > 1 && ts[0].Identifier? ==> ts[1] != Colon
    decreases |ts|, Looseness(c), 0
  {
    hide DerivesArgs, TypeWords, Derives;
    if c == PostfixExpr && e.RPost? {
      DerivesSecond(PostfixExpr, ts[..|ts| - 1], e.operand);
    } else if c == PostfixExpr {
      var k :| 0 <= k < |ts| && CallAt(k, ts, e.callee, e.args);
      DerivesStarts(PostfixExpr, ts[..k], e.callee);
      DerivesSecond(PostfixExpr, ts[..k], e.callee);
    } else if c == ConditionalExpr {
      var i, j :| 0 <= i < j < |ts| && ConditionalAt(i, j, ts, e.cond, e.thn, e.els);
      DerivesStarts(LogicalOrExpr, ts[..i], e.cond);
      DerivesSecond(LogicalOrExpr, ts[..i], e.cond);
    } else if Looseness(c) > 3 {
      var lc, k := InfixOf(c, ts, e);
      DerivesStarts(lc, ts[..k], e.left);
      DerivesSecond(lc, ts[..k], e.left);
    }
  }

  /** The token of an operator with two operands. */
  function InfixToken(e: Raw): Token
    requires e.RBinary? || e.RAssign? || e.RCompound?
  {
    if e.RBinary? then Op(e.bop) else if e.RAssign? then Becomes(None) else Becomes(Some(e.bop))
  }

  lemma InfixOf(c: Category, ts: Tokens, e: Raw) returns (lc: Category, k: nat)
    requires Looseness(c) > 3 && c != ConditionalExpr && Rule(c, ts, e)
    ensures e.RBinary? || e.RAssign? || e.RCompound?
    ensures if e.RBinary? then OperatorOf(c, e.bop) && lc == c else c == AssignmentExpr && lc == ConditionalExpr
    ensures k < |ts| && InfixAt(k, lc, if e.RBinary? then Tighter(c) else AssignmentExpr, ts, InfixToken(e), e.left, e.right)
  {
    hide Derives, InfixAt;
    lc := if e.RBinary? then c else ConditionalExpr;
    if e.RBinary? { k :| 0 <= k < |ts| && InfixAt(k, c, Tighter(c), ts, Op(e.bop), e.left, e.right); }
    else if e.RAssign? { k :| 0 <= k < |ts| && InfixAt(k, ConditionalExpr, c, ts, Becomes(None), e.left, e.right); }
    else { k :| 0 <= k < |ts| && InfixAt(k, ConditionalExpr, c, ts, Becomes(Some(e.bop)), e.left, e.right); }
  }

  lemma LeafReads(prec: nat, t: Token, e: Raw, rest: Tokens)
    requires prec >= 1 && IsLeaf(t, e)
    ensures ParseE(prec, [t] + rest) == Climb(prec, e, rest)
  {
    hide Climb, ParseUnary;
    var ts := [t] + rest;
    assert ts[1..] == rest;
  }

  /** The words of a type are read in any order. */
  lemma TypeWordsRead(ws: Tokens, ty: Ty, after: Tokens)
    requires TypeWords(multiset(ws), ty) && after != [] && !IsDeclarationStart(after[0])
    ensures ws != [] && IsTypeWord(ws[0]) && ParseTypeName(ws + after) == Some((ty, after))
  {
    WordsAre(ws, ty);
    var s := AddSpec(NO_SPECS, ws[0]);
    if |ws| == 1 {
      assert (ws + after)[1..] == after;
      assert ParseSpecs(s, after) == (s, after);
    } else {
      var two := AddSpec(s, ws[1]);
      assert (ws + after)[1..] == [ws[1]] + after && ([ws[1]] + after)[1..] == after;
      assert ParseSpecs(s, [ws[1]] + after) == ParseSpecs(two, after) == (two, after);
    }
  }

  lemma WordsAre(ws: Tokens, ty: Ty)
    requires TypeWords(multiset(ws), ty)
    ensures if ty.Void? then ws == [Word(KwVoid)] else if ty.Int? then ws == [Word(KwInt)]
            else ty.Long? && (ws == [Word(KwLong)] || ws == [Word(KwLong), Word(KwInt)] || ws == [Word(KwInt), Word(KwLong)])
  {
    assert |multiset(ws)| == |ws|;
    assert forall k :: 0 <= k < |ws| ==> ws[k] in multiset(ws);
    if |ws| == 2 {
      assert ws == [ws[0], ws[1]];
      assert multiset(ws) == multiset{ws[0], ws[1]};
      assert multiset(ws)[Word(KwLong)] == 1;
    }
  }

  /** Every expression of the grammar is read as its tree: reading it with operators down to 'prec' allowed gets to
      where climbing goes on from that operand. */
  lemma {:induction false} DerivedReads(c: Category, prec: nat, ts: Tokens, e: Raw, rest: Tokens)
    requires Derives(c, ts, e) && 1 <= prec <= LevelFor(c) && Follows(LevelFor(c), rest)
    ensures ParseE(prec, ts + rest) == Climb(prec, e, rest)
    decreases |ts|, Looseness(c), 2
  {
    hide Climb, ParseE, Rule;
    if c != PrimaryExpr && Derives(Tighter(c), ts, e) { DerivedReads(Tighter(c), prec, ts, e, rest); }
    else { RuleReads(c, prec, ts, e, rest); }
  }

  lemma {:induction false} RuleReads(c: Category, prec: nat, ts: Tokens, e: Raw, rest: Tokens)
    requires Rule(c, ts, e) && 1 <= prec <= LevelFor(c) && Follows(LevelFor(c), rest)
    ensures ParseE(prec, ts + rest) == Climb(prec, e, rest)
    decreases |ts|, Looseness(c), 1
  {
    hide Climb, ParseE, Rule, Derives;
    match c
    case PrimaryExpr => PrimaryReads(prec, ts, e, rest);
    case PostfixExpr => PostfixReads(prec, ts, e, rest);
    case UnaryExpr => PrefixReads(prec, ts, e, rest);
    case CastExpr => CastExprReads(prec, ts, e, rest);
    case ConditionalExpr => ConditionalReads(prec, ts, e, rest);
    case _ => InfixExprReads(c, prec, ts, e, rest);
  }

  lemma {:induction false} PrimaryReads(prec: nat, ts: Tokens, e: Raw, rest: Tokens)
    requires Rule(PrimaryExpr, ts, e) && prec >= 1
    ensures ParseE(prec, ts + rest) == Climb(prec, e, rest)
    decreases |ts|, 0, 0
  {
    hide Climb, ParseE, Derives;
    if |ts| == 1 {
      assert ts == [ts[0]];
      LeafReads(prec, ts[0], e, rest);
    } else {
      var body, inner := ts[1..|ts| - 1], [RParen] + rest;
      DerivesStarts(AssignmentExpr, body, e);
      DerivedReads(AssignmentExpr, ASSIGNMENT, body, e, inner);
      Stop(ASSIGNMENT, e, inner);
      ReadsParen(prec, body, e, rest);
      assert ts + rest == [LParen] + (body + inner);
    }
  }

  lemma {:induction false} PostfixReads(prec: nat, ts: Tokens, e: Raw, rest: Tokens)
    requires Rule(PostfixExpr, ts, e) && 1 <= prec <= POSTFIX
    ensures ParseE(prec, ts + rest) == Climb(prec, e, rest)
    decreases |ts|, 1, 0
  {
    hide Climb, ParseE, Derives;
    if e.RPost? {
      var a := ts[..|ts| - 1];
      assert ts + rest == a + ([Step(e.inc)] + rest);
      DerivedReads(PostfixExpr, prec, a, e.operand, [Step(e.inc)] + rest);
      PostReads(prec, e.operand, e.inc, rest);
    } else {
      var k :| 0 <= k < |ts| && CallAt(k, ts, e.callee, e.args);
      var more := ts[k + 1..] + rest;
      assert ts + rest == ts[..k] + ([LParen] + more);
      DerivedReads(PostfixExpr, prec, ts[..k], e.callee, [LParen] + more);
      assert DerivesArgs(ts[k + 1..], e.args);
      if e.args != [] { DerivedArgsRead(ts[k + 1..], e.args, rest); }
      CallReads(prec, e.callee, e.args, more, rest);
    }
  }

  lemma {:induction false} PrefixReads(prec: nat, ts: Tokens, e: Raw, rest: Tokens)
    requires Rule(UnaryExpr, ts, e) && 1 <= prec <= UNARY && Follows(UNARY, rest)
    ensures ParseE(prec, ts + rest) == Climb(prec, e, rest)
    decreases |ts|, 2, 0
  {
    hide Climb, ParseE, Derives;
    var a := ts[1..];
    assert ts + rest == [ts[0]] + (a + rest);
    DerivedReads(CastExpr, UNARY, a, e.operand, rest);
    Stop(UNARY, e.operand, rest);
    if e.RPre? { StepReads(prec, e.inc, a + rest, e.operand, rest); }
    else { UnaryReads(prec, e.uop, a + rest, e.operand, rest); }
  }

  lemma {:induction false} CastExprReads(prec: nat, ts: Tokens, e: Raw, rest: Tokens)
    requires Rule(CastExpr, ts, e) && 1 <= prec <= UNARY && Follows(UNARY, rest)
    ensures ParseE(prec, ts + rest) == Climb(prec, e, rest)
    decreases |ts|, 3, 0
  {
    hide Climb, ParseE, Derives, TypeWords;
    var k :| 0 < k < |ts| && CastAt(k, ts, e.target, e.operand);
    var ws, a := ts[1..k], ts[k + 1..];
    assert ts == [LParen] + (ws + ([RParen] + a));
    assert ts + rest == [LParen] + (ws + ([RParen] + (a + rest)));
    DerivedReads(CastExpr, UNARY, a, e.operand, rest);
    Stop(UNARY, e.operand, rest);
    CastReads(prec, ws, e.target, a + rest, e.operand, rest);
  }

  lemma CastReads(prec: nat, ws: Tokens, t: Ty, more: Tokens, a: Raw, rest: Tokens)
    requires prec >= 1 && TypeWords(multiset(ws), t) && ParseE(UNARY, more) == Some((a, rest))
    ensures ParseE(prec, [LParen] + (ws + ([RParen] + more))) == Climb(prec, RCast(t, a), rest)
  {
    hide Climb, ParseUnary, ParseTypeName, TypeWords;
    var after := [RParen] + more;
    var ts := [LParen] + (ws + after);
    TypeWordsRead(ws, t, after);
    assert ts[1..] == ws + after && ts[1] == ws[0] && after[1..] == more;
  }

  lemma {:induction false} ConditionalReads(prec: nat, ts: Tokens, e: Raw, rest: Tokens)
    requires Rule(ConditionalExpr, ts, e) && 1 <= prec <= TERNARY && Follows(TERNARY, rest)
    ensures ParseE(prec, ts + rest) == Climb(prec, e, rest)
    decreases |ts|, 14, 0
  {
    hide Climb, ParseE, Derives;
    var i, j :| 0 <= i < j < |ts| && ConditionalAt(i, j, ts, e.cond, e.thn, e.els);
    var last := ts[j + 1..] + rest;
    var mid := ts[i + 1..j] + ([Colon] + last);
    assert ts + rest == ts[..i] + ([Question] + mid);
    DerivedReads(LogicalOrExpr, prec, ts[..i], e.cond, [Question] + mid);
    DerivedReads(AssignmentExpr, ASSIGNMENT, ts[i + 1..j], e.thn, [Colon] + last);
    Stop(ASSIGNMENT, e.thn, [Colon] + last);
    DerivedReads(ConditionalExpr, TERNARY, ts[j + 1..], e.els, rest);
    Stop(TERNARY, e.els, rest);
    InfixReads(prec, e.cond, Question, mid, e, rest) by {
      assert ([Question] + mid)[1..] == mid && ([Colon] + last)[1..] == last;
    }
  }

  /** Operators with two operands: the left one ends at the operator, the right one before the next of its level. */
  lemma {:induction false} InfixExprReads(c: Category, prec: nat, ts: Tokens, e: Raw, rest: Tokens)
    requires Looseness(c) > 3 && c != ConditionalExpr && Rule(c, ts, e) && 1 <= prec <= LevelFor(c) && Follows(LevelFor(c), rest)
    ensures ParseE(prec, ts + rest) == Climb(prec, e, rest)
    decreases |ts|, Looseness(c), 0
  {
    hide Climb, ParseE, Derives, Rule;
    var lc, k := InfixOf(c, ts, e);
    var t, more := InfixToken(e), ts[k + 1..] + rest;
    assert ts + rest == ts[..k] + ([t] + more);
    if e.RBinary? {
      LevelsMatch(c, e.bop);
      var l := OpLevel(e.bop);
      DerivedReads(c, prec, ts[..k], e.left, [t] + more);
      DerivedReads(Tighter(c), l + 1, ts[k + 1..], e.right, rest);
      Stop(l + 1, e.right, rest);
      InfixReads(prec, e.left, t, more, e, rest) by { OpReads(e.left, e.bop, more, e.right, rest); }
    } else {
      DerivedReads(ConditionalExpr, prec, ts[..k], e.left, [t] + more);
      DerivedReads(AssignmentExpr, ASSIGNMENT, ts[k + 1..], e.right, rest);
      Stop(ASSIGNMENT, e.right, rest);
      InfixReads(prec, e.left, t, more, e, rest) by { assert ([t] + more)[1..] == more; }
    }
  }

  lemma {:induction false} DerivedArgsRead(ts: Tokens, args: seq<Raw>, rest: Tokens)
    requires args != [] && DerivesArgs(ts, args)
    ensures ParseArgs(ts + rest) == Some((args, rest)) && ts != [] && Starts(ts[0])
    decreases |ts|, 0, 2
  {
    hide Climb, ParseE, ParseArgs, Derives;
    var k :| 0 <= k < |ts| && ArgAt(k, ts, args);
    DerivesStarts(AssignmentExpr, ts[..k], args[0]);
    if |args| == 1 {
      var end := [RParen] + rest;
      assert ts + rest == ts[..k] + end;
      DerivedReads(AssignmentExpr, ASSIGNMENT, ts[..k], args[0], end);
      Stop(ASSIGNMENT, args[0], end);
      LastArg(args[0], ts + rest, rest);
      assert args == [args[0]];
    } else {
      var tail := ts[k + 1..] + rest;
      assert ts + rest == ts[..k] + ([Comma] + tail);
      DerivedReads(AssignmentExpr, ASSIGNMENT, ts[..k], args[0], [Comma] + tail);
      Stop(ASSIGNMENT, args[0], [Comma] + tail);
      DerivedArgsRead(ts[k + 1..], args[1..], rest);
      MoreArgs(args[0], ts + rest, tail, args[1..], rest);
      assert args == [args[0]] + args[1..];
    }
  }

  function CategoryFor(level: nat): (c: Category)
    requires ASSIGNMENT <= level <= PRIMARY
    ensures LevelFor(c) == level && c != UnaryExpr
  {
    match level
    case 1 => AssignmentExpr
    case 2 => ConditionalExpr
    case 3 => LogicalOrExpr
    case 4 => LogicalAndExpr
    case 5 => InclusiveOrExpr
    case 6 => ExclusiveOrExpr
    case 7 => AndExpr
    case 8 => EqualityExpr
    case 9 => RelationalExpr
    case 10 => ShiftExpr
    case 11 => AdditiveExpr
    case 12 => MultiplicativeExpr
    case 13 => CastExpr
    case 14 => PostfixExpr
    case _ => PrimaryExpr
  }

  /** A tighter expression is a looser one too. */
  lemma {:induction false} Up(c: Category, d: Category, ts: Tokens, e: Raw)
    requires Derives(c, ts, e) && Looseness(c) <= Looseness(d)
    ensures Derives(d, ts, e)
    decreases Looseness(d)
  {
    hide Rule;
    if c != d {
      assert Looseness(Tighter(d)) == Looseness(d) - 1;
      Up(c, Tighter(d), ts, e);
    }
  }

  lemma InfixPut(lc: Category, rc: Category, a: Tokens, t: Token, b: Tokens, l: Raw, r: Raw)
    requires Derives(lc, a, l) && Derives(rc, b, r)
    ensures InfixAt(|a|, lc, rc, a + ([t] + b), t, l, r)
  {
    hide Derives;
    var ts := a + ([t] + b);
    assert ts[..|a|] == a && ts[|a| + 1..] == b;
  }

  lemma ConditionalPut(c: Tokens, a: Tokens, b: Tokens, x: Raw, y: Raw, z: Raw)
    requires Derives(LogicalOrExpr, c, x) && Derives(AssignmentExpr, a, y) && Derives(ConditionalExpr, b, z)
    ensures Rule(ConditionalExpr, c + ([Question] + (a + ([Colon] + b))), RConditional(x, y, z))
  {
    var ts := c + ([Question] + (a + ([Colon] + b)));
    var i, j := |c|, |c| + 1 + |a|;
    ConditionalParts(c, a, b);
    assert ConditionalAt(i, j, ts, x, y, z) by { hide Derives; }
    hide Derives, ConditionalAt;
  }

  lemma ConditionalParts(c: Tokens, a: Tokens, b: Tokens)
    ensures var ts := c + ([Question] + (a + ([Colon] + b)));
            var i, j := |c|, |c| + 1 + |a|;
            ts[i] == Question && ts[j] == Colon && ts[..i] == c && ts[i + 1..j] == a && ts[j + 1..] == b
  {
    var tail := a + ([Colon] + b);
    var ts := c + ([Question] + tail);
    assert ts[|c| + 1..] == tail && tail[..|a|] == a && tail[|a| + 1..] == b;
  }

  lemma CallPut(f: Tokens, args: Tokens, x: Raw, xs: seq<Raw>)
    requires Derives(PostfixExpr, f, x) && DerivesArgs(args, xs)
    ensures Rule(PostfixExpr, f + ([LParen] + args), RCall(x, xs))
  {
    hide Derives, DerivesArgs;
    var ts := f + ([LParen] + args);
    assert ts[..|f|] == f && ts[|f| + 1..] == args;
    assert CallAt(|f|, ts, x, xs);
  }

  lemma PrefixPut(t: Token, a: Tokens, x: Raw, op: UnOp, inc: bool)
    requires Derives(CastExpr, a, x)
    ensures UnaryOperator(op, t) ==> Rule(UnaryExpr, [t] + a, RUnary(op, x))
    ensures t == Step(inc) ==> Rule(UnaryExpr, [t] + a, RPre(inc, x))
  {
    hide Derives;
    assert ([t] + a)[1..] == a;
  }

  lemma CastPut(ws: Tokens, ty: Ty, a: Tokens, x: Raw)
    requires TypeWords(multiset(ws), ty) && Derives(CastExpr, a, x)
    ensures Rule(CastExpr, [LParen] + (ws + ([RParen] + a)), RCast(ty, x))
  {
    hide Derives, TypeWords;
    var ts, k := [LParen] + (ws + ([RParen] + a)), |ws| + 1;
    assert ts[1..k] == ws && ts[k + 1..] == a;
    assert CastAt(k, ts, ty, x);
  }

  lemma ParenPut(a: Tokens, x: Raw)
    requires Derives(AssignmentExpr, a, x)
    ensures Derives(PrimaryExpr, [LParen] + (a + [RParen]), x)
  {
    hide Derives;
    var ts := [LParen] + (a + [RParen]);
    assert ts[1..|ts| - 1] == a;
    assert Rule(PrimaryExpr, ts, x);
    PutRule(PrimaryExpr, ts, x);
  }

  lemma PutRule(c: Category, ts: Tokens, x: Raw)
    requires Rule(c, ts, x)
    ensures Derives(c, ts, x)
  {
    hide Rule;
  }

  /** What is printed is an expression of its level. */
  lemma {:induction false} PrintDerives(e: Raw, level: nat)
    requires Printable(e) && ASSIGNMENT <= level <= PRIMARY
    ensures Derives(CategoryFor(level), Print(e, level), e)
    decreases e, 2
  {
    hide Derives, PrintBare;
    BareDerives(e);
    var c := CategoryFor(LevelOf(e));
    if LevelOf(e) < level {
      Up(c, AssignmentExpr, PrintBare(e), e);
      ParenPut(PrintBare(e), e);
      Up(PrimaryExpr, CategoryFor(level), Print(e, level), e);
    } else {
      Up(c, CategoryFor(level), PrintBare(e), e);
    }
  }

  lemma {:induction false} BareDerives(e: Raw)
    requires Printable(e)
    ensures Derives(CategoryFor(LevelOf(e)), PrintBare(e), e)
    decreases e, 1
  {
    hide Derives, Print, Rule;
    match e
    case RUnary(op, a) => PrefixDerives(e, a, UnaryToken(op));
    case RPre(inc, a) => PrefixDerives(e, a, Step(inc));
    case RCast(ty, a) => CastDerives(e);
    case RPost(_, _) => PostDerives(e);
    case RCall(_, _) => CallDerives(e);
    case RBinary(op, a, b) => InfixDerives(e, OpLevel(op), OpLevel(op) + 1);
    case RAssign(a, b) => InfixDerives(e, TERNARY, ASSIGNMENT);
    case RCompound(_, a, b) => InfixDerives(e, TERNARY, ASSIGNMENT);
    case RConditional(c, a, b) =>
      PrintDerives(c, OR);
      PrintDerives(a, ASSIGNMENT);
      PrintDerives(b, TERNARY);
      ConditionalPut(Print(c, OR), Print(a, ASSIGNMENT), Print(b, TERNARY), c, a, b);
      PutRule(ConditionalExpr, PrintBare(e), e);
    case _ => LeafDerives(e);
  }

  lemma LeafDerives(e: Raw)
    requires Printable(e) && (e.RInt? || e.RLong? || e.RName?)
    ensures Derives(PrimaryExpr, PrintBare(e), e)
  {
    hide Derives;
    assert Rule(PrimaryExpr, PrintBare(e), e);
    PutRule(PrimaryExpr, PrintBare(e), e);
  }

  lemma {:induction false} PrefixDerives(e: Raw, a: Raw, t: Token)
    requires Printable(e) && ((e.RUnary? && e.operand == a && t == UnaryToken(e.uop)) || (e.RPre? && e.operand == a && t == Step(e.inc)))
    ensures Derives(CastExpr, PrintBare(e), e)
    decreases e, 0
  {
    hide Derives, Print, Rule;
    PrintDerives(a, UNARY);
    PrefixPut(t, Print(a, UNARY), a, if e.RUnary? then e.uop else Plus, e.RPre? && e.inc);
    PutRule(UnaryExpr, PrintBare(e), e);
    Up(UnaryExpr, CastExpr, PrintBare(e), e);
  }

  lemma {:induction false} CastDerives(e: Raw)
    requires Printable(e) && e.RCast?
    ensures Derives(CastExpr, PrintBare(e), e)
    decreases e, 0
  {
    hide Derives, Print, Rule;
    var w, a := [TypeWord(e.target)], Print(e.operand, UNARY);
    PrintDerives(e.operand, UNARY);
    CastPut(w, e.target, a, e.operand);
    assert [LParen] + (w + ([RParen] + a)) == [LParen, TypeWord(e.target), RParen] + a;
    PutRule(CastExpr, PrintBare(e), e);
  }

  lemma {:induction false} PostDerives(e: Raw)
    requires Printable(e) && e.RPost?
    ensures Derives(PostfixExpr, PrintBare(e), e)
    decreases e, 0
  {
    hide Derives, Print;
    var ts := PrintBare(e);
    PrintDerives(e.operand, POSTFIX);
    assert ts[..|ts| - 1] == Print(e.operand, POSTFIX);
    assert Rule(PostfixExpr, ts, e);
    PutRule(PostfixExpr, ts, e);
  }

  lemma {:induction false} CallDerives(e: Raw)
    requires Printable(e) && e.RCall?
    ensures Derives(PostfixExpr, PrintBare(e), e)
    decreases e, 0
  {
    hide Derives, DerivesArgs, Print, PrintArgs, Rule;
    PrintDerives(e.callee, POSTFIX);
    PrintArgsDerive(e.args);
    CallPut(Print(e.callee, POSTFIX), PrintArgs(e.args), e.callee, e.args);
    PutRule(PostfixExpr, PrintBare(e), e);
  }

  lemma {:induction false} InfixDerives(e: Raw, l: nat, r: nat)
    requires Printable(e) && if e.RBinary? then l == OpLevel(e.bop) && r == l + 1 else (e.RAssign? || e.RCompound?) && l == TERNARY && r == ASSIGNMENT
    ensures Derives(CategoryFor(LevelOf(e)), PrintBare(e), e)
    decreases e, 0
  {
    hide Derives, Print, InfixAt;
    PrintDerives(e.left, l);
    PrintDerives(e.right, r);
    InfixPut(CategoryFor(l), CategoryFor(r), Print(e.left, l), InfixToken(e), Print(e.right, r), e.left, e.right);
    var c, ts, k := CategoryFor(LevelOf(e)), PrintBare(e), |Print(e.left, l)|;
    assert k < |ts| && InfixAt(k, CategoryFor(l), CategoryFor(r), ts, InfixToken(e), e.left, e.right);
    if e.RBinary? { CategoryOfOperator(e.bop); }
    PutInfix(c, CategoryFor(l), CategoryFor(r), ts, k, e);
  }

  lemma CategoryOfOperator(op: BinOp)
    ensures var c := CategoryFor(OpLevel(op)); OperatorOf(c, op) && Tighter(c) == CategoryFor(OpLevel(op) + 1)
  {
  }

  lemma PutInfix(c: Category, lc: Category, rc: Category, ts: Tokens, k: nat, e: Raw)
    requires e.RBinary? || e.RAssign? || e.RCompound?
    requires if e.RBinary? then OperatorOf(c, e.bop) && lc == c && rc == Tighter(c) else c == AssignmentExpr == rc && lc == ConditionalExpr
    requires k < |ts| && InfixAt(k, lc, rc, ts, InfixToken(e), e.left, e.right)
    ensures Derives(c, ts, e)
  {
    hide Derives, InfixAt;
    assert Rule(c, ts, e);
    PutRule(c, ts, e);
  }

  lemma {:induction false} PrintArgsDerive(args: seq<Raw>)
    requires PrintableArgs(args)
    ensures DerivesArgs(PrintArgs(args), args)
    decreases args, 0
  {
    hide Derives, Print;
    if args != [] {
      PrintDerives(args[0], ASSIGNMENT);
      var a, ts := Print(args[0], ASSIGNMENT), PrintArgs(args);
      assert ts[..|a|] == a;
      if |args| > 1 {
        PrintArgsDerive(args[1..]);
        assert ts[|a| + 1..] == PrintArgs(args[1..]);
      }
      assert ArgAt(|a|, ts, args);
    }
  }

  /** Round trip, the general form: an operand printed at 'level' is read with operators down to 'prec' allowed. */
  lemma Reads(e: Raw, level: nat, prec: nat, rest: Tokens)
    requires Printable(e) && 1 <= prec <= level <= PRIMARY && Follows(level, rest)
    ensures ParseE(prec, Print(e, level) + rest) == Climb(prec, e, rest)
  {
    hide Derives, Print, Climb, ParseE;
    PrintDerives(e, level);
    DerivedReads(CategoryFor(level), prec, Print(e, level), e, rest);
  }

  /** Pratt round trip: printing any tree and parsing the tokens gives the tree back and stops at the first
      token that no expression goes on with. */
  lemma RoundTrip(e: Raw, rest: Tokens)
    requires Printable(e) && (rest == [] || Prec(rest[0]) == 0)
    ensures ParseE(ASSIGNMENT, Print(e, ASSIGNMENT) + rest) == Some((e, rest))
  {
    hide Print, ParseE;
    Reads(e, ASSIGNMENT, ASSIGNMENT, rest);
    Stop(ASSIGNMENT, e, rest);
  }
}
