/** The expression parser and the grammar agree: what is parsed is derived from the tokens that were read, and
    nothing else is. The same for the specifiers of a declaration. */
module Derivation {
  import opened Arith
  import opened Ast
  import opened Syntax
  import opened Pratt
  import opened ExprGrammar
  import Grammar
  import T = ParseTrees

  /** The same after the tokens 'w'. */
  ghost predicate SpanAfter(c: Category, w: Tokens, ts: Tokens, e: Raw, rest: Tokens) {
    |rest| <= |ts| && ts[|ts| - |rest|..] == rest && Derives(c, w + ts[..|ts| - |rest|], e)
  }

  /** An operator that takes an operand of this level may follow. */
  predicate MayFollow(l: nat, rest: Tokens) {
    rest == [] || T.LeftLevel(rest[0]) <= l
  }

  /** An expression that stands in the tokens from 'i' on. */
  lemma Part(c: Category, ts: Tokens, i: nat, e: Raw, rest: Tokens)
    requires i <= |ts| && ExprSpan(c, ts[i..], e, rest)
    ensures var n := |ts| - |rest|; i <= n <= |ts| && ts[n..] == rest && Derives(c, ts[i..n], e)
  {
    hide Derives;
    var n := |ts| - |rest|;
    assert ts[i..][n - i..] == ts[n..] && ts[i..][..n - i] == ts[i..n];
  }

  lemma Onward(c: Category, w: Tokens, ts: Tokens, n: nat, e: Raw, rest: Tokens)
    requires n <= |ts| && SpanAfter(c, w + ts[..n], ts[n..], e, rest)
    ensures SpanAfter(c, w, ts, e, rest)
  {
    hide Derives;
    var m := |ts| - |rest|;
    assert w + ts[..n] + ts[n..][..m - n] == w + ts[..m] && ts[n..][m - n..] == ts[m..];
  }

  lemma FromStart(c: Category, ts: Tokens, n: nat, e: Raw, rest: Tokens)
    requires n <= |ts| && SpanAfter(c, ts[..n], ts[n..], e, rest)
    ensures ExprSpan(c, ts, e, rest)
  {
    hide Derives;
    var m := |ts| - |rest|;
    assert ts[..n] + ts[n..][..m - n] == ts[..m] && ts[n..][m - n..] == ts[m..];
  }

  lemma SpanParts(c: Category, ts: Tokens, e: Raw, rest: Tokens)
    requires ExprSpan(c, ts, e, rest)
    ensures var n := |ts| - |rest|; 0 <= n <= |ts| && rest == ts[n..] && Derives(c, ts[..n], e)
  {
  }

  lemma AfterParts(c: Category, w: Tokens, ts: Tokens, e: Raw, rest: Tokens)
    requires SpanAfter(c, w, ts, e, rest)
    ensures var n := |ts| - |rest|; 0 <= n <= |ts| && rest == ts[n..] && Derives(c, w + ts[..n], e)
  {
  }

  lemma Nothing(c: Category, w: Tokens, ts: Tokens, e: Raw)
    requires Derives(c, w, e)
    ensures SpanAfter(c, w, ts, e, ts)
  {
    hide Derives;
    assert w + ts[..0] == w;
  }

  /** Whatever the parser returns is derived from the tokens it read, by the category of its precedence. */
  lemma {:induction false} ParserDerives(prec: nat, ts: Tokens)
    requires 1 <= prec <= UNARY && ParseE(prec, ts).Some?
    ensures ExprSpan(CategoryFor(prec), ts, ParseE(prec, ts).value.0, ParseE(prec, ts).value.1)
    decreases |ts|, 2
  {
    hide ParsePrefix, Climb, Derives, CategoryFor, MayFollow, ExprSpan, SpanAfter;
    var l := PrefixDerives(ts);
    var (left, rest) := ParsePrefix(ts).value;
    var n := |ts| - |rest|;
    SpanParts(CategoryFor(l), ts, left, rest);
    ClimbDerives(prec, ts[..n], l, left, rest);
    FromStart(CategoryFor(prec), ts, n, ParseE(prec, ts).value.0, ParseE(prec, ts).value.1);
  }

  lemma {:induction false} ClimbDerives(prec: nat, w: Tokens, l: nat, left: Raw, ts: Tokens)
    requires 1 <= prec <= l <= PRIMARY && Derives(CategoryFor(l), w, left) && MayFollow(l, ts) && Climb(prec, left, ts).Some?
    ensures SpanAfter(CategoryFor(prec), w, ts, Climb(prec, left, ts).value.0, Climb(prec, left, ts).value.1)
    decreases |ts|, 3
  {
    hide ParseInfix, Derives, CategoryFor, Prec, MayFollow, SpanAfter;
    if ts == [] || Prec(ts[0]) < prec {
      Looser(prec, l);
      Up(CategoryFor(l), CategoryFor(prec), w, left);
      Nothing(CategoryFor(prec), w, ts, left);
    } else {
      OperatorDerives(w, l, left, ts);
      var (e, rest) := ParseInfix(left, ts).value;
      var n := |ts| - |rest|;
      AfterParts(CategoryFor(Prec(ts[0])), w, ts, e, rest);
      ClimbDerives(prec, w + ts[..n], Prec(ts[0]), e, rest);
      Onward(CategoryFor(prec), w, ts, n, Climb(prec, e, rest).value.0, Climb(prec, e, rest).value.1);
    }
  }

  lemma Looser(a: nat, b: nat)
    requires 1 <= a <= b <= PRIMARY
    ensures Looseness(CategoryFor(b)) <= Looseness(CategoryFor(a))
  {
  }

  /** What begins an expression is a primary or a prefixed one. */
  lemma {:induction false} PrefixDerives(ts: Tokens) returns (l: nat)
    requires ParsePrefix(ts).Some?
    ensures UNARY <= l <= PRIMARY && MayFollow(l, ParsePrefix(ts).value.1)
    ensures ExprSpan(CategoryFor(l), ts, ParsePrefix(ts).value.0, ParsePrefix(ts).value.1)
    decreases |ts|, 1
  {
    hide ParseE, ExprSpan, T.LeftLevel, CategoryFor;
    LevelNames();
    var (e, rest) := ParsePrefix(ts).value;
    if rest != [] { T.LeftLevelMost(rest[0]); }
    if ts[0].LParen? {
      l := ParenDerives(ts);
    } else if ts[0].Step? || ts[0].Op? || ts[0].Bang? || ts[0].Tilde? {
      l := UNARY;
      ParserDerives(UNARY, ts[1..]);
      T.ParseStops(UNARY, ts[1..]);
      PrefixPlaced(ts, e, rest);
    } else {
      l := PRIMARY;
      LeafPlaced(ts, e);
    }
  }

  lemma PrefixPlaced(ts: Tokens, e: Raw, rest: Tokens)
    requires ts != [] && ((e.RUnary? && UnaryOperator(e.uop, ts[0])) || (e.RPre? && ts[0] == Step(e.inc)))
    requires ExprSpan(CastExpr, ts[1..], e.operand, rest)
    ensures ExprSpan(CastExpr, ts, e, rest)
  {
    hide Derives, Rule;
    Part(CastExpr, ts, 1, e.operand, rest);
    var n := |ts| - |rest|;
    assert ts[..n] == [ts[0]] + ts[1..n];
    PrefixPut(ts[0], ts[1..n], e.operand, if e.RUnary? then e.uop else Plus, e.RPre? && e.inc);
    PutRule(UnaryExpr, ts[..n], e);
    Up(UnaryExpr, CastExpr, ts[..n], e);
  }

  lemma LeafPlaced(ts: Tokens, e: Raw)
    requires ts != [] && IsLeaf(ts[0], e)
    ensures ExprSpan(PrimaryExpr, ts, e, ts[1..])
  {
    hide Derives;
    assert ts[..1] == [ts[0]];
    assert Rule(PrimaryExpr, ts[..1], e);
    PutRule(PrimaryExpr, ts[..1], e);
  }

  lemma {:induction false} ParenDerives(ts: Tokens) returns (l: nat)
    requires ts != [] && ts[0].LParen? && ParsePrefix(ts).Some?
    ensures UNARY <= l <= PRIMARY && MayFollow(l, ParsePrefix(ts).value.1)
    ensures ExprSpan(CategoryFor(l), ts, ParsePrefix(ts).value.0, ParsePrefix(ts).value.1)
    decreases |ts|, 0
  {
    hide ParseE, ExprSpan, T.LeftLevel, ParseTypeName, CategoryFor, ParseUnary, TypeWords;
    LevelNames();
    var (e, rest) := ParsePrefix(ts).value;
    if rest != [] { T.LeftLevelMost(rest[0]); }
    if |ts| > 1 && IsTypeWord(ts[1]) {
      l := UNARY;
      var t := ParseTypeName(ts[1..]).value;
      TypeNameTaken(ts[1..]);
      ParserDerives(UNARY, t.1[1..]);
      T.ParseStops(UNARY, t.1[1..]);
      CastDerived(ts, t.0, t.1, e.operand, rest);
    } else {
      l := PRIMARY;
      var inner := ParseE(ASSIGNMENT, ts[1..]).value.1;
      ParserDerives(ASSIGNMENT, ts[1..]);
      GroupDerived(ts, inner, e);
    }
  }

  lemma GroupDerived(ts: Tokens, inner: Tokens, e: Raw)
    requires ts != [] && ts[0].LParen? && inner != [] && inner[0] == RParen && ExprSpan(AssignmentExpr, ts[1..], e, inner)
    ensures ExprSpan(PrimaryExpr, ts, e, inner[1..])
  {
    hide Derives;
    var n := |ts| - |inner| + 1;
    Part(AssignmentExpr, ts, 1, e, inner);
    assert ts[n - 1..] == inner && ts[n - 1..][1..] == ts[n..];
    assert ts[..n] == [LParen] + (ts[1..n - 1] + [RParen]);
    ParenPut(ts[1..n - 1], e);
  }

  lemma CastDerived(ts: Tokens, ty: Ty, after: Tokens, e: Raw, rest: Tokens)
    requires ts != [] && ts[0].LParen? && after != [] && after[0] == RParen && |after| < |ts|
    requires var m := |ts| - |after|; after == ts[1..][m - 1..] && TypeWords(multiset(ts[1..][..m - 1]), ty)
    requires ExprSpan(CastExpr, after[1..], e, rest)
    ensures ExprSpan(CastExpr, ts, RCast(ty, e), rest)
  {
    hide Derives, TypeWords;
    var n, m := |ts| - |rest|, |ts| - |after|;
    assert after == ts[m..] && after[1..] == ts[m + 1..] && ts[1..][..m - 1] == ts[1..m];
    Part(CastExpr, ts, m + 1, e, rest);
    assert ts[..n] == [LParen] + (ts[1..m] + ([RParen] + ts[m + 1..n]));
    CastPut(ts[1..m], ty, ts[m + 1..n], e);
    PutRule(CastExpr, ts[..n], RCast(ty, e));
  }

  /** The operator after an operand, with what else it takes. */
  lemma {:induction false} OperatorDerives(w: Tokens, l: nat, left: Raw, ts: Tokens)
    requires 1 <= l <= PRIMARY && Derives(CategoryFor(l), w, left) && ts != [] && MayFollow(l, ts) && ParseInfix(left, ts).Some?
    ensures 1 <= Prec(ts[0]) <= PRIMARY && MayFollow(Prec(ts[0]), ParseInfix(left, ts).value.1)
    ensures SpanAfter(CategoryFor(Prec(ts[0])), w, ts, ParseInfix(left, ts).value.0, ParseInfix(left, ts).value.1)
    decreases |ts|, 1
  {
    hide ParseE, ParseArgs, Derives;
    if ts[0].LParen? { CallDerived(w, l, left, ts); }
    else if ts[0].Question? { ConditionalDerived(w, l, left, ts); }
    else if ts[0].Step? { StepDerived(w, l, left, ts); }
    else { InfixDerived(w, l, left, ts); }
  }

  lemma StepDerived(w: Tokens, l: nat, left: Raw, ts: Tokens)
    requires 1 <= l <= PRIMARY && Derives(CategoryFor(l), w, left) && ts != [] && MayFollow(l, ts) && ts[0].Step?
    ensures MayFollow(POSTFIX, ts[1..]) && Derives(PostfixExpr, w + ts[..1], RPost(ts[0].inc, left))
  {
    hide Derives, CategoryFor, T.LeftLevel;
    if |ts| > 1 { T.LeftLevelMost(ts[1]); }
    LevelNames();
    assert POSTFIX <= l by { T.LeftLevelIs(ts[0]); }
    Looser(POSTFIX, l);
    Up(CategoryFor(l), PostfixExpr, w, left);
    assert (w + ts[..1])[..|w|] == w;
    assert Rule(PostfixExpr, w + ts[..1], RPost(ts[0].inc, left));
    PutRule(PostfixExpr, w + ts[..1], RPost(ts[0].inc, left));
  }

  lemma {:induction false} CallDerived(w: Tokens, l: nat, left: Raw, ts: Tokens)
    requires 1 <= l <= PRIMARY && Derives(CategoryFor(l), w, left) && ts != [] && MayFollow(l, ts) && ts[0].LParen? && ParseInfix(left, ts).Some?
    ensures MayFollow(POSTFIX, ParseInfix(left, ts).value.1)
    ensures SpanAfter(PostfixExpr, w, ts, ParseInfix(left, ts).value.0, ParseInfix(left, ts).value.1)
    decreases |ts|, 0
  {
    hide ParseInfix, ParseArgs, Derives, T.LeftLevel, CategoryFor, DerivesArgs, SpanAfter, Looseness;
    InfixIsCall(left, ts);
    var (e, rest) := ParseInfix(left, ts).value;
    if rest != [] { T.LeftLevelMost(rest[0]); }
    T.LeftLevelIs(ts[0]);
    OperandFits(POSTFIX, l, w, left, ts);
    if |ts| > 1 && ts[1] == RParen {
      NoArgs();
      assert ts[1..][..1] == [RParen] && rest == ts[1..][1..];
    } else {
      ArgsDerive(ts[1..]);
    }
    CallPlaced(w, ts, e, rest);
  }

  lemma InfixIsCall(left: Raw, ts: Tokens)
    requires ts != [] && ts[0].LParen? && ParseInfix(left, ts).Some?
    ensures if |ts| > 1 && ts[1] == RParen then ParseInfix(left, ts).value == (RCall(left, []), ts[2..])
            else ParseArgs(ts[1..]).Some?
                 && ParseInfix(left, ts).value == (RCall(left, ParseArgs(ts[1..]).value.0), ParseArgs(ts[1..]).value.1)
  {
    hide ParseArgs;
  }

  /** What an operator takes as its left operand. */
  lemma OperandFits(level: nat, l: nat, w: Tokens, left: Raw, ts: Tokens)
    requires 1 <= l <= PRIMARY && Derives(CategoryFor(l), w, left) && ts != [] && MayFollow(l, ts) && level == T.LeftLevel(ts[0]) >= 1
    ensures level <= PRIMARY && Derives(CategoryFor(level), w, left) && CategoryFor(POSTFIX) == PostfixExpr
  {
    hide Derives, CategoryFor, T.LeftLevel;
    LevelNames();
    Looser(level, l);
    Up(CategoryFor(l), CategoryFor(level), w, left);
  }

  lemma CallPlaced(w: Tokens, ts: Tokens, e: Raw, rest: Tokens)
    requires e.RCall? && ts != [] && ts[0].LParen? && Derives(PostfixExpr, w, e.callee) && |rest| < |ts|
    requires var n := |ts| - |rest| - 1; rest == ts[1..][n..] && DerivesArgs(ts[1..][..n], e.args)
    ensures SpanAfter(PostfixExpr, w, ts, e, rest)
  {
    hide Derives, DerivesArgs, Rule;
    var n := |ts| - |rest|;
    CallPut(w, ts[1..][..n - 1], e.callee, e.args);
    assert w + ts[..n] == w + ([LParen] + ts[1..][..n - 1]) && ts[n..] == ts[1..][n - 1..];
    PutRule(PostfixExpr, w + ts[..n], e);
  }

  lemma {:induction false} ConditionalDerived(w: Tokens, l: nat, left: Raw, ts: Tokens)
    requires 1 <= l <= PRIMARY && Derives(CategoryFor(l), w, left) && ts != [] && MayFollow(l, ts) && ts[0].Question? && ParseInfix(left, ts).Some?
    ensures MayFollow(TERNARY, ParseInfix(left, ts).value.1)
    ensures SpanAfter(ConditionalExpr, w, ts, ParseInfix(left, ts).value.0, ParseInfix(left, ts).value.1)
    decreases |ts|, 0
  {
    hide ParseE, ParseArgs, Derives, T.LeftLevel, Rule, CategoryFor, ExprSpan, SpanAfter;
    var (e, rest) := ParseInfix(left, ts).value;
    var t := ParseE(ASSIGNMENT, ts[1..]).value;
    LevelNames();
    assert OR <= l by { T.LeftLevelIs(ts[0]); }
    Looser(OR, l);
    Up(CategoryFor(l), LogicalOrExpr, w, left);
    ParserDerives(ASSIGNMENT, ts[1..]);
    ParserDerives(TERNARY, t.1[1..]);
    T.ParseStops(TERNARY, t.1[1..]);
    ConditionalPlaced(w, ts, e, t.1, rest);
  }

  lemma ConditionalPlaced(w: Tokens, ts: Tokens, e: Raw, after: Tokens, rest: Tokens)
    requires e.RConditional? && ts != [] && ts[0].Question? && after != [] && after[0] == Colon && Derives(LogicalOrExpr, w, e.cond)
    requires ExprSpan(AssignmentExpr, ts[1..], e.thn, after) && ExprSpan(ConditionalExpr, after[1..], e.els, rest)
    ensures SpanAfter(ConditionalExpr, w, ts, e, rest)
  {
    hide Derives, Rule;
    var n, m := |ts| - |rest|, |ts| - |after|;
    Part(AssignmentExpr, ts, 1, e.thn, after);
    assert after[1..] == ts[m + 1..];
    Part(ConditionalExpr, ts, m + 1, e.els, rest);
    ConditionalPut(w, ts[1..m], ts[m + 1..n], e.cond, e.thn, e.els);
    assert w + ts[..n] == w + ([Question] + (ts[1..m] + ([Colon] + ts[m + 1..n])));
    PutRule(ConditionalExpr, w + ts[..n], e);
  }

  lemma {:induction false} InfixDerived(w: Tokens, l: nat, left: Raw, ts: Tokens)
    requires 1 <= l <= PRIMARY && Derives(CategoryFor(l), w, left) && ts != [] && MayFollow(l, ts) && ParseInfix(left, ts).Some?
    requires ts[0].Op? || ts[0].Becomes?
    ensures MayFollow(Prec(ts[0]), ParseInfix(left, ts).value.1)
    ensures SpanAfter(CategoryFor(Prec(ts[0])), w, ts, ParseInfix(left, ts).value.0, ParseInfix(left, ts).value.1)
    decreases |ts|, 0
  {
    hide ParseE, ParseArgs, Derives, T.LeftLevel, CategoryFor, ExprSpan, SpanAfter;
    var (e, rest) := ParseInfix(left, ts).value;
    var lc, rc := if ts[0].Op? then OpLevel(ts[0].op) else TERNARY, if ts[0].Op? then OpLevel(ts[0].op) + 1 else ASSIGNMENT;
    assert lc <= l by { T.LeftLevelIs(ts[0]); }
    Looser(lc, l);
    Up(CategoryFor(l), CategoryFor(lc), w, left);
    ParserDerives(rc, ts[1..]);
    T.ParseStops(rc, ts[1..]);
    InfixPlaced(w, lc, rc, ts, e, rest);
  }

  lemma InfixPlaced(w: Tokens, lc: nat, rc: nat, ts: Tokens, e: Raw, rest: Tokens)
    requires ts != [] && (e.RBinary? || e.RAssign? || e.RCompound?) && ts[0] == InfixToken(e)
    requires if e.RBinary? then lc == OpLevel(e.bop) && rc == lc + 1 else lc == TERNARY && rc == ASSIGNMENT
    requires Derives(CategoryFor(lc), w, e.left) && ExprSpan(CategoryFor(rc), ts[1..], e.right, rest)
    ensures SpanAfter(CategoryFor(if e.RBinary? then lc else ASSIGNMENT), w, ts, e, rest)
  {
    hide Derives, CategoryFor;
    var n := |ts| - |rest|;
    Part(CategoryFor(rc), ts, 1, e.right, rest);
    InfixPut(CategoryFor(lc), CategoryFor(rc), w, ts[0], ts[1..n], e.left, e.right);
    assert w + ts[..n] == w + ([ts[0]] + ts[1..n]);
    if e.RBinary? { CategoryOfOperator(e.bop); }
    LevelNames();
    PutInfix(CategoryFor(if e.RBinary? then lc else ASSIGNMENT), CategoryFor(lc), CategoryFor(rc), w + ts[..n], |w|, e);
  }

  lemma NoArgs()
    ensures DerivesArgs([RParen], [])
  {
  }

  lemma LevelNames()
    ensures CategoryFor(ASSIGNMENT) == AssignmentExpr && CategoryFor(TERNARY) == ConditionalExpr && CategoryFor(OR) == LogicalOrExpr
    ensures CategoryFor(UNARY) == CastExpr && CategoryFor(POSTFIX) == PostfixExpr && CategoryFor(PRIMARY) == PrimaryExpr
  {
  }

  lemma {:induction false} ArgsDerive(ts: Tokens)
    requires ParseArgs(ts).Some?
    ensures var (args, rest) := ParseArgs(ts).value; var n := |ts| - |rest|; ts[n..] == rest && args != [] && DerivesArgs(ts[..n], args)
    decreases |ts|, 4
  {
    hide ParseE, Derives;
    var (args, rest) := ParseArgs(ts).value;
    var a := ParseE(ASSIGNMENT, ts).value;
    var n, m := |ts| - |rest|, |ts| - |a.1|;
    ParserDerives(ASSIGNMENT, ts);
    LevelNames();
    assert ts[..n][..m] == ts[..m] && ts[m] == a.1[0];
    if a.1[0] == Comma {
      ArgsDerive(a.1[1..]);
      assert ts[..n][m + 1..] == a.1[1..][..n - m - 1];
      assert args[1..] == ParseArgs(a.1[1..]).value.0;
    } else {
      assert ts[..n][m..] == [RParen];
    }
    assert ArgAt(m, ts[..n], args);
  }

  /** What the words 'ws' add to the specifiers seen so far. */
  predicate Counted(s: Specs, ws: multiset<Token>, z: Specs) {
    && z.nVoid == s.nVoid + ws[Word(KwVoid)] && z.nInt == s.nInt + ws[Word(KwInt)] && z.nLong == s.nLong + ws[Word(KwLong)]
    && (z.twice <==> s.twice || Classes(ws) + (if s.sc.ScNone? then 0 else 1) > 1)
    && (if Classes(ws) == 0 then z.sc == s.sc else !z.sc.ScNone? && ws[ClassWord(z.sc)] > 0)
  }

  lemma CountOne(s: Specs, t: Token, ws: multiset<Token>, z: Specs)
    requires IsDeclarationStart(t) && Counted(AddSpec(s, t), ws, z)
    ensures Counted(s, multiset{t} + ws, z)
  {
    match t.kw
    case KwVoid =>
    case KwInt =>
    case KwLong =>
    case KwStatic => assert t == Word(KwStatic) && (multiset{t} + ws)[t] == ws[t] + 1;
    case KwExtern => assert t == Word(KwExtern) && (multiset{t} + ws)[t] == ws[t] + 1;
    case KwAuto => assert t == Word(KwAuto) && (multiset{t} + ws)[t] == ws[t] + 1;
    case KwRegister => assert t == Word(KwRegister) && (multiset{t} + ws)[t] == ws[t] + 1;
  }

  /** The specifiers are the longest run of type and storage-class words, counted. */
  lemma {:induction false} SpecsCount(s: Specs, ts: Tokens)
    ensures var (z, rest) := ParseSpecs(s, ts);
            var m := |ts| - |rest|;
            && rest == ts[m..] && (forall k :: 0 <= k < m ==> IsDeclarationStart(ts[k])) && (rest == [] || !IsDeclarationStart(rest[0]))
            && Counted(s, multiset(ts[..m]), z)
    decreases |ts|
  {
    hide Counted, AddSpec, IsDeclarationStart;
    if ts != [] && IsDeclarationStart(ts[0]) {
      var s1 := AddSpec(s, ts[0]);
      SpecsCount(s1, ts[1..]);
      var (z, rest) := ParseSpecs(s, ts);
      var m := |ts| - |rest|;
      assert ts[..m] == [ts[0]] + ts[1..][..m - 1];
      CountOne(s, ts[0], multiset(ts[1..][..m - 1]), z);
    } else {
      NoneCounted(s);
      assert ts[..0] == [];
    }
  }

  lemma NoneCounted(s: Specs)
    ensures Counted(s, multiset([]), s)
  {
  }

  lemma TypeCounts(ws: Tokens, ty: Ty)
    requires AllStarts(ws)
    ensures var s := multiset(ws);
            TypeWords(TypePart(s), ty) <==>
              match ty
              case Void => s[Word(KwVoid)] == 1 && s[Word(KwInt)] == 0 && s[Word(KwLong)] == 0
              case Int => s[Word(KwInt)] == 1 && s[Word(KwLong)] == 0 && s[Word(KwVoid)] == 0
              case Long => s[Word(KwLong)] == 1 && s[Word(KwInt)] <= 1 && s[Word(KwVoid)] == 0
              case Function(_, _) => false
  {
    var a := TypePart(multiset(ws));
    forall t | t != Word(KwVoid) && t != Word(KwInt) && t != Word(KwLong) ensures a[t] == 0 {
      if a[t] > 0 { NoOther(ws, t); }
    }
    OnlyThese(a);
  }

  lemma NoOther(ws: Tokens, t: Token)
    requires AllStarts(ws) && TypePart(multiset(ws))[t] > 0
    ensures t == Word(KwVoid) || t == Word(KwInt) || t == Word(KwLong)
  {
    assert t in multiset(ws) && t in ws;
    var k :| 0 <= k < |ws| && ws[k] == t;
    assert IsDeclarationStart(ws[k]);
  }

  lemma OnlyThese(a: multiset<Token>)
    requires forall t :: t != Word(KwVoid) && t != Word(KwInt) && t != Word(KwLong) ==> a[t] == 0
    ensures var v, i, l := Word(KwVoid), Word(KwInt), Word(KwLong);
            && (a == multiset{v} <==> a[v] == 1 && a[i] == 0 && a[l] == 0) && (a == multiset{i} <==> a[v] == 0 && a[i] == 1 && a[l] == 0)
            && (a == multiset{l} <==> a[v] == 0 && a[i] == 0 && a[l] == 1) && (a == multiset{l, i} <==> a[v] == 0 && a[i] == 1 && a[l] == 1)
  {
    var v, i, l := Word(KwVoid), Word(KwInt), Word(KwLong);
    assert multiset{v}[v] == 1 && multiset{i}[i] == 1 && multiset{l}[l] == 1 && multiset{l, i}[l] == 1 && multiset{l, i}[i] == 1;
  }

  /** A type name is accepted only if its words, in any order, are those of a type. */
  lemma TypeNameTaken(ts: Tokens)
    requires ParseTypeName(ts).Some?
    ensures var (ty, rest) := ParseTypeName(ts).value; var m := |ts| - |rest|; rest == ts[m..] && TypeWords(multiset(ts[..m]), ty)
  {
    hide ParseSpecs, TypeWords, Counted, SpecType;
    SpecsCount(NO_SPECS, ts);
    var (z, rest) := ParseSpecs(NO_SPECS, ts);
    TypeDecide(ts[..|ts| - |rest|], z, SpecType(z).value);
  }

  lemma TypeDecide(ws: Tokens, z: Specs, ty: Ty)
    requires AllStarts(ws) && Counted(NO_SPECS, multiset(ws), z) && z.sc.ScNone? && SpecType(z) == Some(ty)
    ensures TypeWords(multiset(ws), ty)
  {
    hide TypeWords, TypePart;
    TypeCounts(ws, ty);
    NoClasses(multiset(ws));
  }

  lemma NoClasses(ws: multiset<Token>)
    requires Classes(ws) == 0
    ensures TypePart(ws) == ws
  {
  }

  /** Declaration specifiers are accepted exactly if their words, in any order, are those of a type with at most
      one storage class. */
  lemma SpecifiersRead(ts: Tokens, m: nat, ty: Ty, sc: Storage)
    requires m <= |ts| && AllStarts(ts[..m]) && (m == |ts| || !IsDeclarationStart(ts[m]))
    ensures Grammar.SpecsOf(ts) == Some(((ty, sc), ts[m..])) <==> Specifiers(multiset(ts[..m]), ty, sc)
    ensures Grammar.SpecsOf(ts).Some? ==> Grammar.SpecsOf(ts).value.1 == ts[m..]
  {
    hide ParseSpecs, Counted, Specifiers, SpecType;
    SpecsCount(NO_SPECS, ts);
    var (z, rest) := ParseSpecs(NO_SPECS, ts);
    var n := |ts| - |rest|;
    SameRun(ts, m, n);
    SpecsDecide(ts[..m], z, ty, sc);
  }

  lemma SpecsDecide(ws: Tokens, z: Specs, ty: Ty, sc: Storage)
    requires AllStarts(ws) && Counted(NO_SPECS, multiset(ws), z)
    ensures !z.twice && SpecType(z) == Some(ty) && z.sc == sc <==> Specifiers(multiset(ws), ty, sc)
  {
    hide TypeWords, TypePart;
    TypeCounts(ws, ty);
    OneClass(multiset(ws), z.sc, sc);
  }

  lemma SameRun(ts: Tokens, m: nat, n: nat)
    requires m <= |ts| && AllStarts(ts[..m]) && (m == |ts| || !IsDeclarationStart(ts[m]))
    requires n <= |ts| && AllStarts(ts[..n]) && (n == |ts| || !IsDeclarationStart(ts[n]))
    ensures m == n
  {
    hide IsDeclarationStart;
    assert forall k :: 0 <= k < m ==> ts[..m][k] == ts[k];
    assert forall k :: 0 <= k < n ==> ts[..n][k] == ts[k];
  }

  lemma OneClass(ws: multiset<Token>, z: Storage, sc: Storage)
    requires if Classes(ws) == 0 then z.ScNone? else !z.ScNone? && ws[ClassWord(z)] > 0
    ensures Classes(ws) <= 1 ==> (z == sc <==> if sc.ScNone? then Classes(ws) == 0 else Classes(ws) == 1 && ws[ClassWord(sc)] == 1)
  {
  }

  /** '()' and '(void)' declare no parameters, and nothing else does. */
  lemma NoParameters(ts: Tokens, rest: Tokens)
    ensures Grammar.ParseParams(ts) == Some(([], rest)) <==> ts == [RParen] + rest || ts == [Word(KwVoid), RParen] + rest
  {
    hide Grammar.ParseParam;
    if ts != [] { assert ts == [ts[0]] + ts[1..]; }
    if |ts| > 1 { assert ts == [ts[0], ts[1]] + ts[2..]; }
    assert Grammar.ParamList(ts).Some? ==> Grammar.ParamList(ts).value.0 != [];
  }

  /** The parser and the grammar agree on every token list: what is parsed is an expression with this tree, and
      every expression is parsed as its tree. */
  lemma ParsesGrammar(ts: Tokens, e: Raw)
    ensures ParseE(ASSIGNMENT, ts) == Some((e, [])) <==> Derives(AssignmentExpr, ts, e)
  {
    hide ParseE, Derives, Climb;
    assert ts + [] == ts;
    LevelNames();
    if Derives(AssignmentExpr, ts, e) {
      DerivedReads(AssignmentExpr, ASSIGNMENT, ts, e, []);
      Stop(ASSIGNMENT, e, []);
    }
    if ParseE(ASSIGNMENT, ts) == Some((e, [])) {
      ParserDerives(ASSIGNMENT, ts);
      assert ts[..|ts| - 0] == ts;
    }
  }

  /** An expression has one tree. */
  lemma OneTree(ts: Tokens, d: Raw, e: Raw)
    requires Derives(AssignmentExpr, ts, d) && Derives(AssignmentExpr, ts, e)
    ensures d == e
  {
    hide ParseE, Derives;
    ParsesGrammar(ts, d);
    ParsesGrammar(ts, e);
  }
}
