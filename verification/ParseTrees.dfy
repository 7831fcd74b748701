/** The trees the expression parser builds are exactly those that can be printed, and what analysis relies on. */
module ParseTrees {
  import opened Arith
  import opened Ast
  import opened Syntax
  import opened Pratt
  import G = ExprGrammar
  import Analysis

  /** The lexer makes no compound assignment out of a comparison, and no name that is not an identifier. */
  predicate Real(t: Token) {
    && (t.Becomes? && t.aop.Some? ==> !IsCompare(t.aop.value) && !IsLogical(t.aop.value))
    && (t.Identifier? ==> IsIdentifier(t.name))
  }

  predicate AllReal(ts: Tokens) {
    forall k :: 0 <= k < |ts| ==> Real(ts[k])
  }

  /** Some text reads as this tree, and analysis can work on it. */
  predicate Sound(e: Raw) {
    Printable(e) && Analysis.Parsed(e)
  }

  predicate SoundArgs(args: seq<Raw>) {
    PrintableArgs(args) && Analysis.ParsedArgs(args)
  }

  /** Whatever is parsed is sound, and the rest is real. */
  predicate Fine(r: Parsed<Raw>) {
    r.Some? ==> Sound(r.value.0) && AllReal(r.value.1)
  }

  lemma Next(ts: Tokens)
    requires AllReal(ts) && ts != []
    ensures AllReal(ts[1..])
  {
  }

  lemma {:induction false} SpecsReal(s: Specs, ts: Tokens)
    requires AllReal(ts)
    ensures AllReal(ParseSpecs(s, ts).1)
    decreases |ts|
  {
    if ts != [] && IsDeclarationStart(ts[0]) { SpecsReal(AddSpec(s, ts[0]), ts[1..]); }
  }

  /** Whatever the parser returns can be printed and is what analysis relies on. */
  lemma {:induction false} ParserBuilds(prec: nat, ts: Tokens)
    requires prec >= 1 && AllReal(ts)
    ensures Fine(ParseE(prec, ts))
    decreases |ts|, 2
  {
    hide ParsePrefix, Climb, Sound, AllReal;
    PrefixBuilds(ts);
    var p := ParsePrefix(ts);
    if p.Some? { ClimbBuilds(prec, p.value.0, p.value.1); }
  }

  lemma {:induction false} ClimbBuilds(prec: nat, left: Raw, ts: Tokens)
    requires prec >= 1 && AllReal(ts) && Sound(left)
    ensures Fine(Climb(prec, left, ts))
    decreases |ts|, 3
  {
    hide ParseInfix, Sound, AllReal;
    if ts != [] && Prec(ts[0]) >= prec {
      InfixBuilds(left, ts);
      var r := ParseInfix(left, ts);
      if r.Some? { ClimbBuilds(prec, r.value.0, r.value.1); }
    }
  }

  lemma {:induction false} UnaryBuilds(op: UnOp, ts: Tokens)
    requires ts != [] && AllReal(ts)
    ensures Fine(ParseUnary(op, ts))
    decreases |ts|, 0
  {
    hide ParseE;
    ParserBuilds(UNARY, ts[1..]);
  }

  lemma {:induction false} PrefixBuilds(ts: Tokens)
    requires AllReal(ts)
    ensures Fine(ParsePrefix(ts))
    decreases |ts|, 1
  {
    hide ParseE, ParseUnary;
    if ts != [] {
      Next(ts);
      if ts[0].Step? { ParserBuilds(UNARY, ts[1..]); }
      else if ts[0].LParen? { ParenBuilds(ts); }
      else if ts[0].Op? { UnaryBuilds(Plus, ts); UnaryBuilds(Neg, ts); }
      else if ts[0].Bang? { UnaryBuilds(LogNot, ts); }
      else if ts[0].Tilde? { UnaryBuilds(BitNot, ts); }
    }
  }

  lemma {:induction false} ParenBuilds(ts: Tokens)
    requires AllReal(ts) && ts != [] && ts[0].LParen?
    ensures Fine(ParsePrefix(ts))
    decreases |ts|, 0
  {
    hide ParseE, ParseSpecs;
    if |ts| > 1 && IsTypeWord(ts[1]) {
      SpecsReal(NO_SPECS, ts[1..]);
      var t := ParseTypeName(ts[1..]);
      if t.Some? && Expect(RParen, t.value.1).Some? { ParserBuilds(UNARY, t.value.1[1..]); }
    } else {
      ParserBuilds(ASSIGNMENT, ts[1..]);
    }
  }

  lemma NoneSound()
    ensures SoundArgs([])
  {
  }

  lemma ConsSound(a: Raw, args: seq<Raw>)
    requires Sound(a) && SoundArgs(args)
    ensures SoundArgs([a] + args)
  {
    hide Printable, Analysis.Parsed;
    assert ([a] + args)[1..] == args;
  }

  lemma CallSound(f: Raw, args: seq<Raw>)
    requires Sound(f) && SoundArgs(args)
    ensures Sound(RCall(f, args))
  {
    hide PrintableArgs, Analysis.ParsedArgs;
  }

  lemma OperatorSound(op: BinOp, a: Raw, b: Raw, c: Raw, inc: bool)
    requires Sound(a) && Sound(b) && Sound(c)
    ensures Sound(RBinary(op, a, b)) && Sound(RAssign(a, b)) && Sound(RConditional(a, b, c)) && Sound(RPost(inc, a))
    ensures !IsCompare(op) && !IsLogical(op) ==> Sound(RCompound(op, a, b))
  {
  }

  lemma {:induction false} InfixBuilds(left: Raw, ts: Tokens)
    requires ts != [] && AllReal(ts) && Sound(left)
    ensures Fine(ParseInfix(left, ts))
    decreases |ts|, 0
  {
    hide ParseE, ParseArgs, Sound, SoundArgs;
    Next(ts);
    if ts[0].LParen? {
      ArgsBuild(ts[1..]);
      NoneSound();
      CallSound(left, []);
      var r := ParseArgs(ts[1..]);
      if r.Some? { CallSound(left, r.value.0); }
    } else if ts[0].Question? {
      ParserBuilds(ASSIGNMENT, ts[1..]);
      var t := ParseE(ASSIGNMENT, ts[1..]);
      if t.Some? && Expect(Colon, t.value.1).Some? {
        Next(t.value.1);
        ParserBuilds(TERNARY, t.value.1[1..]);
        var e := ParseE(TERNARY, t.value.1[1..]);
        if e.Some? { OperatorSound(Add, left, t.value.0, e.value.0, true); }
      }
    } else if ts[0].Op? {
      ParserBuilds(OpLevel(ts[0].op) + 1, ts[1..]);
      var r := ParseE(OpLevel(ts[0].op) + 1, ts[1..]);
      if r.Some? { OperatorSound(ts[0].op, left, r.value.0, left, true); }
    } else if ts[0].Step? {
      OperatorSound(Add, left, left, left, ts[0].inc);
    } else if ts[0].Becomes? {
      assert Real(ts[0]);
      ParserBuilds(ASSIGNMENT, ts[1..]);
      var r := ParseE(ASSIGNMENT, ts[1..]);
      if r.Some? { OperatorSound(if ts[0].aop.Some? then ts[0].aop.value else Add, left, r.value.0, left, true); }
    }
  }

  lemma {:induction false} ArgsBuild(ts: Tokens)
    requires AllReal(ts)
    ensures ParseArgs(ts).Some? ==> SoundArgs(ParseArgs(ts).value.0) && AllReal(ParseArgs(ts).value.1)
    decreases |ts|, 4
  {
    hide ParseE, Sound, SoundArgs;
    NoneSound();
    ParserBuilds(ASSIGNMENT, ts);
    var a := ParseE(ASSIGNMENT, ts);
    if a.Some? && a.value.1 != [] {
      Next(a.value.1);
      if a.value.1[0] == Comma {
        ArgsBuild(a.value.1[1..]);
        var rest := ParseArgs(a.value.1[1..]);
        if rest.Some? { ConsSound(a.value.0, rest.value.0); }
      } else {
        ConsSound(a.value.0, []);
        assert [a.value.0] + [] == [a.value.0];
      }
    }
  }

  /** Printing what was parsed, with the fewest parentheses, and parsing again changes nothing. */
  lemma Reparse(ts: Tokens)
    requires AllReal(ts) && ParseE(ASSIGNMENT, ts).Some?
    ensures var e := ParseE(ASSIGNMENT, ts).value.0;
            Printable(e) && Analysis.Parsed(e) && ParseE(ASSIGNMENT, Print(e, ASSIGNMENT)) == Some((e, []))
  {
    hide ParseE, Print;
    ParserBuilds(ASSIGNMENT, ts);
    var e := ParseE(ASSIGNMENT, ts).value.0;
    G.RoundTrip(e, []);
    assert Print(e, ASSIGNMENT) + [] == Print(e, ASSIGNMENT);
  }

  /** Level at which the left operand of an infix operator is printed; 0 if the token is none. */
  function LeftLevel(t: Token): nat {
    match t
    case LParen => POSTFIX
    case Step(_) => POSTFIX
    case Question => OR
    case Becomes(_) => TERNARY
    case Op(op) => OpLevel(op)
    case _ => 0
  }

  /** The 'k' tokens of 'left' suffice to print it where an operator of level 'prec' or the next token takes
      it as operand: its own level is high enough, or it stood in parentheses. */
  predicate Ready(k: int, left: Raw, prec: nat, ts: Tokens)
    requires Printable(left)
  {
    && k >= |PrintBare(left)|
    && (k >= |PrintBare(left)| + 2 || (LevelOf(left) >= prec && (ts == [] || LeftLevel(ts[0]) <= LevelOf(left))))
  }

  lemma {:induction false} ClimbStops(prec: nat, left: Raw, ts: Tokens)
    requires prec >= 1 && Climb(prec, left, ts).Some?
    ensures var rest := Climb(prec, left, ts).value.1; rest == [] || Prec(rest[0]) < prec
    decreases |ts|
  {
    hide ParseInfix;
    if ts != [] && Prec(ts[0]) >= prec {
      var r := ParseInfix(left, ts).value;
      ClimbStops(prec, r.0, r.1);
    }
  }

  lemma ParseStops(prec: nat, ts: Tokens)
    requires prec >= 1 && ParseE(prec, ts).Some?
    ensures var rest := ParseE(prec, ts).value.1;
            rest == [] || LeftLevel(rest[0]) <= if prec > OR then prec - 1 else if prec == ASSIGNMENT then 0 else prec
  {
    hide ParsePrefix, Climb;
    var p := ParsePrefix(ts).value;
    ClimbStops(prec, p.0, p.1);
  }

  /** The printed form is the shortest: whatever tokens read as this tree, there are at least as many of them,
      so no parentheses can be left out. */
  lemma {:induction false} Shortest(prec: nat, ts: Tokens)
    requires 1 <= prec <= UNARY && AllReal(ts) && ParseE(prec, ts).Some?
    ensures var (e, rest) := ParseE(prec, ts).value; Printable(e) && |ts| - |rest| >= |Print(e, prec)|
    decreases |ts|, 2
  {
    hide ParsePrefix, Climb, AllReal, PrintBare;
    PrefixBuilds(ts);
    PrefixShortest(prec, ts);
    var (left, rest) := ParsePrefix(ts).value;
    ClimbBuilds(prec, left, rest);
    ClimbShortest(prec, left, rest, |ts| - |rest|);
  }

  lemma {:induction false} ClimbShortest(prec: nat, left: Raw, ts: Tokens, k: int)
    requires 1 <= prec <= UNARY && AllReal(ts) && Sound(left) && Ready(k, left, prec, ts) && Climb(prec, left, ts).Some?
    ensures var (e, rest) := Climb(prec, left, ts).value; Printable(e) && k + |ts| - |rest| >= |Print(e, prec)|
    decreases |ts|, 3
  {
    hide ParseInfix, AllReal, PrintBare, Analysis.Parsed;
    if ts != [] && Prec(ts[0]) >= prec {
      InfixBuilds(left, ts);
      var (e, rest) := ParseInfix(left, ts).value;
      InfixShortest(prec, left, ts, k);
      ClimbShortest(prec, e, rest, k + |ts| - |rest|);
    }
  }

  lemma {:induction false} UnaryShortest(prec: nat, ts: Tokens)
    requires 1 <= prec <= UNARY && ts != [] && AllReal(ts) && ParseE(UNARY, ts[1..]).Some?
    ensures var (a, rest) := ParseE(UNARY, ts[1..]).value;
            && Printable(a) && |ts| - |rest| >= 1 + |Print(a, UNARY)|
            && (rest == [] || LeftLevel(rest[0]) <= UNARY)
    decreases |ts|, 0
  {
    hide ParseE, Print;
    Next(ts);
    Shortest(UNARY, ts[1..]);
    ParseStops(UNARY, ts[1..]);
  }

  lemma LeftLevelMost(t: Token)
    ensures LeftLevel(t) <= POSTFIX
  {
  }

  lemma {:induction false} PrefixShortest(prec: nat, ts: Tokens)
    requires 1 <= prec <= UNARY && AllReal(ts) && ParsePrefix(ts).Some?
    ensures var (e, rest) := ParsePrefix(ts).value; Printable(e) && Ready(|ts| - |rest|, e, prec, rest)
    decreases |ts|, 1
  {
    hide ParseE, Print, AllReal, LeftLevel;
    if |ts| > 1 { LeftLevelMost(ts[1]); }
    if ts[0].LParen? { ParenShortest(prec, ts); }
    else if ts[0].Step? || ts[0].Op? || ts[0].Bang? || ts[0].Tilde? { UnaryShortest(prec, ts); }
  }

  lemma {:induction false} ParenShortest(prec: nat, ts: Tokens)
    requires 1 <= prec <= UNARY && AllReal(ts) && ts != [] && ts[0].LParen? && ParsePrefix(ts).Some?
    ensures var (e, rest) := ParsePrefix(ts).value; Printable(e) && Ready(|ts| - |rest|, e, prec, rest)
    decreases |ts|, 0
  {
    hide ParseE, AllReal, LeftLevel;
    Next(ts);
    if |ts| > 1 && IsTypeWord(ts[1]) {
      hide Print;
      SpecsReal(NO_SPECS, ts[1..]);
      var t := ParseTypeName(ts[1..]).value;
      assert |t.1| < |ts[1..]| by { SpecTaken(ts[1..]); }
      Next(t.1);
      Shortest(UNARY, t.1[1..]);
      ParseStops(UNARY, t.1[1..]);
    } else {
      Shortest(ASSIGNMENT, ts[1..]);
    }
  }

  lemma SpecTaken(ts: Tokens)
    requires ts != [] && IsTypeWord(ts[0])
    ensures |ParseSpecs(NO_SPECS, ts).1| < |ts|
  {
  }

  lemma LeftFits(k: int, left: Raw, prec: nat, ts: Tokens)
    requires Printable(left) && ts != [] && Ready(k, left, prec, ts)
    ensures k >= |Print(left, LeftLevel(ts[0]))|
  {
    hide PrintBare, LevelOf, LeftLevel;
  }

  lemma {:induction false} InfixShortest(prec: nat, left: Raw, ts: Tokens, k: int)
    requires 1 <= prec <= UNARY && ts != [] && Prec(ts[0]) >= prec && AllReal(ts) && Sound(left) && Ready(k, left, prec, ts)
    requires ParseInfix(left, ts).Some?
    ensures var (e, rest) := ParseInfix(left, ts).value; Printable(e) && Ready(k + |ts| - |rest|, e, prec, rest)
    decreases |ts|, 1
  {
    hide ParseE, ParseArgs, ParseInfix, AllReal, Analysis.Parsed, Print, Ready;
    LeftFits(k, left, prec, ts);
    if ts[0].LParen? { CallShortest(prec, left, ts, k); }
    else if ts[0].Question? { ConditionalShortest(prec, left, ts, k); }
    else { OperatorShortest(prec, left, ts, k); }
  }

  lemma {:induction false} OperatorShortest(prec: nat, left: Raw, ts: Tokens, k: int)
    requires 1 <= prec <= UNARY && ts != [] && Prec(ts[0]) >= prec && AllReal(ts) && Sound(left) && k >= |Print(left, LeftLevel(ts[0]))|
    requires ParseInfix(left, ts).Some? && (ts[0].Op? || ts[0].Becomes? || ts[0].Step?)
    ensures var (e, rest) := ParseInfix(left, ts).value; Printable(e) && Ready(k + |ts| - |rest|, e, prec, rest)
    decreases |ts|, 0
  {
    hide ParseE, ParseArgs, AllReal, Analysis.Parsed, Print, PrintArgs, LeftLevel;
    Next(ts);
    InfixBuilds(left, ts);
    LeftLevelIs(ts[0]);
    var (e, rest) := ParseInfix(left, ts).value;
    if rest != [] { LeftLevelMost(rest[0]); }
    if ts[0].Op? {
      Shortest(OpLevel(ts[0].op) + 1, ts[1..]);
      ParseStops(OpLevel(ts[0].op) + 1, ts[1..]);
    } else if ts[0].Becomes? {
      Shortest(ASSIGNMENT, ts[1..]);
      ParseStops(ASSIGNMENT, ts[1..]);
    }
  }

  lemma LeftLevelIs(t: Token)
    ensures LeftLevel(t) == if t.Op? then OpLevel(t.op) else if t.Becomes? then TERNARY else if t.Question? then OR
                            else if t.LParen? || t.Step? then POSTFIX else 0
  {
  }

  lemma {:induction false} CallShortest(prec: nat, left: Raw, ts: Tokens, k: int)
    requires 1 <= prec <= UNARY && ts != [] && ts[0].LParen? && AllReal(ts) && Sound(left) && k >= |Print(left, LeftLevel(ts[0]))|
    requires ParseInfix(left, ts).Some?
    ensures var (e, rest) := ParseInfix(left, ts).value; Printable(e) && Ready(k + |ts| - |rest|, e, prec, rest)
    decreases |ts|, 0
  {
    hide ParseE, ParseArgs, AllReal, Analysis.Parsed, Print, LeftLevel;
    Next(ts);
    InfixBuilds(left, ts);
    LeftLevelIs(ts[0]);
    var (e, rest) := ParseInfix(left, ts).value;
    if rest != [] { LeftLevelMost(rest[0]); }
    var args := if |ts| > 1 && ts[1] == RParen then [] else ParseArgs(ts[1..]).value.0;
    if args != [] || !(|ts| > 1 && ts[1] == RParen) { ArgsShortest(ts[1..]); }
    assert e == RCall(left, args) && |PrintBare(e)| == |Print(left, POSTFIX)| + 1 + |PrintArgs(args)|;
  }

  lemma {:induction false} ConditionalShortest(prec: nat, left: Raw, ts: Tokens, k: int)
    requires 1 <= prec <= TERNARY && ts != [] && ts[0].Question? && AllReal(ts) && Sound(left) && k >= |Print(left, LeftLevel(ts[0]))|
    requires ParseInfix(left, ts).Some?
    ensures var (e, rest) := ParseInfix(left, ts).value; Printable(e) && Ready(k + |ts| - |rest|, e, prec, rest)
    decreases |ts|, 0
  {
    hide ParseE, ParseArgs, AllReal, Analysis.Parsed, Print, LeftLevel;
    Next(ts);
    InfixBuilds(left, ts);
    LeftLevelIs(ts[0]);
    Shortest(ASSIGNMENT, ts[1..]);
    var t := ParseE(ASSIGNMENT, ts[1..]).value;
    ParserBuilds(ASSIGNMENT, ts[1..]);
    Next(t.1);
    Shortest(TERNARY, t.1[1..]);
    ParseStops(TERNARY, t.1[1..]);
  }

  lemma {:induction false} ArgsShortest(ts: Tokens)
    requires AllReal(ts) && ParseArgs(ts).Some?
    ensures var (args, rest) := ParseArgs(ts).value; PrintableArgs(args) && |ts| - |rest| >= |PrintArgs(args)|
    decreases |ts|, 4
  {
    hide ParseE, Print, AllReal;
    Shortest(ASSIGNMENT, ts);
    ArgsBuild(ts);
    ParserBuilds(ASSIGNMENT, ts);
    var a := ParseE(ASSIGNMENT, ts).value;
    if a.1[0] == Comma {
      Next(a.1);
      ArgsShortest(a.1[1..]);
      var q := ParseArgs(a.1[1..]).value.0;
      assert ([a.0] + q)[1..] == q;
      assert |PrintArgs([a.0] + q)| <= |Print(a.0, ASSIGNMENT)| + 1 + |PrintArgs(q)|;
    }
  }
}
