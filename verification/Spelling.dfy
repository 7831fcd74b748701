/** Spelling tokens out and lexing them again; with the parser, from a tree to text and back. */
module Spelling {
  import opened Arith
  import opened Ast
  import opened Syntax
  import opened Naming
  import opened Pratt
  import G = ExprGrammar
  import opened Lexing

  /** An identifier that is no keyword. */
  predicate IsName(s: string) {
    s != [] && IsAlpha(s[0]) && (forall k :: 0 <= k < |s| ==> IsWord(s[k])) && forall kw :: kw in KEYWORDS ==> KeywordSpelling(kw) != s
  }

  predicate Spellable(t: Token) {
    IsPunctuator(t) || t.Word? || t.IntLiteral? || t.LongLiteral? || (t.Identifier? && IsName(t.name))
  }

  function Spell(t: Token): string
    requires Spellable(t)
  {
    match t
    case Word(kw) => KeywordSpelling(kw)
    case IntLiteral(v) => Decimal(v)
    case LongLiteral(v) => Decimal(v) + "l"
    case Identifier(n) => n
    case _ => Punctuator(t)
  }

  /** Every token after a space. */
  function SpellAll(ts: Tokens): string
    requires AllSpellable(ts)
  {
    if ts == [] then "" else " " + Spell(ts[0]) + SpellAll(ts[1..])
  }

  /** The number that a string of digits denotes. */
  function Value(s: string): nat
    requires forall k :: 0 <= k < |s| ==> IsDigit(s[k])
  {
    if s == [] then 0 else assert IsDigit(s[|s| - 1]); Value(s[..|s| - 1]) * 10 + (s[|s| - 1] as int - '0' as int)
  }

  /** What the parser makes of a token. */
  function Meaning(text: string, l: Lexeme): Token {
    if l.start > l.end || l.end > |text| then Bad
    else
      var s := text[l.start..l.end];
      match l.kind
      case Plain(t) => t
      case Name => Identifier(s)
      case IntDigits => if forall k :: 0 <= k < |s| ==> IsDigit(s[k]) then IntLiteral(Value(s)) else Bad
      case LongDigits =>
        if s != [] && forall k :: 0 <= k < |s| - 1 ==> IsDigit(s[k]) then LongLiteral(Value(s[..|s| - 1])) else Bad
      case _ => Bad
  }

  /** The tokens the parser sees, without the end marker. */
  function Meanings(text: string, ls: seq<Lexeme>): Tokens
    requires ls != []
  {
    seq(|ls| - 1, k requires 0 <= k < |ls| - 1 => Meaning(text, ls[k]))
  }

  predicate AllSpellable(ts: Tokens) {
    forall k :: 0 <= k < |ts| ==> Spellable(ts[k])
  }

  lemma DigitsAre(d: nat)
    requires d < 10
    ensures IsDigit(DIGITS[d]) && DIGITS[d] as int - '0' as int == d
  {
  }

  lemma {:induction false} DecimalDigits(n: nat)
    ensures (forall k :: 0 <= k < |Decimal(n)| ==> IsDigit(Decimal(n)[k])) && Value(Decimal(n)) == n
  {
    DigitsAre(n % 10);
    var s := Decimal(n);
    if n >= 10 {
      DecimalDigits(n / 10);
      assert s[..|s| - 1] == Decimal(n / 10);
    } else {
      assert s[..0] == [];
    }
  }

  lemma PunctuatorChars(t: Token)
    requires IsPunctuator(t)
    ensures var s := Punctuator(t); forall k :: 0 <= k < |s| ==> !IsWord(s[k]) && s[k] != ' ' && s[k] != '\0' && !IsSpace(s[k])
  {
  }

  /** 't' stands at 'i' and a space or the end follows. */
  predicate Stands(text: string, i: nat, t: Token)
    requires Spellable(t)
  {
    Matches(text, i, Spell(t)) && (var c := At(text, i + |Spell(t)|); c == ' ' || c == '\0')
  }

  /** The kind of the token. */
  function KindOf(t: Token): Kind {
    if t.IntLiteral? then IntDigits else if t.LongLiteral? then LongDigits else if t.Identifier? then Name else Plain(t)
  }

  lemma OperatorStands(text: string, i: nat, t: Token)
    requires '\0' !in text && IsPunctuator(t) && Stands(text, i, t)
    ensures TokenIs(text, i, i + |Spell(t)|, Plain(t)) && !GoesOn(text, i)
  {
    hide Punctuator;
    var s := Punctuator(t);
    PunctuatorChars(t);
    assert text[i] == s[0];
    assert forall k :: 0 <= k < |s| ==> text[i + k] == s[k];
    forall u | IsPunctuator(u) && Matches(text, i, Punctuator(u)) ensures |Punctuator(u)| <= |s| {
      PunctuatorChars(u);
      LongerHas(text, i, |s|, Punctuator(u));
    }
    assert !GoesOn(text, i) by {
      if text[i] == '/' { SlashAlone(text, i, t); }
    }
  }

  lemma LongerHas(text: string, i: nat, n: nat, s: string)
    ensures Matches(text, i, s) && n < |s| ==> At(text, i + n) == s[n]
  {
  }

  lemma SlashAlone(text: string, i: nat, t: Token)
    requires '\0' !in text && IsPunctuator(t) && Stands(text, i, t) && Punctuator(t)[0] == '/'
    ensures At(text, i + 1) != '/' && At(text, i + 1) != '*'
  {
    var s := Punctuator(t);
    assert |s| == 1 || s[1] == '=';
    if |s| > 1 { assert text[i + 1] == s[1]; }
  }

  lemma WordStands(text: string, i: nat, t: Token)
    requires Spellable(t) && (t.Word? || t.Identifier?) && Stands(text, i, t)
    ensures TokenIs(text, i, i + |Spell(t)|, KindOf(t)) && !GoesOn(text, i)
  {
    hide KeywordSpelling, KEYWORDS;
    var s := Spell(t);
    assert text[i] == s[0];
    assert forall k :: i <= k < i + |s| ==> text[k] == s[k - i];
  }

  lemma NumberStands(text: string, i: nat, t: Token)
    requires Spellable(t) && (t.IntLiteral? || t.LongLiteral?) && Stands(text, i, t)
    ensures TokenIs(text, i, i + |Spell(t)|, KindOf(t)) && !GoesOn(text, i)
  {
    hide Decimal, Value;
    var s := Spell(t);
    DecimalDigits(t.v);
    assert Decimal(t.v) != [];
    assert forall k :: i <= k < i + |s| ==> text[k] == s[k - i];
    var d := i + |Decimal(t.v)|;
    assert NumberIs(text, i, d, i + |s|, KindOf(t));
  }

  lemma TokenStands(text: string, i: nat, t: Token)
    requires '\0' !in text && Spellable(t) && Stands(text, i, t)
    ensures TokenIs(text, i, i + |Spell(t)|, KindOf(t)) && !GoesOn(text, i)
  {
    hide Stands, TokenIs, GoesOn;
    if IsPunctuator(t) { OperatorStands(text, i, t); }
    else if t.Word? || t.Identifier? { WordStands(text, i, t); }
    else { NumberStands(text, i, t); }
  }

  lemma StandsMeans(text: string, i: nat, t: Token, l: Lexeme)
    requires Spellable(t) && Stands(text, i, t) && l.kind == KindOf(t) && l.start == i && l.end == i + |Spell(t)|
    ensures Meaning(text, l) == t
  {
    hide KeywordSpelling, Punctuator, Value, Decimal;
    if t.IntLiteral? || t.LongLiteral? {
      DecimalDigits(t.v);
      if t.LongLiteral? { assert Spell(t)[..|Spell(t)| - 1] == Decimal(t.v); }
    }
  }

  /** After a space the next token is the one that stands there. */
  lemma NextStands(text: string, i: nat, t: Token, l: Lexeme)
    requires '\0' !in text && i < |text| && text[i] == ' ' && Spellable(t) && Stands(text, i + 1, t) && NextIs(text, i, l)
    ensures l.kind == KindOf(t) && l.start == i + 1 && l.end == i + 1 + |Spell(t)| && Meaning(text, l) == t
  {
    hide Stands, TokenIs, Meaning, Newlines, LineStart, Spell;
    TokenStands(text, i + 1, t);
    var e := i + 1 + |Spell(t)|;
    assert i + 1 < e <= |text| by { StandsInside(text, i + 1, t); }
    var own := Lexeme(KindOf(t), i + 1, e, 1 + Newlines(text, i + 1), LineStart(text, i + 1));
    assert Piece(text, i, i + 1) && Gap(text, i + 1, i + 1);
    assert Gap(text, i, i + 1);
    NextUnique(text, i, l, own);
    StandsMeans(text, i + 1, t, l);
  }

  lemma StandsInside(text: string, i: nat, t: Token)
    requires Spellable(t) && Stands(text, i, t)
    ensures i + |Spell(t)| <= |text| && |Spell(t)| > 0
  {
    hide KeywordSpelling, Punctuator, Decimal;
  }

  lemma {:induction false} SpellSplit(ts: Tokens, k: nat)
    requires AllSpellable(ts) && k <= |ts|
    ensures SpellAll(ts) == SpellAll(ts[..k]) + SpellAll(ts[k..])
  {
    hide Spell, Spellable;
    if k == 0 {
      assert ts[..0] == [] && ts[0..] == ts;
    } else {
      var rest, head := ts[1..], " " + Spell(ts[0]);
      SpellSplit(rest, k - 1);
      assert ts[..k][1..] == rest[..k - 1] && rest[k - 1..] == ts[k..];
      assert SpellAll(ts) == head + SpellAll(rest) && SpellAll(ts[..k]) == head + SpellAll(rest[..k - 1]);
    }
  }

  lemma {:induction false} SpellNoNul(ts: Tokens)
    requires AllSpellable(ts)
    ensures '\0' !in SpellAll(ts)
  {
    if ts != [] {
      TokenNoNul(ts[0]);
      SpellNoNul(ts[1..]);
    }
  }

  lemma TokenNoNul(t: Token)
    requires Spellable(t)
    ensures '\0' !in Spell(t)
  {
    hide KeywordSpelling, Punctuator, Decimal;
    if IsPunctuator(t) { PunctuatorChars(t); }
    if t.IntLiteral? || t.LongLiteral? { DecimalDigits(t.v); }
  }

  /** Token 'k' stands after the spelling of its predecessors and a space. */
  lemma StandsAt(ts: Tokens, k: nat)
    requires AllSpellable(ts) && k < |ts|
    ensures var text, i := SpellAll(ts), |SpellAll(ts[..k])|;
            i < |text| && text[i] == ' ' && Stands(text, i + 1, ts[k]) && i + 1 + |Spell(ts[k])| == |SpellAll(ts[..k + 1])|
  {
    hide Spell, Spellable;
    SpellSplit(ts, k);
    SpellSplit(ts[..k + 1], k);
    assert ts[..k + 1][..k] == ts[..k] && ts[..k + 1][k..] == [ts[k]];
    var before, t, after := SpellAll(ts[..k]), Spell(ts[k]), SpellAll(ts[k..][1..]);
    assert SpellAll(ts) == before + " " + t + after;
    assert SpellAll([ts[k]]) == " " + t + "";
    assert after != "" ==> after[0] == ' ';
  }

  /** The first tokens of the stream are those spelled out. */
  lemma {:induction false} LexesTo(ts: Tokens, ls: seq<Lexeme>, k: nat)
    requires AllSpellable(ts) && Tiles(SpellAll(ts), ls) && k <= |ts|
    ensures |ls| > k && From(ls, k) == |SpellAll(ts[..k])|
    ensures forall j :: 0 <= j < k ==> Meaning(SpellAll(ts), ls[j]) == ts[j]
  {
    hide Meaning, Spell, Spellable, NextIs, Stands;
    if k == 0 {
      assert ts[..0] == [];
    } else {
      LexesTo(ts, ls, k - 1);
      SpellNoNul(ts);
      StandsAt(ts, k - 1);
      NextStands(SpellAll(ts), From(ls, k - 1), ts[k - 1], ls[k - 1]);
      assert !KindOf(ts[k - 1]).End?;
    }
  }

  lemma AtEnd(text: string, l: Lexeme)
    requires NextIs(text, |text|, l)
    ensures l.kind.End?
  {
    hide Newlines, LineStart, TokenIs;
  }

  /** Lexing undoes spelling: any tokens, each spelled after a space, are read back unchanged. */
  lemma LexingUndoesSpelling(ts: Tokens, ls: seq<Lexeme>)
    requires AllSpellable(ts) && Tiles(SpellAll(ts), ls)
    ensures Meanings(SpellAll(ts), ls) == ts
  {
    hide Meaning, Spellable, NextIs, SpellAll;
    LexesTo(ts, ls, |ts|);
    assert ts[..|ts|] == ts;
    AtEnd(SpellAll(ts), ls[|ts|]);
  }

  /** A tree whose names are identifiers and whose compound assignments exist. */
  predicate Writable(e: Raw)
    decreases e, 1
  {
    match e
    case RInt(_) => true
    case RLong(_) => true
    case RName(n) => IsName(n)
    case RUnary(_, a) => Writable(a)
    case RPre(_, a) => Writable(a)
    case RPost(_, a) => Writable(a)
    case RBinary(_, a, b) => Writable(a) && Writable(b)
    case RAssign(a, b) => Writable(a) && Writable(b)
    case RCompound(op, a, b) => !IsCompare(op) && !IsLogical(op) && Writable(a) && Writable(b)
    case RConditional(c, a, b) => Writable(c) && Writable(a) && Writable(b)
    case RCall(f, args) => Writable(f) && WritableArgs(args)
    case RCast(_, a) => Writable(a)
  }

  predicate WritableArgs(args: seq<Raw>)
    decreases args, 0
  {
    args == [] || (Writable(args[0]) && WritableArgs(args[1..]))
  }

  lemma JoinSpellable(a: Tokens, b: Tokens)
    requires AllSpellable(a) && AllSpellable(b)
    ensures AllSpellable(a + b)
  {
    hide Spellable;
  }

  lemma OneSpellable(t: Token)
    requires Spellable(t)
    ensures AllSpellable([t])
  {
    hide Spellable;
  }

  lemma {:induction false} PrintSpellable(e: Raw, level: nat)
    requires Printable(e) && Writable(e)
    ensures AllSpellable(Print(e, level))
    decreases e, 2
  {
    hide PrintBare, AllSpellable;
    BareSpellable(e);
    if LevelOf(e) < level {
      OneSpellable(LParen);
      OneSpellable(RParen);
      JoinSpellable(PrintBare(e), [RParen]);
      JoinSpellable([LParen], PrintBare(e) + [RParen]);
    }
  }

  lemma {:induction false} BareSpellable(e: Raw)
    requires Printable(e) && Writable(e)
    ensures AllSpellable(PrintBare(e))
    decreases e, 1
  {
    hide AllSpellable, Print, PrintArgs, IsName;
    match e
    case RInt(v) => OneSpellable(IntLiteral(v));
    case RLong(v) => OneSpellable(LongLiteral(v));
    case RName(n) => OneSpellable(Identifier(n));
    case RUnary(op, a) => OneSpellable(UnaryToken(op)); Prefixed(UnaryToken(op), a, UNARY);
    case RPre(inc, a) => OneSpellable(Step(inc)); Prefixed(Step(inc), a, UNARY);
    case RPost(inc, a) =>
      PrintSpellable(a, POSTFIX);
      OneSpellable(Step(inc));
      JoinSpellable(Print(a, POSTFIX), [Step(inc)]);
    case RBinary(op, a, b) =>
      PrintSpellable(a, OpLevel(op));
      OneSpellable(Op(op));
      Prefixed(Op(op), b, OpLevel(op) + 1);
      JoinSpellable(Print(a, OpLevel(op)), [Op(op)] + Print(b, OpLevel(op) + 1));
    case RAssign(a, b) =>
      PrintSpellable(a, TERNARY);
      OneSpellable(Becomes(None));
      Prefixed(Becomes(None), b, ASSIGNMENT);
      JoinSpellable(Print(a, TERNARY), [Becomes(None)] + Print(b, ASSIGNMENT));
    case RCompound(op, a, b) =>
      PrintSpellable(a, TERNARY);
      OneSpellable(Becomes(Some(op)));
      Prefixed(Becomes(Some(op)), b, ASSIGNMENT);
      JoinSpellable(Print(a, TERNARY), [Becomes(Some(op))] + Print(b, ASSIGNMENT));
    case RConditional(c, a, b) =>
      PrintSpellable(c, OR);
      OneSpellable(Question);
      OneSpellable(Colon);
      PrintSpellable(a, ASSIGNMENT);
      Prefixed(Colon, b, TERNARY);
      JoinSpellable(Print(a, ASSIGNMENT), [Colon] + Print(b, TERNARY));
      JoinSpellable([Question], Print(a, ASSIGNMENT) + ([Colon] + Print(b, TERNARY)));
      JoinSpellable(Print(c, OR), [Question] + (Print(a, ASSIGNMENT) + ([Colon] + Print(b, TERNARY))));
    case RCall(f, args) =>
      PrintSpellable(f, POSTFIX);
      ArgsSpellable(args);
      OneSpellable(LParen);
      JoinSpellable([LParen], PrintArgs(args));
      JoinSpellable(Print(f, POSTFIX), [LParen] + PrintArgs(args));
    case RCast(ty, a) =>
      PrintSpellable(a, UNARY);
      assert AllSpellable([LParen, TypeWord(ty), RParen]) by {
        OneSpellable(LParen);
        OneSpellable(TypeWord(ty));
        OneSpellable(RParen);
        JoinSpellable([LParen], [TypeWord(ty)]);
        JoinSpellable([LParen] + [TypeWord(ty)], [RParen]);
        assert [LParen] + [TypeWord(ty)] + [RParen] == [LParen, TypeWord(ty), RParen];
      }
      JoinSpellable([LParen, TypeWord(ty), RParen], Print(a, UNARY));
  }

  lemma {:induction false} Prefixed(t: Token, a: Raw, level: nat)
    requires Printable(a) && Writable(a) && AllSpellable([t])
    ensures AllSpellable([t] + Print(a, level))
    decreases a, 3
  {
    hide AllSpellable, Print;
    PrintSpellable(a, level);
    JoinSpellable([t], Print(a, level));
  }

  lemma {:induction false} ArgsSpellable(args: seq<Raw>)
    requires PrintableArgs(args) && WritableArgs(args)
    ensures AllSpellable(PrintArgs(args))
    decreases args, 0
  {
    hide AllSpellable, Print;
    OneSpellable(RParen);
    OneSpellable(Comma);
    if args != [] {
      PrintSpellable(args[0], ASSIGNMENT);
      JoinSpellable(Print(args[0], ASSIGNMENT), [RParen]);
      ArgsSpellable(args[1..]);
      JoinSpellable([Comma], PrintArgs(args[1..]));
      JoinSpellable(Print(args[0], ASSIGNMENT), [Comma] + PrintArgs(args[1..]));
    }
  }

  /** The text of a tree. */
  function SourceText(e: Raw): string
    requires Printable(e) && Writable(e)
  {
    PrintSpellable(e, ASSIGNMENT);
    SpellAll(Print(e, ASSIGNMENT))
  }

  /** From tree to text and back: the text of any expression, however deep, lexes and parses to the same tree. */
  lemma TextRoundTrip(e: Raw, ls: seq<Lexeme>)
    requires Printable(e) && Writable(e) && Tiles(SourceText(e), ls)
    ensures ParseE(ASSIGNMENT, Meanings(SourceText(e), ls)) == Some((e, []))
  {
    hide Print, AllSpellable, Tiles, Meanings, ParseE, SpellAll;
    var ts := Print(e, ASSIGNMENT);
    PrintSpellable(e, ASSIGNMENT);
    LexingUndoesSpelling(ts, ls);
    G.RoundTrip(e, []);
    assert ts + [] == ts;
  }
}
