/** Precedence climbing: what the expression parser returns, and printing with the fewest parentheses. */
module Pratt {
  import opened Arith
  import opened Ast
  import opened Syntax

  datatype Keyword =
    | KwInt | KwLong | KwVoid | KwStatic | KwExtern | KwAuto | KwRegister | KwReturn | KwIf | KwElse | KwFor | KwWhile | KwDo
    | KwBreak | KwContinue | KwSwitch | KwCase | KwDefault | KwGoto

  /** '+' and '-' are one token whether unary or binary; 'Becomes(None)' is '=', 'Becomes(Some(op))' is 'op='. */
  datatype Token =
    | LParen | RParen | LBrace | RBrace | LBracket | RBracket | Semicolon | Colon | Comma | Question
    | Op(op: BinOp) | Bang | Tilde | Step(inc: bool) | Becomes(aop: Option<BinOp>)
    | Identifier(name: string) | IntLiteral(v: nat) | LongLiteral(v: nat)
    | Word(kw: Keyword) | Bad

  /** Larger literals are errors. */
  const LITERAL_MAX := 0x7FFF_FFFF_FFFF_FFFF

  const ASSIGNMENT := 1
  const TERNARY := 2
  const OR := 3
  const UNARY := 13
  const POSTFIX := 14
  const PRIMARY := 15

  function OpLevel(op: BinOp): (l: nat)
    ensures OR <= l < UNARY
  {
    match op
    case LogOr => 3
    case LogAnd => 4
    case Or => 5
    case Xor => 6
    case And => 7
    case Eq => 8
    case Ne => 8
    case Lt => 9
    case Le => 9
    case Gt => 9
    case Ge => 9
    case Shl => 10
    case Shr => 10
    case Add => 11
    case Sub => 11
    case Mul => 12
    case Div => 12
    case Rem => 12
  }

  /** Precedence of a token as an infix operator; 0 if it is none. */
  function Prec(t: Token): nat {
    match t
    case LParen => POSTFIX
    case Step(_) => POSTFIX
    case Question => TERNARY
    case Becomes(_) => ASSIGNMENT
    case Op(op) => OpLevel(op)
    case _ => 0
  }

  predicate IsTypeWord(t: Token) {
    t.Word? && (t.kw.KwInt? || t.kw.KwLong? || t.kw.KwVoid?)
  }

  predicate IsStorageWord(t: Token) {
    t.Word? && (t.kw.KwStatic? || t.kw.KwExtern? || t.kw.KwAuto? || t.kw.KwRegister?)
  }

  predicate IsDeclarationStart(t: Token) {
    IsTypeWord(t) || IsStorageWord(t)
  }

  type Tokens = seq<Token>
  type Parsed<T> = Option<(T, Tokens)>

  /** Specifier counts seen so far, the storage class, and whether there were several. */
  datatype Specs = Specs(nVoid: nat, nInt: nat, nLong: nat, sc: Storage, twice: bool)

  const NO_SPECS := Specs(0, 0, 0, ScNone, false)

  function StorageOf(k: Keyword): Storage {
    match k
    case KwStatic => ScStatic
    case KwExtern => ScExtern
    case KwAuto => ScAuto
    case _ => ScRegister
  }

  function AddSpec(s: Specs, t: Token): Specs
    requires IsDeclarationStart(t)
  {
    match t.kw
    case KwVoid => s.(nVoid := s.nVoid + 1)
    case KwInt => s.(nInt := s.nInt + 1)
    case KwLong => s.(nLong := s.nLong + 1)
    case kw => s.(sc := StorageOf(kw), twice := s.twice || !s.sc.ScNone?)
  }

  function SpecType(s: Specs): Option<Ty> {
    if s.nVoid == 1 && s.nInt == 0 && s.nLong == 0 then Some(Void)
    else if s.nLong == 1 && s.nInt <= 1 && s.nVoid == 0 then Some(Long)
    else if s.nInt == 1 && s.nLong == 0 && s.nVoid == 0 then Some(Int)
    else None
  }

  function ParseSpecs(s: Specs, ts: Tokens): (r: (Specs, Tokens))
    ensures |r.1| <= |ts|
    decreases |ts|
  {
    if ts == [] || !IsDeclarationStart(ts[0]) then (s, ts) else ParseSpecs(AddSpec(s, ts[0]), ts[1..])
  }

  function ParseTypeName(ts: Tokens): (r: Parsed<Ty>)
    ensures r.Some? ==> |r.value.1| <= |ts|
  {
    var (s, rest) := ParseSpecs(NO_SPECS, ts);
    if !s.sc.ScNone? || s.twice || SpecType(s).None? then None else Some((SpecType(s).value, rest))
  }

  function Expect(t: Token, ts: Tokens): (r: Option<Tokens>)
    ensures r.Some? ==> |r.value| < |ts|
  {
    if ts != [] && ts[0] == t then Some(ts[1..]) else None
  }

  /** An expression all of whose top-level operators bind at least as tightly as 'prec'. */
  function ParseE(prec: nat, ts: Tokens): (r: Parsed<Raw>)
    requires prec >= 1
    ensures r.Some? ==> |r.value.1| < |ts|
    decreases |ts|, 2
  {
    var p := ParsePrefix(ts);
    if p.None? then None else Climb(prec, p.value.0, p.value.1)
  }

  function Climb(prec: nat, left: Raw, ts: Tokens): (r: Parsed<Raw>)
    requires prec >= 1
    ensures r.Some? ==> |r.value.1| <= |ts|
    decreases |ts|, 3
  {
    if ts == [] || Prec(ts[0]) < prec then Some((left, ts))
    else
      var r := ParseInfix(left, ts);
      if r.None? then None else Climb(prec, r.value.0, r.value.1)
  }

  function ParsePrefix(ts: Tokens): (r: Parsed<Raw>)
    ensures r.Some? ==> |r.value.1| < |ts|
    decreases |ts|, 1
  {
    if ts == [] then None else
    match ts[0]
    case IntLiteral(v) => if v > LITERAL_MAX then None else Some((if v < 0x8000_0000 then RInt(v) else RLong(v), ts[1..]))
    case LongLiteral(v) => if v > LITERAL_MAX then None else Some((RLong(v), ts[1..]))
    case Identifier(n) => Some((RName(n), ts[1..]))
    case Op(op) => if op.Add? then ParseUnary(Plus, ts) else if op.Sub? then ParseUnary(Neg, ts) else None
    case Bang => ParseUnary(LogNot, ts)
    case Tilde => ParseUnary(BitNot, ts)
    case Step(inc) =>
      var r := ParseE(UNARY, ts[1..]);
      if r.None? then None else Some((RPre(inc, r.value.0), r.value.1))
    case LParen =>
      if |ts| > 1 && IsTypeWord(ts[1]) then
        var t := ParseTypeName(ts[1..]);
        if t.None? then None else
        var rest := Expect(RParen, t.value.1);
        if rest.None? then None else
        var r := ParseE(UNARY, rest.value);
        if r.None? then None else Some((RCast(t.value.0, r.value.0), r.value.1))
      else
        var r := ParseE(ASSIGNMENT, ts[1..]);
        if r.None? then None else
        var rest := Expect(RParen, r.value.1);
        if rest.None? then None else Some((r.value.0, rest.value))
    case _ => None
  }

  function ParseUnary(op: UnOp, ts: Tokens): (r: Parsed<Raw>)
    requires ts != []
    ensures r.Some? ==> |r.value.1| < |ts|
    decreases |ts|, 0
  {
    var r := ParseE(UNARY, ts[1..]);
    if r.None? then None else Some((RUnary(op, r.value.0), r.value.1))
  }

  /** The operator at the head of 'ts' applied to 'left'. */
  function ParseInfix(left: Raw, ts: Tokens): (r: Parsed<Raw>)
    requires ts != []
    ensures r.Some? ==> |r.value.1| < |ts|
    decreases |ts|, 0
  {
    match ts[0]
    case LParen =>
      if |ts| > 1 && ts[1] == RParen then Some((RCall(left, []), ts[2..])) else
      var r := ParseArgs(ts[1..]);
      if r.None? then None else Some((RCall(left, r.value.0), r.value.1))
    case Question =>
      var t := ParseE(ASSIGNMENT, ts[1..]);
      if t.None? then None else
      var rest := Expect(Colon, t.value.1);
      if rest.None? then None else
      var e := ParseE(TERNARY, rest.value);
      if e.None? then None else Some((RConditional(left, t.value.0, e.value.0), e.value.1))
    case Op(op) =>
      var r := ParseE(OpLevel(op) + 1, ts[1..]);
      if r.None? then None else Some((RBinary(op, left, r.value.0), r.value.1))
    case Step(inc) => Some((RPost(inc, left), ts[1..]))
    case Becomes(op) =>
      var r := ParseE(ASSIGNMENT, ts[1..]);
      if r.None? then None
      else Some((if op.None? then RAssign(left, r.value.0) else RCompound(op.value, left, r.value.0), r.value.1))
    case _ => None
  }

  /** Arguments up to and including the closing parenthesis. */
  function ParseArgs(ts: Tokens): (r: Parsed<seq<Raw>>)
    ensures r.Some? ==> |r.value.1| < |ts|
    decreases |ts|, 4
  {
    var a := ParseE(ASSIGNMENT, ts);
    if a.None? || a.value.1 == [] then None
    else if a.value.1[0] == Comma then
      var rest := ParseArgs(a.value.1[1..]);
      if rest.None? then None else Some(([a.value.0] + rest.value.0, rest.value.1))
    else if a.value.1[0] == RParen then Some(([a.value.0], a.value.1[1..]))
    else None
  }

  /** How tightly the outermost operator of an expression binds. */
  function LevelOf(e: Raw): (l: nat)
    ensures ASSIGNMENT <= l <= PRIMARY
  {
    match e
    case RUnary(_, _) => UNARY
    case RPre(_, _) => UNARY
    case RCast(_, _) => UNARY
    case RPost(_, _) => POSTFIX
    case RCall(_, _) => POSTFIX
    case RBinary(op, _, _) => OpLevel(op)
    case RConditional(_, _, _) => TERNARY
    case RAssign(_, _) => ASSIGNMENT
    case RCompound(_, _, _) => ASSIGNMENT
    case _ => PRIMARY
  }

  /** Trees the parser builds. */
  predicate Printable(e: Raw)
    decreases e, 1
  {
    match e
    case RInt(v) => 0 <= v < 0x8000_0000
    case RLong(v) => 0 <= v <= LITERAL_MAX
    case RName(_) => true
    case RCast(t, a) => !t.Function? && Printable(a)
    case RBinary(_, a, b) => Printable(a) && Printable(b)
    case RAssign(a, b) => Printable(a) && Printable(b)
    case RCompound(_, a, b) => Printable(a) && Printable(b)
    case RConditional(c, a, b) => Printable(c) && Printable(a) && Printable(b)
    case RCall(f, args) => Printable(f) && PrintableArgs(args)
    case _ => Printable(e.operand)
  }

  predicate PrintableArgs(args: seq<Raw>)
    decreases args, 0
  {
    args == [] || (Printable(args[0]) && PrintableArgs(args[1..]))
  }

  function TypeWord(t: Ty): Token {
    Word(if t.Void? then KwVoid else if t.Long? then KwLong else KwInt)
  }

  function UnaryToken(op: UnOp): Token {
    match op
    case Plus => Op(Add)
    case Neg => Op(Sub)
    case BitNot => Tilde
    case LogNot => Bang
  }

  /** The tokens of 'e' where operators of level 'level' and above are expected; parentheses only
      where the level demands them. */
  function Print(e: Raw, level: nat): Tokens
    requires Printable(e)
    decreases e, 2
  {
    if LevelOf(e) < level then [LParen] + (PrintBare(e) + [RParen]) else PrintBare(e)
  }

  function PrintBare(e: Raw): Tokens
    requires Printable(e)
    decreases e, 1
  {
    match e
    case RInt(v) => [IntLiteral(v)]
    case RLong(v) => [LongLiteral(v)]
    case RName(n) => [Identifier(n)]
    case RUnary(op, a) => [UnaryToken(op)] + Print(a, UNARY)
    case RPre(inc, a) => [Step(inc)] + Print(a, UNARY)
    case RPost(inc, a) => Print(a, POSTFIX) + [Step(inc)]
    case RBinary(op, a, b) => Print(a, OpLevel(op)) + ([Op(op)] + Print(b, OpLevel(op) + 1))
    case RAssign(a, b) => Print(a, TERNARY) + ([Becomes(None)] + Print(b, ASSIGNMENT))
    case RCompound(op, a, b) => Print(a, TERNARY) + ([Becomes(Some(op))] + Print(b, ASSIGNMENT))
    case RConditional(c, a, b) =>
      Print(c, OR) + ([Question] + (Print(a, ASSIGNMENT) + ([Colon] + Print(b, TERNARY))))
    case RCall(f, args) => Print(f, POSTFIX) + ([LParen] + PrintArgs(args))
    case RCast(t, a) => [LParen, TypeWord(t), RParen] + Print(a, UNARY)
  }

  function PrintArgs(args: seq<Raw>): Tokens
    requires PrintableArgs(args)
    decreases args, 0
  {
    if args == [] then [RParen]
    else if |args| == 1 then Print(args[0], ASSIGNMENT) + [RParen]
    else Print(args[0], ASSIGNMENT) + ([Comma] + PrintArgs(args[1..]))
  }

  /** What may follow an operand printed at 'level'. A left operand may be followed by an operator of
      its own level where operators associate to the left. */
  predicate Follows(level: nat, rest: Tokens) {
    rest == [] || Prec(rest[0]) < level || (Prec(rest[0]) == level && level >= OR)
  }

  predicate Starts(t: Token) {
    t.IntLiteral? || t.LongLiteral? || t.Identifier? || t.Op? || t.Bang? || t.Tilde? || t.Step? || t.LParen?
  }

  lemma {:induction false} PrintStarts(e: Raw, level: nat)
    requires Printable(e)
    ensures Print(e, level) != [] && Starts(Print(e, level)[0])
    decreases e
  {
    match e
    case RPost(_, a) => PrintStarts(a, POSTFIX);
    case RBinary(op, a, _) => PrintStarts(a, OpLevel(op));
    case RAssign(a, _) => PrintStarts(a, TERNARY);
    case RCompound(_, a, _) => PrintStarts(a, TERNARY);
    case RConditional(c, _, _) => PrintStarts(c, OR);
    case RCall(f, _) => PrintStarts(f, POSTFIX);
    case _ =>
  }

  lemma Stop(prec: nat, e: Raw, rest: Tokens)
    requires prec >= 1 && (rest == [] || Prec(rest[0]) < prec)
    ensures Climb(prec, e, rest) == Some((e, rest))
  {
  }

  /** A parenthesised expression. */
  lemma ReadsParen(prec: nat, body: Tokens, e: Raw, rest: Tokens)
    requires prec >= 1 && body != [] && Starts(body[0])
    requires ParseE(ASSIGNMENT, body + ([RParen] + rest)) == Some((e, [RParen] + rest))
    ensures ParseE(prec, [LParen] + (body + ([RParen] + rest))) == Climb(prec, e, rest)
  {
    hide Climb, ParseUnary;
    var ts := [LParen] + (body + ([RParen] + rest));
    assert ts[1] == body[0] && ts[1..] == body + ([RParen] + rest);
    assert ([RParen] + rest)[1..] == rest;
  }

  lemma StepReads(prec: nat, inc: bool, more: Tokens, a: Raw, rest: Tokens)
    requires prec >= 1 && ParseE(UNARY, more) == Some((a, rest))
    ensures ParseE(prec, [Step(inc)] + more) == Climb(prec, RPre(inc, a), rest)
  {
    hide Climb;
    assert ([Step(inc)] + more)[1..] == more;
  }

  lemma UnaryReads(prec: nat, op: UnOp, more: Tokens, a: Raw, rest: Tokens)
    requires prec >= 1 && ParseE(UNARY, more) == Some((a, rest))
    ensures ParseE(prec, [UnaryToken(op)] + more) == Climb(prec, RUnary(op, a), rest)
  {
    hide Climb;
    var ts := [UnaryToken(op)] + more;
    assert ts[1..] == more;
    assert ParseUnary(op, ts) == Some((RUnary(op, a), rest));
    assert ParsePrefix(ts) == ParseUnary(op, ts);
  }

  lemma PostReads(prec: nat, a: Raw, inc: bool, rest: Tokens)
    requires 1 <= prec <= POSTFIX
    ensures Climb(prec, a, [Step(inc)] + rest) == Climb(prec, RPost(inc, a), rest)
  {
    var ts := [Step(inc)] + rest;
    assert ts[1..] == rest;
    assert ParseInfix(a, ts) == Some((RPost(inc, a), rest));
  }

  lemma OpReads(left: Raw, op: BinOp, more: Tokens, right: Raw, rest: Tokens)
    requires ParseE(OpLevel(op) + 1, more) == Some((right, rest))
    ensures ParseInfix(left, [Op(op)] + more) == Some((RBinary(op, left, right), rest))
  {
    assert ([Op(op)] + more)[1..] == more;
  }

  /** One step of climbing. */
  lemma InfixReads(prec: nat, left: Raw, t: Token, more: Tokens, e: Raw, rest: Tokens)
    requires 1 <= prec <= Prec(t) && ParseInfix(left, [t] + more) == Some((e, rest))
    ensures Climb(prec, left, [t] + more) == Climb(prec, e, rest)
  {
    hide ParseInfix, Prec;
  }

  lemma LastArg(a: Raw, ts: Tokens, rest: Tokens)
    requires ParseE(ASSIGNMENT, ts) == Some((a, [RParen] + rest))
    ensures ParseArgs(ts) == Some(([a], rest))
  {
    assert ([RParen] + rest)[1..] == rest;
  }

  lemma MoreArgs(a: Raw, ts: Tokens, tail: Tokens, args: seq<Raw>, rest: Tokens)
    requires ParseE(ASSIGNMENT, ts) == Some((a, [Comma] + tail)) && ParseArgs(tail) == Some((args, rest))
    ensures ParseArgs(ts) == Some(([a] + args, rest))
  {
    hide ParseE;
    assert ([Comma] + tail)[1..] == tail;
  }

  lemma CallReads(prec: nat, f: Raw, args: seq<Raw>, more: Tokens, rest: Tokens)
    requires 1 <= prec <= POSTFIX
    requires if args == [] then more == [RParen] + rest else ParseArgs(more) == Some((args, rest)) && more != [] && Starts(more[0])
    ensures Climb(prec, f, [LParen] + more) == Climb(prec, RCall(f, args), rest)
  {
    hide Climb, ParseArgs;
    var ts := [LParen] + more;
    assert ts[1..] == more;
    if args == [] { assert ts[2..] == rest && ts[1] == RParen; } else { assert ts[1] == more[0]; }
    InfixReads(prec, f, LParen, more, RCall(f, args), rest);
  }
}
