/** The lexer over one text: next token and whole stream. */
module Lexer {
  import opened Arith
  import opened Ast
  import opened Pratt
  import opened Lexing

  class Lexer {
    const text: string
    var start: nat
    var current: nat
    var line: nat
    var lineStart: nat

    ghost predicate Valid()
      reads this
    {
      && '\0' !in text && start <= current <= |text|
      && line == 1 + Newlines(text, current) && lineStart == LineStart(text, current)
    }

    constructor (text: string)
      requires '\0' !in text
      ensures Valid() && this.text == text && current == 0
    {
      this.text := text;
      start, current, line, lineStart := 0, 0, 1, 0;
    }

    predicate IsAtEnd()
      reads this
    {
      Peek() == '\0'
    }

    function Peek(): char
      reads this
    {
      At(text, current)
    }

    function PeekNext(): char
      reads this
    {
      if IsAtEnd() then '\0' else At(text, current + 1)
    }

    /** Within a line. */
    method Advance() returns (c: char)
      requires Valid() && current < |text| && text[current] != '\n'
      modifies `current
      ensures Valid() && current == old(current) + 1 && c == text[old(current)]
    {
      c := text[current];
      current := current + 1;
    }

    method NextLine()
      requires Valid() && Peek() == '\n'
      modifies `current, `line, `lineStart
      ensures Valid() && current == old(current) + 1
    {
      current := current + 1;
      line := line + 1;
      lineStart := current;
    }

    method Match(expected: char) returns (r: bool)
      requires Valid() && expected != '\n' && expected != '\0'
      modifies `current
      ensures Valid() && r == (At(text, old(current)) == expected) && current == old(current) + if r then 1 else 0
    {
      if IsAtEnd() || Peek() != expected { return false; }
      current := current + 1;
      return true;
    }

    method SkipBlockComment() returns (ok: bool)
      requires Valid()
      modifies `current, `line, `lineStart
      ensures Valid() && current >= old(current)
      ensures if ok then CommentEnds(text, old(current), current) else current == |text| && NoClose(text, old(current), |text|)
    {
      while !IsAtEnd()
        invariant Valid() && current >= old(current) && NoClose(text, old(current), current)
        decreases |text| - current
      {
        if Peek() == '*' && PeekNext() == '/' {
          var _ := Advance();
          var _ := Advance();
          return true;
        } else if Peek() == '\n' {
          NextLine();
        } else {
          var _ := Advance();
        }
      }
      return false;
    }

    method SkipLineComment()
      requires Valid()
      modifies `current
      ensures Valid() && LineEnds(text, old(current), current)
    {
      while !IsAtEnd() && Peek() != '\n'
        invariant Valid() && old(current) <= current && forall k :: old(current) <= k < current ==> text[k] != '\n'
        decreases |text| - current
      {
        var _ := Advance();
      }
    }

    /** Skips the longest gap; 'false' if it ends in a comment that never closes. */
    method SkipWhitespace() returns (ok: bool)
      requires Valid()
      modifies `current, `line, `lineStart
      ensures Valid() && current >= old(current)
      ensures ok ==> Gap(text, old(current), current) && !GoesOn(text, current)
      ensures !ok ==> current == |text| > old(current) && exists g :: old(current) <= g <= |text| && Gap(text, old(current), g) && Stuck(text, g)
    {
      hide Gap, NoClose, LineEnds;
      assert Gap(text, current, current) by { NoGap(text, current); }
      while GoesOn(text, current)
        invariant Valid() && old(current) <= current && Gap(text, old(current), current)
        decreases |text| - current
      {
        ghost var at := current;
        if IsSpace(Peek()) {
          if Peek() == '\n' { NextLine(); } else { var _ := Advance(); }
        } else {
          var _ := Advance();
          var c := Advance();
          if c == '/' {
            SkipLineComment();
          } else {
            ok := SkipBlockComment();
            if !ok { return; }
          }
        }
        GapMore(text, old(current), at, current);
      }
      return true;
    }

    function Make(kind: Kind): Lexeme
      reads this
    {
      Lexeme(kind, start, current, line, lineStart)
    }

    /** The rest of an identifier or keyword. */
    method Identifier() returns (kind: Kind)
      requires Valid() && current == start + 1 && IsAlpha(text[start])
      modifies `current
      ensures Valid() && current > start && WordIs(text, start, current, kind)
    {
      hide Newlines, LineStart;
      while IsWord(Peek())
        invariant Valid() && start < current && forall k :: start <= k < current ==> IsWord(text[k])
        decreases |text| - current
      {
        var _ := Advance();
      }
      kind := IdentifierType();
    }

    method IdentifierType() returns (kind: Kind)
      requires Valid()
      ensures match kind
              case Plain(t) => t.Word? && KeywordSpelling(t.kw) == text[start..current]
              case Name => forall kw :: kw in KEYWORDS ==> KeywordSpelling(kw) != text[start..current]
              case _ => false
    {
      hide KeywordSpelling;
      for i := 0 to |KEYWORDS|
        invariant forall j :: 0 <= j < i ==> KeywordSpelling(KEYWORDS[j]) != text[start..current]
      {
        if KeywordSpelling(KEYWORDS[i]) == text[start..current] { return Plain(Word(KEYWORDS[i])); }
      }
      return Name;
    }

    /** The rest of a number. */
    method Number() returns (kind: Kind, ghost d: nat)
      requires Valid() && current == start + 1 && IsDigit(text[start])
      modifies `current
      ensures Valid() && current > start && NumberIs(text, start, d, current, kind)
    {
      hide Newlines, LineStart;
      while IsDigit(Peek())
        invariant Valid() && start < current && forall k :: start <= k < current ==> IsDigit(text[k])
        decreases |text| - current
      {
        var _ := Advance();
      }
      d := current;
      kind := IntDigits;
      if Peek() == 'l' || Peek() == 'L' {
        var _ := Advance();
        kind := LongDigits;
      }
      ghost var after := current;
      while IsWord(Peek()) || Peek() == '.'
        invariant Valid() && after <= current && (kind == if current > after then Error else if after > d then LongDigits else IntDigits)
        invariant forall k :: after <= k < current ==> IsWord(text[k]) || text[k] == '.'
        decreases |text| - current
      {
        var _ := Advance();
        kind := Error;
      }
    }

    /** The rest of an operator that starts with 'c', character by character. */
    method Operator(c: char) returns (t: Option<Token>)
      requires Valid() && current == start + 1 && c == text[start]
      modifies `current
      ensures Valid() && t == Choose(c, At(text, start + 1), At(text, start + 2))
      ensures t.Some? ==> IsPunctuator(t.value) && current == start + |Punctuator(t.value)|
      ensures t.None? ==> current == start + 1
    {
      hide Newlines, LineStart, Choose, Punctuator, IsPunctuator;
      ghost var d, e := At(text, start + 1), At(text, start + 2);
      if c in "(){}[];:?,~" {
        ChooseAlone(c, d, e);
        t := Choose(c, ' ', ' ');
      } else if c == '<' || c == '>' {
        t := Angle(c);
      } else if c in "+-&|" {
        ChooseTwice(c, d, e);
        var twice := Match(c);
        var becomes := false;
        if !twice { becomes := Match('='); }
        t := Some(if twice then Doubled(c) else if becomes then Becomes(Some(SingleOp(c))) else Op(SingleOp(c)));
      } else if c in "*/%^" {
        ChooseOnce(c, d, e);
        var becomes := Match('=');
        t := Some(if becomes then Becomes(Some(SingleOp(c))) else Op(SingleOp(c)));
      } else if c == '=' || c == '!' {
        ChooseEqual(c, d, e);
        var equal := Match('=');
        t := Some(if c == '=' then if equal then Op(Eq) else Becomes(None) else if equal then Op(Ne) else Bang);
      } else {
        ChooseNone(c, d, e);
        t := None;
      }
    }

    method Angle(c: char) returns (t: Option<Token>)
      requires Valid() && current == start + 1 && c == text[start] && (c == '<' || c == '>')
      modifies `current
      ensures Valid() && t == Choose(c, At(text, start + 1), At(text, start + 2))
      ensures t.Some? && IsPunctuator(t.value) && current == start + |Punctuator(t.value)|
    {
      hide Newlines, LineStart, Choose, Punctuator, IsPunctuator;
      ChooseAngle(c, At(text, start + 1), At(text, start + 2));
      var equal := Match('=');
      if equal { return Some(Op(if c == '<' then Le else Ge)); }
      var twice := Match(c);
      if !twice { return Some(Op(if c == '<' then Lt else Gt)); }
      var becomes := Match('=');
      var op := if c == '<' then Shl else Shr;
      return Some(if becomes then Becomes(Some(op)) else Op(op));
    }

    /** One token. */
    method NextToken() returns (l: Lexeme)
      requires Valid()
      modifies this
      ensures Valid() && NextIs(text, old(current), l) && current == l.end >= old(current)
      ensures l.end == old(current) ==> l.kind.End?
    {
      hide Gap, GoesOn, Stuck, TokenIs, Choose, Newlines, LineStart;
      ghost var from := current;
      var ok := SkipWhitespace();
      start := current;
      if !ok { return Make(Error); }
      ghost var at := current;
      NotStuck(text, at);
      if IsAtEnd() { return Make(End); }
      var c := Peek();
      l := Token(c);
      assert l.start == at && TokenIs(text, at, l.end, l.kind);
    }

    /** The token that starts here. */
    method Token(c: char) returns (l: Lexeme)
      requires Valid() && start == current < |text| && c == text[current] && !GoesOn(text, current)
      modifies `current
      ensures Valid() && current > start && TokenIs(text, start, current, l.kind)
      ensures l == Lexeme(l.kind, start, current, old(line), old(lineStart))
    {
      hide WordIs, NumberIs, Longest, Choose, Punctuator, IsPunctuator, Matches, Newlines, LineStart;
      var _ := Advance();
      var kind;
      if IsDigit(c) {
        ghost var d;
        kind, d := Number();
      } else if IsAlpha(c) {
        kind := Identifier();
      } else {
        ChooseIsLongest(text, start);
        var t := Operator(c);
        kind := if t.Some? then Plain(t.value) else Error;
      }
      l := Make(kind);
    }
  }

  function Doubled(c: char): Token {
    if c == '+' then Step(true) else if c == '-' then Step(false) else if c == '&' then Op(LogAnd) else Op(LogOr)
  }

  function SingleOp(c: char): BinOp {
    if c == '+' then Add else if c == '-' then Sub else if c == '&' then And else if c == '|' then Or
    else if c == '*' then Mul else if c == '/' then Div else if c == '%' then Rem else Xor
  }

  /** 'u' is chosen and 'n' characters long. */
  predicate Chosen(t: Option<Token>, u: Token, n: nat) {
    t == Some(u) && IsPunctuator(u) && |Punctuator(u)| == n
  }

  lemma ChooseAlone(c: char, d: char, e: char)
    requires c in "(){}[];:?,~"
    ensures Choose(c, d, e) == Choose(c, ' ', ' ') && Choose(c, d, e).Some? && Chosen(Choose(c, d, e), Choose(c, d, e).value, 1)
  {
  }

  lemma ChooseTwice(c: char, d: char, e: char)
    requires c in "+-&|"
    ensures Chosen(Choose(c, d, e), if d == c then Doubled(c) else if d == '=' then Becomes(Some(SingleOp(c))) else Op(SingleOp(c)),
                   if d == c || d == '=' then 2 else 1)
  {
  }

  lemma ChooseOnce(c: char, d: char, e: char)
    requires c in "*/%^"
    ensures Chosen(Choose(c, d, e), if d == '=' then Becomes(Some(SingleOp(c))) else Op(SingleOp(c)), if d == '=' then 2 else 1)
  {
  }

  lemma ChooseEqual(c: char, d: char, e: char)
    requires c == '=' || c == '!'
    ensures Chosen(Choose(c, d, e), if c == '=' then if d == '=' then Op(Eq) else Becomes(None) else if d == '=' then Op(Ne) else Bang,
                   if d == '=' then 2 else 1)
  {
  }

  lemma ChooseNone(c: char, d: char, e: char)
    requires c !in "(){}[];:?,~" && c !in "+-&|" && c !in "*/%^" && c !in "<>=!"
    ensures Choose(c, d, e).None?
  {
    assert forall k :: 0 <= k < 11 ==> "(){}[];:?,~"[k] in "(){}[];:?,~";
    assert forall k :: 0 <= k < 4 ==> "+-&|"[k] in "+-&|" && "*/%^"[k] in "*/%^" && "<>=!"[k] in "<>=!";
  }

  lemma ChooseAngle(c: char, d: char, e: char)
    requires c == '<' || c == '>'
    ensures var op := if c == '<' then Shl else Shr;
            Chosen(Choose(c, d, e),
                   if d == '=' then Op(if c == '<' then Le else Ge)
                   else if d == c then if e == '=' then Becomes(Some(op)) else Op(op)
                   else Op(if c == '<' then Lt else Gt),
                   if d == '=' then 2 else if d == c then if e == '=' then 3 else 2 else 1)
  {
  }

  lemma NoGap(text: string, i: nat)
    ensures Gap(text, i, i)
  {
  }

  lemma NotStuck(text: string, i: nat)
    requires !GoesOn(text, i)
    ensures !Stuck(text, i)
  {
  }

  /** The tokens so far; 'done' once the end is reached. */
  ghost predicate Pulled(text: string, ls: seq<Lexeme>, done: bool) {
    forall k :: 0 <= k < |ls| ==> NextIs(text, From(ls, k), ls[k]) && (ls[k].kind.End? <==> done && k == |ls| - 1)
  }

  lemma PulledMore(text: string, ls: seq<Lexeme>, l: Lexeme)
    requires Pulled(text, ls, false) && NextIs(text, From(ls, |ls|), l)
    ensures Pulled(text, ls + [l], l.kind.End?) && From(ls + [l], |ls| + 1) == l.end
  {
    hide NextIs;
    var more := ls + [l];
    assert forall k :: 0 <= k < |ls| ==> more[k] == ls[k] && From(more, k) == From(ls, k);
  }

  /** The whole stream, as the parser pulls it. */
  method LexAll(text: string) returns (ls: seq<Lexeme>)
    requires '\0' !in text
    ensures Tiles(text, ls)
  {
    hide NextIs, Newlines, LineStart, Pulled;
    var lexer := new Lexer(text);
    ls := [];
    var done := false;
    assert Pulled(text, ls, done) by { NothingPulled(text); }
    while !done
      invariant fresh(lexer) && lexer.Valid() && lexer.text == text && lexer.current == From(ls, |ls|) && (done ==> ls != [])
      invariant Pulled(text, ls, done)
      decreases !done, |text| - lexer.current
    {
      var l := lexer.NextToken();
      PulledMore(text, ls, l);
      ls := ls + [l];
      done := l.kind.End?;
    }
    PulledAll(text, ls);
  }

  lemma NothingPulled(text: string)
    ensures Pulled(text, [], false)
  {
  }

  lemma PulledAll(text: string, ls: seq<Lexeme>)
    requires Pulled(text, ls, true) && ls != []
    ensures Tiles(text, ls)
  {
    hide NextIs;
  }
}
