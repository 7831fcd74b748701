/** Lexical analysis: the tokens tile the input, operators are the longest that match, and spelling
    out tokens is undone by lexing (section 6.4 of ISO/IEC 9899:2011). */
module Lexing {
  import opened Arith
  import opened Ast
  import opened Pratt

  /** 'Plain' is an operator, a bracket or a keyword. */
  datatype Kind = Plain(t: Token) | Name | IntDigits | LongDigits | Error | End

  /** A token is a span of the text, with the line it is on. */
  datatype Lexeme = Lexeme(kind: Kind, start: nat, end: nat, line: nat, lineStart: nat)

  /** The text ends with a NUL. */
  function At(text: string, i: nat): char {
    if i < |text| then text[i] else '\0'
  }

  predicate IsSpace(c: char) {
    c == ' ' || c == '\r' || c == '\t' || c == '\U{0B}' || c == '\U{0C}' || c == '\n'
  }

  predicate IsAlpha(c: char) {
    'a' <= c <= 'z' || 'A' <= c <= 'Z' || c == '_'
  }

  predicate IsDigit(c: char) {
    '0' <= c <= '9'
  }

  predicate IsWord(c: char) {
    IsAlpha(c) || IsDigit(c)
  }

  /** The characters of names and numbers (section 6.4.2.1), and white space (section 6.4). */
  lemma CharacterSets(c: char)
    ensures IsAlpha(c) <==> c in "abcdefghijklmnopqrstuvwxyz" || c in "ABCDEFGHIJKLMNOPQRSTUVWXYZ" || c == '_'
    ensures IsDigit(c) <==> c in "0123456789"
    ensures IsSpace(c) <==> c in " \t\n\r\U{0B}\U{0C}"
  {
    SmallLetters(c);
    CapitalLetters(c);
    var digits, blanks := "0123456789", " \t\n\r\U{0B}\U{0C}";
    if IsDigit(c) { assert digits[c as int - '0' as int] == c; }
    if IsSpace(c) { assert blanks[0] == ' ' && blanks[1] == '\t' && blanks[2] == '\n' && blanks[3] == '\r' && blanks[4] == '\U{0B}' && blanks[5] == '\U{0C}'; }
  }

  lemma SmallLetters(c: char)
    ensures 'a' <= c <= 'z' <==> c in "abcdefghijklmnopqrstuvwxyz"
  {
    if 'a' <= c <= 'z' { assert "abcdefghijklmnopqrstuvwxyz"[c as int - 'a' as int] == c; }
  }

  lemma CapitalLetters(c: char)
    ensures 'A' <= c <= 'Z' <==> c in "ABCDEFGHIJKLMNOPQRSTUVWXYZ"
  {
    if 'A' <= c <= 'Z' { assert "ABCDEFGHIJKLMNOPQRSTUVWXYZ"[c as int - 'A' as int] == c; }
  }

  function Newlines(text: string, i: nat): nat
    requires i <= |text|
  {
    if i == 0 then 0 else Newlines(text, i - 1) + if text[i - 1] == '\n' then 1 else 0
  }

  /** Where the line of position 'i' starts. */
  function LineStart(text: string, i: nat): (p: nat)
    requires i <= |text|
    ensures p <= i && (p == 0 || text[p - 1] == '\n') && '\n' !in text[p..i]
  {
    if i == 0 then 0 else if text[i - 1] == '\n' then i
    else
      var p := LineStart(text, i - 1);
      assert text[p..i] == text[p..i - 1] + [text[i - 1]];
      p
  }

  function KeywordSpelling(k: Keyword): (s: string)
    ensures s != [] && forall j :: 0 <= j < |s| ==> IsAlpha(s[j])
  {
    match k
    case KwAuto => "auto"
    case KwBreak => "break"
    case KwCase => "case"
    case KwContinue => "continue"
    case KwDefault => "default"
    case KwDo => "do"
    case KwElse => "else"
    case KwExtern => "extern"
    case KwFor => "for"
    case KwGoto => "goto"
    case KwIf => "if"
    case KwInt => "int"
    case KwLong => "long"
    case KwRegister => "register"
    case KwReturn => "return"
    case KwStatic => "static"
    case KwSwitch => "switch"
    case KwVoid => "void"
    case KwWhile => "while"
  }

  const KEYWORDS: seq<Keyword> :=
    [KwAuto, KwBreak, KwCase, KwContinue, KwDefault, KwDo, KwElse, KwExtern, KwFor, KwGoto,
     KwIf, KwInt, KwLong, KwRegister, KwReturn, KwStatic, KwSwitch, KwVoid, KwWhile]

  lemma AllKeywords(k: Keyword)
    ensures k in KEYWORDS
  {
    var i := match k
      case KwAuto => 0 case KwBreak => 1 case KwCase => 2 case KwContinue => 3 case KwDefault => 4
      case KwDo => 5 case KwElse => 6 case KwExtern => 7 case KwFor => 8 case KwGoto => 9
      case KwIf => 10 case KwInt => 11 case KwLong => 12 case KwRegister => 13 case KwReturn => 14
      case KwStatic => 15 case KwSwitch => 16 case KwVoid => 17 case KwWhile => 18;
    assert KEYWORDS[i] == k;
  }

  lemma KeywordsDiffer(a: Keyword, b: Keyword)
    requires KeywordSpelling(a) == KeywordSpelling(b)
    ensures a == b
  {
    var s := KeywordSpelling(a);
    assert |s| > 1 && |KeywordSpelling(b)| > 1;
    assert s[0] == KeywordSpelling(b)[0] && s[1] == KeywordSpelling(b)[1] && s[|s| - 1] == KeywordSpelling(b)[|s| - 1];
  }

  function OpSpelling(op: BinOp): (s: string)
    ensures 1 <= |s| <= 2
  {
    match op
    case Add => "+"
    case Sub => "-"
    case Mul => "*"
    case Div => "/"
    case Rem => "%"
    case And => "&"
    case Or => "|"
    case Xor => "^"
    case Shl => "<<"
    case Shr => ">>"
    case Eq => "=="
    case Ne => "!="
    case Lt => "<"
    case Le => "<="
    case Gt => ">"
    case Ge => ">="
    case LogAnd => "&&"
    case LogOr => "||"
  }

  predicate IsPunctuator(t: Token) {
    match t
    case Becomes(op) => op.Some? ==> !IsCompare(op.value) && !IsLogical(op.value)
    case Identifier(_) => false
    case IntLiteral(_) => false
    case LongLiteral(_) => false
    case Word(_) => false
    case Bad => false
    case _ => true
  }

  function Punctuator(t: Token): (s: string)
    requires IsPunctuator(t)
    ensures 1 <= |s| <= 3
  {
    match t
    case LParen => "("
    case RParen => ")"
    case LBrace => "{"
    case RBrace => "}"
    case LBracket => "["
    case RBracket => "]"
    case Semicolon => ";"
    case Colon => ":"
    case Comma => ","
    case Question => "?"
    case Op(op) => OpSpelling(op)
    case Bang => "!"
    case Tilde => "~"
    case Step(inc) => if inc then "++" else "--"
    case Becomes(op) => if op.Some? then OpSpelling(op.value) + "=" else "="
  }

  /** The operator that starts with 'c' when 'd' and 'e' come next. */
  function Choose(c: char, d: char, e: char): Option<Token> {
    if c == '(' then Some(LParen)
    else if c == ')' then Some(RParen)
    else if c == '{' then Some(LBrace)
    else if c == '}' then Some(RBrace)
    else if c == '[' then Some(LBracket)
    else if c == ']' then Some(RBracket)
    else if c == ';' then Some(Semicolon)
    else if c == ':' then Some(Colon)
    else if c == '?' then Some(Question)
    else if c == ',' then Some(Comma)
    else if c == '~' then Some(Tilde)
    else if c == '+' then Some(if d == '+' then Step(true) else if d == '=' then Becomes(Some(Add)) else Op(Add))
    else if c == '-' then Some(if d == '-' then Step(false) else if d == '=' then Becomes(Some(Sub)) else Op(Sub))
    else if c == '*' then Some(if d == '=' then Becomes(Some(Mul)) else Op(Mul))
    else if c == '/' then Some(if d == '=' then Becomes(Some(Div)) else Op(Div))
    else if c == '%' then Some(if d == '=' then Becomes(Some(Rem)) else Op(Rem))
    else if c == '=' then Some(if d == '=' then Op(Eq) else Becomes(None))
    else if c == '!' then Some(if d == '=' then Op(Ne) else Bang)
    else if c == '&' then Some(if d == '&' then Op(LogAnd) else if d == '=' then Becomes(Some(And)) else Op(And))
    else if c == '|' then Some(if d == '|' then Op(LogOr) else if d == '=' then Becomes(Some(Or)) else Op(Or))
    else if c == '^' then Some(if d == '=' then Becomes(Some(Xor)) else Op(Xor))
    else if c == '<' then
      Some(if d == '=' then Op(Le) else if d == '<' then (if e == '=' then Becomes(Some(Shl)) else Op(Shl)) else Op(Lt))
    else if c == '>' then
      Some(if d == '=' then Op(Ge) else if d == '>' then (if e == '=' then Becomes(Some(Shr)) else Op(Shr)) else Op(Gt))
    else None
  }

  /** 's' stands at position 'i'. */
  predicate Matches(text: string, i: nat, s: string) {
    i + |s| <= |text| && text[i..i + |s|] == s
  }

  /** 't' is the longest operator at 'i'. */
  ghost predicate Longest(text: string, i: nat, t: Token) {
    && IsPunctuator(t) && Matches(text, i, Punctuator(t))
    && forall u :: IsPunctuator(u) && Matches(text, i, Punctuator(u)) ==> |Punctuator(u)| <= |Punctuator(t)|
  }

  /** Every operator at 'i' is at most as long as the one chosen. */
  lemma ChooseAtLeast(text: string, i: nat, u: Token)
    requires '\0' !in text && i < |text| && IsPunctuator(u) && Matches(text, i, Punctuator(u))
    ensures Choose(text[i], At(text, i + 1), At(text, i + 2)).Some?
    ensures var t := Choose(text[i], At(text, i + 1), At(text, i + 2)).value; IsPunctuator(t) && |Punctuator(u)| <= |Punctuator(t)|
  {
    var s := Punctuator(u);
    assert text[i] == s[0];
    if |s| > 1 { assert text[i + 1] == s[1]; }
    if |s| > 2 { assert text[i + 2] == s[2]; }
  }

  lemma ChooseMatches(text: string, i: nat)
    requires '\0' !in text && i < |text| && Choose(text[i], At(text, i + 1), At(text, i + 2)).Some?
    ensures var t := Choose(text[i], At(text, i + 1), At(text, i + 2)).value; IsPunctuator(t) && Matches(text, i, Punctuator(t))
  {
    var t := Choose(text[i], At(text, i + 1), At(text, i + 2)).value;
    var s := Punctuator(t);
    assert s[0] == text[i];
    assert |s| > 1 ==> s[1] == At(text, i + 1) && s[1] != '\0';
    assert |s| > 2 ==> s[2] == At(text, i + 2) && s[2] != '\0';
  }

  /** The choice by single characters is the longest match. */
  lemma ChooseIsLongest(text: string, i: nat)
    requires '\0' !in text && i < |text|
    ensures var t := Choose(text[i], At(text, i + 1), At(text, i + 2));
            if t.Some? then Longest(text, i, t.value) else forall u :: IsPunctuator(u) ==> !Matches(text, i, Punctuator(u))
  {
    hide Choose, Punctuator, Matches, IsPunctuator;
    var t := Choose(text[i], At(text, i + 1), At(text, i + 2));
    if t.Some? { ChooseMatches(text, i); }
    forall u | IsPunctuator(u) && Matches(text, i, Punctuator(u)) ensures t.Some? && IsPunctuator(t.value) && |Punctuator(u)| <= |Punctuator(t.value)| {
      ChooseAtLeast(text, i, u);
    }
  }

  /** Operators spelled alike are the same. */
  lemma PunctuatorsDiffer(t: Token, u: Token)
    requires IsPunctuator(t) && IsPunctuator(u) && Punctuator(t) == Punctuator(u)
    ensures t == u
  {
    ChooseSpelled(t);
    ChooseSpelled(u);
  }

  lemma ChooseSpelled(t: Token)
    requires IsPunctuator(t)
    ensures var s := Punctuator(t); Choose(s[0], At(s, 1), At(s, 2)) == Some(t)
  {
  }

  /** From 'i', just after the opening of a block comment, no closing starts before 'j'. */
  predicate NoClose(text: string, i: nat, j: nat) {
    forall k: nat :: i <= k < j ==> !(At(text, k) == '*' && At(text, k + 1) == '/')
  }

  predicate CommentEnds(text: string, i: nat, j: nat) {
    i + 2 <= j <= |text| && text[j - 2] == '*' && text[j - 1] == '/' && NoClose(text, i, j - 2)
  }

  predicate LineEnds(text: string, i: nat, j: nat) {
    && i <= j <= |text| && (j < |text| ==> text[j] == '\n')
    && forall k :: i <= k < j ==> text[k] != '\n'
  }

  predicate OpensLine(text: string, i: nat) {
    At(text, i) == '/' && At(text, i + 1) == '/'
  }

  predicate OpensComment(text: string, i: nat) {
    At(text, i) == '/' && At(text, i + 1) == '*'
  }

  /** A white-space character or one whole comment. */
  predicate Piece(text: string, i: nat, j: nat) {
    && i < j <= |text|
    && (if IsSpace(At(text, i)) then j == i + 1
        else if OpensLine(text, i) then LineEnds(text, i + 2, j)
        else OpensComment(text, i) && CommentEnds(text, i + 2, j))
  }

  /** White space and comments only. */
  ghost predicate Gap(text: string, i: nat, j: nat)
    decreases j - i
  {
    i == j || exists k :: i < k <= j && Piece(text, i, k) && Gap(text, k, j)
  }

  /** The gap goes on. */
  predicate GoesOn(text: string, i: nat) {
    IsSpace(At(text, i)) || OpensLine(text, i) || OpensComment(text, i)
  }

  lemma {:induction false} GapMore(text: string, i: nat, j: nat, k: nat)
    requires i <= j && Gap(text, i, j) && Piece(text, j, k)
    ensures Gap(text, i, k)
    decreases j - i
  {
    if i == j {
      assert Gap(text, k, k);
    } else {
      var m :| i < m <= j && Piece(text, i, m) && Gap(text, m, j);
      GapMore(text, m, j, k);
    }
  }

  /** White space separates tokens: a run of white-space characters is a gap, and they are all the gaps of one character. */
  lemma {:induction false} BlanksAreGap(text: string, i: nat, j: nat)
    requires i <= j <= |text| && forall k :: i <= k < j ==> text[k] in " \t\n\r\U{0B}\U{0C}"
    ensures Gap(text, i, j)
    decreases j - i
  {
    if i < j {
      CharacterSets(text[i]);
      BlanksAreGap(text, i + 1, j);
      assert Piece(text, i, i + 1);
    }
  }

  lemma OneBlank(text: string, i: nat)
    requires '\0' !in text && Gap(text, i, i + 1)
    ensures i < |text| && text[i] in " \t\n\r\U{0B}\U{0C}"
  {
    var k :| i < k <= i + 1 && Piece(text, i, k) && Gap(text, k, i + 1);
    CharacterSets(text[i]);
  }

  lemma PieceUnique(text: string, i: nat, j: nat, k: nat)
    requires Piece(text, i, j) && Piece(text, i, k)
    ensures j == k
  {
    if OpensComment(text, i) {
      assert At(text, j - 2) == '*' && At(text, j - 1) == '/' && At(text, k - 2) == '*' && At(text, k - 1) == '/';
    }
  }

  lemma PieceGoesOn(text: string, i: nat, j: nat)
    requires Piece(text, i, j)
    ensures GoesOn(text, i)
  {
  }

  /** Where the gap ends: at a character no gap starts with, or at a comment that never ends. */
  predicate Stuck(text: string, i: nat) {
    OpensComment(text, i) && NoClose(text, i + 2, |text|)
  }

  lemma CloseFound(text: string, i: nat, j: nat)
    requires CommentEnds(text, i, j)
    ensures !NoClose(text, i, |text|)
  {
    var k: nat := j - 2;
    assert At(text, k) == '*' && At(text, k + 1) == '/';
  }

  lemma StuckIs(text: string, i: nat, j: nat)
    requires Stuck(text, i)
    ensures !Piece(text, i, j)
  {
    hide NoClose, CommentEnds;
    if CommentEnds(text, i + 2, j) { CloseFound(text, i + 2, j); }
  }

  predicate Stops(text: string, i: nat) {
    !GoesOn(text, i) || Stuck(text, i)
  }

  lemma {:induction false} GapUnique(text: string, i: nat, j: nat, k: nat)
    requires i <= j && i <= k && Gap(text, i, j) && Gap(text, i, k) && Stops(text, j) && Stops(text, k)
    ensures j == k
    decreases j - i
  {
    hide Piece, GoesOn, Stuck;
    if i < j && i < k {
      var m :| i < m <= j && Piece(text, i, m) && Gap(text, m, j);
      var n :| i < n <= k && Piece(text, i, n) && Gap(text, n, k);
      PieceUnique(text, i, m, n);
      GapUnique(text, m, j, k);
    } else if i < j {
      var m :| i < m <= j && Piece(text, i, m) && Gap(text, m, j);
      NoPiece(text, i, m);
    } else if i < k {
      var n :| i < n <= k && Piece(text, i, n) && Gap(text, n, k);
      NoPiece(text, i, n);
    }
  }

  lemma NoPiece(text: string, i: nat, j: nat)
    requires Stops(text, i)
    ensures !Piece(text, i, j)
  {
    hide Piece, GoesOn, Stuck;
    if Piece(text, i, j) {
      PieceGoesOn(text, i, j);
      StuckIs(text, i, j);
    }
  }

  /** 'i' to 'j' is a longest run of word characters. */
  predicate WordSpan(text: string, i: nat, j: nat) {
    i <= j <= |text| && (forall k :: i <= k < j ==> IsWord(text[k])) && !IsWord(At(text, j))
  }

  predicate DigitSpan(text: string, i: nat, j: nat) {
    i <= j <= |text| && (forall k :: i <= k < j ==> IsDigit(text[k])) && !IsDigit(At(text, j))
  }

  /** A longest run of what cannot follow a number. */
  predicate JunkSpan(text: string, i: nat, j: nat) {
    i <= j <= |text| && (forall k :: i <= k < j ==> IsWord(text[k]) || text[k] == '.') && !(IsWord(At(text, j)) || At(text, j) == '.')
  }

  predicate HasSuffix(text: string, i: nat) {
    At(text, i) == 'l' || At(text, i) == 'L'
  }

  predicate WordIs(text: string, i: nat, j: nat, kind: Kind) {
    WordSpan(text, i, j)
    && match kind
       case Plain(t) => t.Word? && KeywordSpelling(t.kw) == text[i..j]
       case Name => forall kw :: kw in KEYWORDS ==> KeywordSpelling(kw) != text[i..j]
       case _ => false
  }

  /** Digits up to 'd', an optional suffix, and nothing that would run on. */
  predicate NumberIs(text: string, i: nat, d: nat, j: nat, kind: Kind) {
    && DigitSpan(text, i, d)
    && (var after := if HasSuffix(text, d) then d + 1 else d;
        JunkSpan(text, after, j)
        && kind == if j > after then Error else if after > d then LongDigits else IntDigits)
  }

  ghost predicate OperatorIs(text: string, i: nat, j: nat, kind: Kind) {
    if kind.Plain? then Longest(text, i, kind.t) && j == i + |Punctuator(kind.t)|
    else kind.Error? && j == i + 1 && forall u :: IsPunctuator(u) ==> !Matches(text, i, Punctuator(u))
  }

  /** The token that starts at 'i'. */
  ghost predicate TokenIs(text: string, i: nat, j: nat, kind: Kind) {
    && i < j <= |text|
    && (if IsDigit(text[i]) then exists d :: NumberIs(text, i, d, j, kind)
        else if IsAlpha(text[i]) then WordIs(text, i, j, kind)
        else OperatorIs(text, i, j, kind))
  }

  predicate Digits(text: string, i: nat, j: nat) {
    i < j <= |text| && forall k :: i <= k < j ==> text[k] in "0123456789"
  }

  /** A constant that is read as one is digits, or digits and a long suffix (section 6.4.4.1). */
  lemma ConstantForm(text: string, i: nat, j: nat, kind: Kind)
    requires i < |text| && IsDigit(text[i]) && TokenIs(text, i, j, kind)
    ensures kind.IntDigits? ==> Digits(text, i, j)
    ensures kind.LongDigits? ==> Digits(text, i, j - 1) && text[j - 1] in "lL"
    ensures kind.IntDigits? || kind.LongDigits? || kind.Error?
  {
    var d: nat :| NumberIs(text, i, d, j, kind);
    forall k | i <= k < d ensures text[k] in "0123456789" { CharacterSets(text[k]); }
    if d == i { CharacterSets(text[i]); }
    assert "lL"[0] == 'l' && "lL"[1] == 'L';
  }

  /** And every constant is read as one, if nothing runs on after it. */
  lemma ConstantRead(text: string, i: nat, d: nat)
    requires '\0' !in text && Digits(text, i, d)
    ensures !IsWord(At(text, d)) && At(text, d) != '.' ==> TokenIs(text, i, d, IntDigits)
    ensures d < |text| && text[d] in "lL" && !IsWord(At(text, d + 1)) && At(text, d + 1) != '.' ==> TokenIs(text, i, d + 1, LongDigits)
  {
    forall k | i <= k < d ensures IsDigit(text[k]) { CharacterSets(text[k]); }
    if !IsWord(At(text, d)) && At(text, d) != '.' { assert NumberIs(text, i, d, d, IntDigits); }
    if d < |text| && text[d] in "lL" && !IsWord(At(text, d + 1)) && At(text, d + 1) != '.' {
      assert NumberIs(text, i, d, d + 1, LongDigits);
    }
  }

  predicate Located(text: string, l: Lexeme) {
    l.start <= |text| && l.line == 1 + Newlines(text, l.start) && l.lineStart == LineStart(text, l.start)
  }

  /** The next token from 'i' on: after the longest gap, the token that starts there; the end of the
      text; or an empty error token at the end if a comment never closes. */
  ghost predicate NextIs(text: string, i: nat, l: Lexeme) {
    && Located(text, l)
    && exists g :: i <= g <= |text| && Gap(text, i, g) && Stops(text, g)
                   && (if Stuck(text, g) then l.kind.Error? && l.start == |text| == l.end
                       else l.start == g && if g == |text| then l.kind.End? && l.end == g else TokenIs(text, g, l.end, l.kind))
  }

  lemma SpanUnique(text: string, i: nat, j: nat, k: nat)
    ensures WordSpan(text, i, j) && WordSpan(text, i, k) ==> j == k
    ensures DigitSpan(text, i, j) && DigitSpan(text, i, k) ==> j == k
    ensures JunkSpan(text, i, j) && JunkSpan(text, i, k) ==> j == k
  {
    assert j < |text| ==> At(text, j) == text[j];
    assert k < |text| ==> At(text, k) == text[k];
  }

  lemma WordUnique(text: string, i: nat, j: nat, a: Kind, k: nat, b: Kind)
    requires WordIs(text, i, j, a) && WordIs(text, i, k, b)
    ensures j == k && a == b
  {
    hide KeywordSpelling, WordSpan, KEYWORDS;
    SpanUnique(text, i, j, k);
    if a.Plain? { AllKeywords(a.t.kw); }
    if b.Plain? { AllKeywords(b.t.kw); }
    if a.Plain? && b.Plain? { KeywordsDiffer(a.t.kw, b.t.kw); }
  }

  /** The keywords of C that the language has (section 6.4.1). */
  const C_KEYWORDS: map<string, Keyword> :=
    map["auto" := KwAuto, "break" := KwBreak, "case" := KwCase, "continue" := KwContinue, "default" := KwDefault, "do" := KwDo,
        "else" := KwElse, "extern" := KwExtern, "for" := KwFor, "goto" := KwGoto, "if" := KwIf, "int" := KwInt, "long" := KwLong,
        "register" := KwRegister, "return" := KwReturn, "static" := KwStatic, "switch" := KwSwitch, "void" := KwVoid,
        "while" := KwWhile]

  /** A word is a keyword exactly if it is spelled like one, else a name. */
  lemma WordIsKeyword(text: string, i: nat, j: nat, kind: Kind)
    ensures WordIs(text, i, j, kind) <==>
              && WordSpan(text, i, j)
              && kind == if text[i..j] in C_KEYWORDS then Plain(Word(C_KEYWORDS[text[i..j]])) else Name
  {
    hide KEYWORDS, IsWord;
    if WordSpan(text, i, j) {
      var s := text[i..j];
      forall kw ensures KeywordSpelling(kw) in C_KEYWORDS && C_KEYWORDS[KeywordSpelling(kw)] == kw { SpelledSo(kw); }
      forall kw ensures kw in KEYWORDS { AllKeywords(kw); }
      if s in C_KEYWORDS { assert KeywordSpelling(C_KEYWORDS[s]) == s; }
    }
  }

  lemma SpelledSo(kw: Keyword)
    ensures KeywordSpelling(kw) in C_KEYWORDS && C_KEYWORDS[KeywordSpelling(kw)] == kw
  {
  }

  lemma OperatorUnique(text: string, i: nat, j: nat, a: Kind, k: nat, b: Kind)
    requires OperatorIs(text, i, j, a) && OperatorIs(text, i, k, b)
    ensures j == k && a == b
  {
    hide Punctuator, IsPunctuator;
    if a.Plain? && b.Plain? { PunctuatorsDiffer(a.t, b.t); }
  }

  lemma NumberUnique(text: string, i: nat, d: nat, j: nat, a: Kind, e: nat, k: nat, b: Kind)
    requires NumberIs(text, i, d, j, a) && NumberIs(text, i, e, k, b)
    ensures d == e && j == k && a == b
  {
    hide DigitSpan, JunkSpan;
    SpanUnique(text, i, d, e);
    SpanUnique(text, if HasSuffix(text, d) then d + 1 else d, j, k);
  }

  lemma TokenUnique(text: string, i: nat, j: nat, a: Kind, k: nat, b: Kind)
    requires TokenIs(text, i, j, a) && TokenIs(text, i, k, b)
    ensures j == k && a == b
  {
    hide NumberIs, WordIs, OperatorIs;
    if IsDigit(text[i]) {
      var d :| NumberIs(text, i, d, j, a);
      var e :| NumberIs(text, i, e, k, b);
      NumberUnique(text, i, d, j, a, e, k, b);
    } else if IsAlpha(text[i]) {
      WordUnique(text, i, j, a, k, b);
    } else {
      OperatorUnique(text, i, j, a, k, b);
    }
  }

  /** There is only one next token. */
  lemma NextUnique(text: string, i: nat, a: Lexeme, b: Lexeme)
    requires NextIs(text, i, a) && NextIs(text, i, b)
    ensures a == b
  {
    hide Gap, Stops, Stuck, TokenIs, Newlines, LineStart;
    var g :| i <= g <= |text| && Gap(text, i, g) && Stops(text, g)
             && (if Stuck(text, g) then a.kind.Error? && a.start == |text| == a.end
                 else a.start == g && if g == |text| then a.kind.End? && a.end == g else TokenIs(text, g, a.end, a.kind));
    var h :| i <= h <= |text| && Gap(text, i, h) && Stops(text, h)
             && (if Stuck(text, h) then b.kind.Error? && b.start == |text| == b.end
                 else b.start == h && if h == |text| then b.kind.End? && b.end == h else TokenIs(text, h, b.end, b.kind));
    GapUnique(text, i, g, h);
    if !Stuck(text, g) && g < |text| { TokenUnique(text, g, a.end, a.kind, b.end, b.kind); }
  }

  /** Where the search for token 'k' starts. */
  function From(ls: seq<Lexeme>, k: nat): nat
    requires k <= |ls|
  {
    if k == 0 then 0 else ls[k - 1].end
  }

  /** 'ls' is the whole token stream: each token is the next one after its predecessor, up to the end. */
  ghost predicate Tiles(text: string, ls: seq<Lexeme>) {
    ls != [] && forall k :: 0 <= k < |ls| ==> NextIs(text, From(ls, k), ls[k]) && (ls[k].kind.End? <==> k == |ls| - 1)
  }

  lemma {:induction false} SameTokens(text: string, a: seq<Lexeme>, b: seq<Lexeme>, k: nat)
    requires Tiles(text, a) && Tiles(text, b) && k < |a| && k < |b|
    ensures a[k] == b[k]
  {
    hide NextIs;
    if k > 0 { SameTokens(text, a, b, k - 1); }
    NextUnique(text, From(a, k), a[k], b[k]);
  }

  /** Every text has one token stream at most. */
  lemma TilesUnique(text: string, a: seq<Lexeme>, b: seq<Lexeme>)
    requires Tiles(text, a) && Tiles(text, b)
    ensures a == b
  {
    hide NextIs;
    var n := if |a| < |b| then |a| else |b|;
    forall k | 0 <= k < n ensures a[k] == b[k] { SameTokens(text, a, b, k); }
    assert a[n - 1] == b[n - 1];
  }

  /** Tokens are disjoint spans in order; nothing but white space and comments lies between them, unless
      the later one reports a comment that never closes. */
  lemma {:induction false} TilesInOrder(text: string, ls: seq<Lexeme>, j: nat, k: nat)
    requires Tiles(text, ls) && j < k < |ls|
    ensures ls[j].start <= ls[j].end <= ls[k].start <= ls[k].end <= |text|
    ensures k == j + 1 && (ls[k].kind.Error? ==> ls[k].end > ls[k].start) ==> Gap(text, ls[j].end, ls[k].start)
    decreases k - j
  {
    hide NextIs;
    NextSpan(text, From(ls, j), ls[j]);
    NextSpan(text, From(ls, k), ls[k]);
    if j + 1 < k { TilesInOrder(text, ls, j, k - 1); }
  }

  lemma NextSpan(text: string, i: nat, l: Lexeme)
    requires NextIs(text, i, l)
    ensures i <= l.start <= l.end <= |text| && (l.kind.Error? ==> l.end > l.start || l.start == |text|)
    ensures (l.kind.Error? ==> l.end > l.start) ==> Gap(text, i, l.start)
  {
    hide Gap, Stops, Stuck, Newlines, LineStart, NumberIs, WordIs, OperatorIs;
  }
}
