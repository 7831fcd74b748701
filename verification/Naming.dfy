/** Printed names: labels and symbols never collide in the assembly file. */
module Naming {
  import opened Ir
  import opened Declarations
  import opened Syntax

  const DIGITS := "0123456789"

  function Decimal(n: nat): (s: string)
    ensures s != [] && forall k :: 0 <= k < |s| ==> s[k] in DIGITS
  {
    if n < 10 then [DIGITS[n]] else Decimal(n / 10) + [DIGITS[n % 10]]
  }

  lemma DigitsDiffer(a: nat, b: nat)
    requires a < 10 && b < 10 && DIGITS[a] == DIGITS[b]
    ensures a == b
  {
  }

  lemma {:induction false} DecimalInjective(a: nat, b: nat)
    requires Decimal(a) == Decimal(b)
    ensures a == b
    decreases a
  {
    var s, t := Decimal(a), Decimal(b);
    assert s[|s| - 1] == DIGITS[a % 10] && t[|t| - 1] == DIGITS[b % 10];
    DigitsDiffer(a % 10, b % 10);
    DecimalLength(a);
    DecimalLength(b);
    if a >= 10 {
      assert s[..|s| - 1] == Decimal(a / 10) && t[..|t| - 1] == Decimal(b / 10);
      DecimalInjective(a / 10, b / 10);
    }
  }

  lemma DecimalLength(n: nat)
    ensures |Decimal(n)| == 1 <==> n < 10
  {
  }

  function KindLetter(k: LabelKind): char {
    match k
    case LTemp => 't'
    case LCase => 's'
    case LContinue => 'c'
    case LBreak => 'b'
    case LUser => 'u'
  }

  /** '.L', a letter for the kind, the id. */
  function LabelName(l: Lbl): string {
    ".L" + [KindLetter(l.kind)] + Decimal(l.id)
  }

  /** Printed labels differ whenever the labels do, across the whole file. */
  lemma LabelNames(a: Lbl, b: Lbl)
    requires LabelName(a) == LabelName(b)
    ensures a == b
  {
    var s, t := LabelName(a), LabelName(b);
    assert s[2] == KindLetter(a.kind) && t[2] == KindLetter(b.kind);
    assert s[3..] == Decimal(a.id) && t[3..] == Decimal(b.id);
    DecimalInjective(a.id, b.id);
  }

  /** A symbol without linkage carries its id after a dot. */
  function SymbolName(y: Sym, id: nat): string {
    if y.linkage.NoLinkage? then y.name + "." + Decimal(id) else y.name
  }

  function FirstDot(s: string): nat {
    if s == [] || s[0] == '.' then 0 else 1 + FirstDot(s[1..])
  }

  lemma {:induction false} DotAfter(x: string, d: string)
    requires '.' !in x
    ensures FirstDot(x + "." + d) == |x|
  {
    var s := x + "." + d;
    if x != [] {
      assert s[0] == x[0] && s[1..] == x[1..] + "." + d;
      DotAfter(x[1..], d);
    } else {
      assert s[0] == '.';
    }
  }

  lemma DotPlace(x: string, d: string, y: string, e: string)
    requires '.' !in x && '.' !in y && x + "." + d == y + "." + e
    ensures x == y && d == e
  {
    var s, t := x + "." + d, y + "." + e;
    DotAfter(x, d);
    DotAfter(y, e);
    assert s[..|x|] == x && t[..|y|] == y && s[|x| + 1..] == d && t[|y| + 1..] == e;
  }

  lemma DotInside(y: Sym, id: nat)
    requires IsIdentifier(y.name)
    ensures '.' in SymbolName(y, id) <==> y.linkage.NoLinkage?
  {
    assert (y.name + "." + Decimal(id))[|y.name|] == '.';
  }

  /** Two symbols of one table never share an assembly name. */
  lemma SymbolNames(scopes: seq<Names>, linked: Names, symbols: seq<Sym>, i: nat, j: nat)
    requires TableOk(scopes, linked, symbols) && i < |symbols| && j < |symbols|
    requires SymbolName(symbols[i], i) == SymbolName(symbols[j], j)
    ensures i == j
  {
    var a, b := symbols[i], symbols[j];
    assert SymOk(a) && SymOk(b);
    DotInside(a, i);
    DotInside(b, j);
    if a.linkage.NoLinkage? {
      DotPlace(a.name, Decimal(i), b.name, Decimal(j));
      DecimalInjective(i, j);
    }
  }

  /** A symbol with linkage is spelled in the assembly file as in the program, where other files find it. */
  predicate NameKept(y: Sym, id: nat) {
    y.linkage.External? || y.linkage.Internal? ==> SymbolName(y, id) == y.name
  }

  /** No two symbols of the file are spelled alike, and none like a label. */
  ghost predicate NamesApart(symbols: seq<Sym>) {
    && (forall i :: 0 <= i < |symbols| ==> NameKept(symbols[i], i))
    && (forall i, j :: 0 <= i < j < |symbols| ==> SymbolName(symbols[i], i) != SymbolName(symbols[j], j))
    && forall i, l :: 0 <= i < |symbols| ==> LabelName(l) != SymbolName(symbols[i], i)
  }

  lemma AllNames(scopes: seq<Names>, linked: Names, symbols: seq<Sym>)
    requires TableOk(scopes, linked, symbols)
    ensures NamesApart(symbols)
  {
    assert forall i :: 0 <= i < |symbols| ==> NameKept(symbols[i], i);
    hide TableOk, LabelName, SymbolName;
    forall i, j | 0 <= i < j < |symbols| ensures SymbolName(symbols[i], i) != SymbolName(symbols[j], j) {
      if SymbolName(symbols[i], i) == SymbolName(symbols[j], j) { SymbolNames(scopes, linked, symbols, i, j); }
    }
    forall i, l | 0 <= i < |symbols| ensures LabelName(l) != SymbolName(symbols[i], i) {
      TableAt(scopes, linked, symbols, i);
      LabelIsNoSymbol(l, symbols[i], i);
    }
  }

  /** No label is a symbol. */
  lemma LabelIsNoSymbol(l: Lbl, y: Sym, id: nat)
    requires IsIdentifier(y.name)
    ensures LabelName(l) != SymbolName(y, id)
  {
    assert LabelName(l)[0] == '.';
    assert SymbolName(y, id)[0] == y.name[0];
  }
}
