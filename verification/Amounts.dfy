/** DOM amounts as text: the printer and the parser of the desktop front end, against the decimal value a text denotes.
    */
module Amounts {
  import opened Wrappers
  import opened QrText

  const NOMS_PER_DOM: nat := 100_000_000
  const MAX_SAFE_INTEGER: nat := 0x1F_FFFF_FFFF_FFFF
  const UNIT: string := " DOM"

  datatype AmountError = Malformed | NotPositive | TooLarge

  // ----- padding and trimming

  function PadStart(s: string, width: nat): (r: string)
    ensures |s| <= width ==> |r| == width
    ensures AllDigits(s) ==> AllDigits(r)
    decreases width - |s|
  {
    if |s| >= width then s else PadStart("0" + s, width)
  }

  function PadEnd(s: string, width: nat): (r: string)
    ensures |s| <= width ==> |r| == width
    ensures AllDigits(s) ==> AllDigits(r)
    decreases width - |s|
  {
    if |s| >= width then s else PadEnd(s + "0", width)
  }

  /** White space and line terminators of ECMAScript. */
  predicate IsSpace(c: char) {
    || '\t' <= c <= '\r' || c == ' ' || c == '\U{A0}' || c == '\U{1680}' || '\U{2000}' <= c <= '\U{200A}'
    || c == '\U{2028}' || c == '\U{2029}' || c == '\U{202F}' || c == '\U{205F}' || c == '\U{3000}' || c == '\U{FEFF}'
  }

  function TrimStart(s: string): string {
    if s != [] && IsSpace(s[0]) then TrimStart(s[1..]) else s
  }

  function TrimEnd(s: string): string {
    if s != [] && IsSpace(s[|s| - 1]) then TrimEnd(s[..|s| - 1]) else s
  }

  function Trim(s: string): string {
    TrimEnd(TrimStart(s))
  }

  // ----- the printer

  function FormatDom(noms: int): string {
    if noms < 0 || noms > MAX_SAFE_INTEGER then "Unavailable"
    else Decimal(noms / NOMS_PER_DOM) + "." + PadStart(Decimal(noms % NOMS_PER_DOM), 8) + UNIT
  }

  /** The text without a trailing unit. */
  function WithoutUnit(s: string): string {
    if |s| >= |UNIT| && s[|s| - |UNIT|..] == UNIT then s[..|s| - |UNIT|] else s
  }

  // ----- the parser

  /** How many digits a text starts with. */
  function LeadingDigits(s: string): (n: nat)
    ensures n <= |s| && AllDigits(s[..n]) && (n < |s| ==> !IsDigit(s[n]))
  {
    if s == [] || !IsDigit(s[0]) then 0
    else
      var n := 1 + LeadingDigits(s[1..]);
      assert s[..n] == [s[0]] + s[1..][..n - 1];
      n
  }

  datatype Parts = Parts(whole: string, fraction: string)

  ghost predicate WellFormed(p: Parts) {
    p.whole != [] && AllDigits(p.whole) && AllDigits(p.fraction) && |p.fraction| <= 8
  }

  /** Digits, and after a dot one to eight more. */
  function Match(s: string): (r: Option<Parts>)
    ensures r.Some? ==> WellFormed(r.value)
  {
    var n := LeadingDigits(s);
    if n == 0 then None
    else if n == |s| then Some(Parts(s[..n], ""))
    else
      var fraction := s[n + 1..];
      if s[n] == '.' && 1 <= |fraction| <= 8 && AllDigits(fraction) then Some(Parts(s[..n], fraction)) else None
  }

  function ParseDom(text: string): Result<nat, AmountError> {
    match Match(Trim(text))
    case None => Err(Malformed)
    case Some(parts) =>
      var noms := DecimalValue(parts.whole) * NOMS_PER_DOM + DecimalValue(PadEnd(parts.fraction, 8));
      if noms <= 0 then Err(NotPositive) else if noms > MAX_SAFE_INTEGER then Err(TooLarge) else Ok(noms)
  }

  // ----- what a text denotes

  /** A digit at a place worth one part in `p`. */
  ghost function Place(d: nat, p: nat): real
    requires p > 0
  {
    d as real / p as real
  }

  ghost function Scaled(x: real, p: nat): real {
    x * p as real
  }

  /** The digits after the dot by place value: tenths, hundredths and so on. */
  ghost function FractionValue(s: string): real
    requires AllDigits(s)
  {
    if s == [] then 0.0
    else FractionValue(s[..|s| - 1]) + Place(DigitValue(s[|s| - 1]), Pow10(|s|))
  }

  ghost function Denoted(p: Parts): real
    requires WellFormed(p)
  {
    DecimalValue(p.whole) as real + FractionValue(p.fraction)
  }

  /** The grammar, read from both ends: a text is a sequence of digits, optionally with a dot and one to eight more. */
  ghost predicate Spells(s: string, p: Parts) {
    WellFormed(p) && s == if p.fraction == [] then p.whole else p.whole + "." + p.fraction
  }

  lemma MatchExact(s: string, p: Parts)
    ensures Match(s) == Some(p) <==> Spells(s, p)
  {
    if Spells(s, p) {
      DigitsEnd(s, p);
    }
    if Match(s) == Some(p) && p.fraction != [] {
      var n := LeadingDigits(s);
      assert s == s[..n] + [s[n]] + s[n + 1..];
    }
  }

  lemma DigitsEnd(s: string, p: Parts)
    requires Spells(s, p)
    ensures LeadingDigits(s) == |p.whole| && s[..|p.whole|] == p.whole
    ensures p.fraction != [] ==> s[|p.whole|] == '.' && s[|p.whole| + 1..] == p.fraction
  {
    assert s[..|p.whole|] == p.whole;
    SameRun(s, LeadingDigits(s), |p.whole|);
  }

  /** A text starts with only one maximal run of digits. */
  lemma SameRun(s: string, m: nat, n: nat)
    requires m <= |s| && AllDigits(s[..m]) && (m < |s| ==> !IsDigit(s[m]))
    requires n <= |s| && AllDigits(s[..n]) && (n < |s| ==> !IsDigit(s[n]))
    ensures m == n
  {
    hide IsDigit;
    DigitAt(s, m);
    DigitAt(s, n);
  }

  lemma DigitAt(s: string, n: nat)
    requires n <= |s| && AllDigits(s[..n])
    ensures forall i :: 0 <= i < n ==> IsDigit(s[i])
  {
    forall i | 0 <= i < n ensures IsDigit(s[i]) {
      assert s[..n][i] == s[i];
    }
  }

  // ----- values of padded digits

  lemma Shift(f: real, d: nat, p: nat, v: nat)
    requires p > 0 && Scaled(f, p) == v as real
    ensures Scaled(f + Place(d, 10 * p), 10 * p) == (10 * v + d) as real
  {
    var q := p as real;
    assert (10 * p) as real == 10.0 * q;
    assert d as real / (10.0 * q) * (10.0 * q) == d as real;
    assert f * (10.0 * q) == 10.0 * (f * q);
  }

  /** As many digits after the dot are that many powers of ten less. */
  lemma {:induction false} FractionScaled(s: string)
    requires AllDigits(s)
    ensures Scaled(FractionValue(s), Pow10(|s|)) == DecimalValue(s) as real
  {
    if s == [] {
      assert FractionValue(s) == 0.0 && DecimalValue(s) == 0;
    } else {
      hide DigitValue, FractionValue, DecimalValue, Pow10, Scaled, Place;
      var n := |s| - 1;
      FractionScaled(s[..n]);
      LastDigit(s);
      Shift(FractionValue(s[..n]), DigitValue(s[n]), Pow10(n), DecimalValue(s[..n]));
    }
  }

  lemma LastDigit(s: string)
    requires s != [] && AllDigits(s)
    ensures var n := |s| - 1;
      && AllDigits(s[..n]) && Pow10(|s|) == 10 * Pow10(n)
      && FractionValue(s) == FractionValue(s[..n]) + Place(DigitValue(s[n]), 10 * Pow10(n))
      && DecimalValue(s) == 10 * DecimalValue(s[..n]) + DigitValue(s[n])
  {
    hide DigitValue, Place;
  }

  lemma {:induction false} PadEndKeeps(s: string, width: nat)
    requires AllDigits(s)
    ensures FractionValue(PadEnd(s, width)) == FractionValue(s)
    decreases width - |s|
  {
    if |s| < width {
      PadEndKeeps(s + "0", width);
      ZeroAtEnd(s);
    }
  }

  lemma ZeroAtEnd(s: string)
    requires AllDigits(s)
    ensures FractionValue(s + "0") == FractionValue(s)
  {
    assert (s + "0")[..|s|] == s;
  }

  lemma {:induction false} ZeroInFront(s: string)
    requires AllDigits(s)
    ensures DecimalValue("0" + s) == DecimalValue(s)
  {
    var t := "0" + s;
    if s == [] {
      assert t[..0] == [];
    } else {
      ZeroInFront(s[..|s| - 1]);
      assert t[..|t| - 1] == "0" + s[..|s| - 1];
    }
  }

  lemma {:induction false} PadStartKeeps(s: string, width: nat)
    requires AllDigits(s)
    ensures DecimalValue(PadStart(s, width)) == DecimalValue(s)
    decreases width - |s|
  {
    if |s| < width {
      PadStartKeeps("0" + s, width);
      ZeroInFront(s);
    }
  }

  lemma EightPlaces()
    ensures Pow10(8) == NOMS_PER_DOM
  {
    assert Pow10(4) == 10000;
  }

  /** The number the parser computes is the denoted amount in noms. */
  lemma NomsDenoted(p: Parts)
    requires WellFormed(p)
    ensures AllDigits(PadEnd(p.fraction, 8))
    ensures (DecimalValue(p.whole) * NOMS_PER_DOM + DecimalValue(PadEnd(p.fraction, 8))) as real
         == Denoted(p) * NOMS_PER_DOM as real
  {
    hide DecimalValue, FractionValue, PadEnd, Pow10;
    var padded := PadEnd(p.fraction, 8);
    PadEndKeeps(p.fraction, 8);
    FractionScaled(padded);
    EightPlaces();
  }

  /** A text is accepted exactly when, trimmed, it spells an amount between one nom and the largest safe integer, and
      the result is that amount in noms. */
  lemma ParseExact(text: string, n: nat)
    ensures ParseDom(text) == Ok(n) <==>
      exists p :: Spells(Trim(text), p) && n as real == Denoted(p) * NOMS_PER_DOM as real && 0 < n <= MAX_SAFE_INTEGER
  {
    hide DecimalValue, FractionValue, PadEnd, Pow10, Match, Denoted, Trim;
    var m := Match(Trim(text));
    if m.Some? {
      MatchExact(Trim(text), m.value);
      NomsDenoted(m.value);
    }
    forall p | Spells(Trim(text), p) ensures m == Some(p) {
      MatchExact(Trim(text), p);
    }
  }

  /** Why a text is refused: it spells no amount, none above zero, or one beyond the largest safe integer. */
  lemma RefusedExact(text: string)
    ensures ParseDom(text) == Err(Malformed) <==> forall p :: !Spells(Trim(text), p)
    ensures ParseDom(text) == Err(NotPositive) <==> exists p :: Spells(Trim(text), p) && Denoted(p) == 0.0
    ensures ParseDom(text) == Err(TooLarge) <==>
      exists p :: Spells(Trim(text), p) && Denoted(p) * NOMS_PER_DOM as real > 9_007_199_254_740_991.0
  {
    hide DecimalValue, FractionValue, PadEnd, Pow10, Match, Denoted, Trim, Spells;
    var m := Match(Trim(text));
    if m.Some? {
      MatchExact(Trim(text), m.value);
      MatchFound(Trim(text));
      NomsDenoted(m.value);
    }
    forall p | Spells(Trim(text), p) ensures m == Some(p) {
      MatchExact(Trim(text), p);
    }
  }

  lemma MatchFound(s: string)
    requires Match(s).Some?
    ensures WellFormed(Match(s).value)
  {
  }

  /** Two accepted texts give the same number of noms exactly when they denote the same decimal value. */
  lemma SameNomsSameValue(a: string, b: string, p: Parts, q: Parts)
    requires ParseDom(a).Ok? && ParseDom(b).Ok? && Spells(Trim(a), p) && Spells(Trim(b), q)
    ensures ParseDom(a) == ParseDom(b) <==> Denoted(p) == Denoted(q)
  {
    hide DecimalValue, FractionValue, PadEnd, Pow10, Match, Denoted, Trim;
    MatchExact(Trim(a), p);
    MatchExact(Trim(b), q);
    NomsDenoted(p);
    NomsDenoted(q);
    assert Denoted(p) * NOMS_PER_DOM as real == Denoted(q) * NOMS_PER_DOM as real ==> Denoted(p) == Denoted(q);
  }

  // ----- the printer and the parser undo each other

  function Printed(noms: nat): Parts {
    Parts(Decimal(noms / NOMS_PER_DOM), PadStart(Decimal(noms % NOMS_PER_DOM), 8))
  }

  lemma PrintedSpells(noms: nat)
    requires noms <= MAX_SAFE_INTEGER
    ensures Spells(WithoutUnit(FormatDom(noms)), Printed(noms))
    ensures |Printed(noms).fraction| == 8
  {
    hide Decimal, PadStart;
    var p := Printed(noms);
    EightPlaces();
    DecimalLength(noms % NOMS_PER_DOM, 8);
    var s := p.whole + "." + p.fraction;
    assert FormatDom(noms) == s + UNIT;
    assert (s + UNIT)[|s|..] == UNIT && (s + UNIT)[..|s|] == s;
  }

  lemma NothingToTrim(s: string, p: Parts)
    requires Spells(s, p)
    ensures Trim(s) == s
  {
    assert IsDigit(s[0]) && IsDigit(s[|s| - 1]);
  }

  /** Parsing a printed amount without its unit gives the amount back; only zero is refused. */
  lemma PrintParse(noms: nat)
    requires noms <= MAX_SAFE_INTEGER
    ensures ParseDom(WithoutUnit(FormatDom(noms))) == if noms == 0 then Err(NotPositive) else Ok(noms)
  {
    hide Decimal, PadStart, PadEnd, DecimalValue, Trim, Match, WithoutUnit, FormatDom;
    var s, p := WithoutUnit(FormatDom(noms)), Printed(noms);
    PrintedSpells(noms);
    NothingToTrim(s, p);
    MatchExact(s, p);
    DecimalRoundTrip(noms / NOMS_PER_DOM);
    PadStartKeeps(Decimal(noms % NOMS_PER_DOM), 8);
    DecimalRoundTrip(noms % NOMS_PER_DOM);
    assert PadEnd(p.fraction, 8) == p.fraction by { FullWidth(p.fraction); }
  }

  lemma FullWidth(s: string)
    requires |s| == 8
    ensures PadEnd(s, 8) == s
  {
  }

  /** Printing what was parsed denotes the value the text denoted. */
  lemma ParsePrint(text: string, p: Parts)
    requires ParseDom(text).Ok? && Spells(Trim(text), p)
    ensures ParseDom(text).value <= MAX_SAFE_INTEGER
    ensures WellFormed(Printed(ParseDom(text).value)) && Denoted(Printed(ParseDom(text).value)) == Denoted(p)
  {
    hide Decimal, PadStart, PadEnd, DecimalValue, Trim, Match, WithoutUnit, FormatDom, Denoted, Printed;
    MatchExact(Trim(text), p);
    var n := ParseDom(text).value;
    var s := WithoutUnit(FormatDom(n));
    PrintedSpells(n);
    NothingToTrim(s, Printed(n));
    PrintParse(n);
    SameNomsSameValue(text, s, p, Printed(n));
  }

  // ----- trimming

  ghost predicate AllSpace(s: string) {
    forall i :: 0 <= i < |s| ==> IsSpace(s[i])
  }

  /** No white space at either end. */
  ghost predicate Bare(s: string) {
    s != [] ==> !IsSpace(s[0]) && !IsSpace(s[|s| - 1])
  }

  lemma SpaceAppend(a: string, b: string)
    requires AllSpace(a) && AllSpace(b)
    ensures AllSpace(a + b)
  {
    hide IsSpace;
  }

  lemma {:induction false} TrimStartExact(s: string) returns (a: string)
    ensures AllSpace(a) && s == a + TrimStart(s)
    ensures TrimStart(s) != [] ==> !IsSpace(TrimStart(s)[0])
  {
    hide IsSpace, AllSpace;
    if s != [] && IsSpace(s[0]) {
      var rest := TrimStartExact(s[1..]);
      OneSpace(s[0]);
      SpaceAppend([s[0]], rest);
      a := [s[0]] + rest;
      JoinStart(s, rest, TrimStart(s));
    } else {
      a := [];
      NoSpace();
    }
  }

  lemma {:induction false} TrimEndExact(s: string) returns (b: string)
    ensures AllSpace(b) && s == TrimEnd(s) + b
    ensures TrimEnd(s) != [] ==> !IsSpace(TrimEnd(s)[|TrimEnd(s)| - 1])
  {
    hide IsSpace, AllSpace;
    if s != [] && IsSpace(s[|s| - 1]) {
      var n := |s| - 1;
      var rest := TrimEndExact(s[..n]);
      OneSpace(s[n]);
      SpaceAppend(rest, [s[n]]);
      b := rest + [s[n]];
      JoinEnd(s, TrimEnd(s), rest);
    } else {
      b := [];
      NoSpace();
    }
  }

  lemma NoSpace()
    ensures AllSpace("")
  {
  }

  lemma OneSpace(c: char)
    requires IsSpace(c)
    ensures AllSpace([c])
  {
    hide IsSpace;
  }

  lemma JoinStart(s: string, a: string, t: string)
    requires s != [] && s[1..] == a + t
    ensures s == [s[0]] + a + t
  {
    assert s == [s[0]] + s[1..];
  }

  lemma JoinEnd(s: string, t: string, b: string)
    requires s != [] && s[..|s| - 1] == t + b
    ensures s == t + (b + [s[|s| - 1]])
  {
    assert s == s[..|s| - 1] + [s[|s| - 1]];
  }

  /** What is left of a text between two runs of white space. */
  ghost predicate Between(s: string, a: string, t: string, b: string) {
    AllSpace(a) && AllSpace(b) && Bare(t) && s == a + t + b
  }

  lemma BetweenUnique(s: string, a: string, t: string, b: string, a': string, t': string, b': string)
    requires Between(s, a, t, b) && Between(s, a', t', b')
    ensures t == t'
  {
    hide IsSpace;
    if t != [] {
      OnlyBetween(s, a, t, b, a', t', b');
      OnlyBetween(s, a', t', b', a, t, b);
      assert |a| == |a'| && |a + t| == |a' + t'|;
      assert t == s[|a|..|a + t|] && t' == s[|a'|..|a' + t'|];
    } else if t' != [] {
      OnlyBetween(s, a', t', b', a, t, b);
    }
  }

  /** The ends of a bare text lie inside any other cut. */
  lemma OnlyBetween(s: string, a: string, t: string, b: string, a': string, t': string, b': string)
    requires Between(s, a, t, b) && Between(s, a', t', b') && t != []
    ensures t' != [] && |a'| <= |a| && |a + t| <= |a' + t'|
  {
    hide IsSpace;
    var first, last := |a|, |a + t| - 1;
    assert s[first] == t[0] && s[last] == t[|t| - 1];
  }

  /** Trimming returns exactly the text between two maximal runs of white space. */
  lemma TrimExact(s: string, t: string)
    ensures Trim(s) == t <==> exists a, b :: Between(s, a, t, b)
  {
    hide IsSpace;
    var a := TrimStartExact(s);
    var b := TrimEndExact(TrimStart(s));
    assert s == a + Trim(s) + b;
    assert Bare(Trim(s)) by {
      if Trim(s) != [] {
        assert Trim(s)[0] == TrimStart(s)[0];
      }
    }
    assert Between(s, a, Trim(s), b);
    forall a', b' | Between(s, a', t, b') ensures Trim(s) == t {
      BetweenUnique(s, a, Trim(s), b, a', t, b');
    }
  }

  // ----- the printed form

  /** Printing is refused exactly outside the safe integers, and a printed amount ends in its unit. */
  lemma PrintedExactly(noms: int)
    ensures FormatDom(noms) == "Unavailable" <==> noms < 0 || noms > 9_007_199_254_740_991
    ensures 0 <= noms <= 9_007_199_254_740_991 ==>
      FormatDom(noms) == WithoutUnit(FormatDom(noms)) + " DOM" && |Printed(noms).fraction| == 8
  {
    hide Decimal, PadStart;
    if 0 <= noms <= MAX_SAFE_INTEGER {
      PrintedSpells(noms);
      var p := Printed(noms);
      var s := p.whole + "." + p.fraction;
      assert FormatDom(noms) == s + UNIT;
      assert (s + UNIT)[|s|..] == UNIT && (s + UNIT)[..|s|] == s;
      assert IsDigit(FormatDom(noms)[0]) && !IsDigit("Unavailable"[0]);
    }
  }

  /** One coin and one nom, as printed. */
  lemma PrintedVectors()
    ensures FormatDom(100_000_000) == "1.00000000 DOM"
    ensures FormatDom(1) == "0.00000001 DOM"
    ensures FormatDom(0) == "0.00000000 DOM"
  {
    assert PadStart("0", 8) == "00000000" by { EightDigits('0'); }
    assert PadStart("1", 8) == "00000001" by { EightDigits('1'); }
    assert Decimal(0) == "0" && Decimal(1) == "1";
    hide Decimal, PadStart;
    assert "1" + "." + "00000000" + " DOM" == "1.00000000 DOM";
    assert "0" + "." + "00000001" + " DOM" == "0.00000001 DOM";
    assert "0" + "." + "00000000" + " DOM" == "0.00000000 DOM";
  }

  lemma EightDigits(c: char)
    ensures PadStart([c], 8) == ['0', '0', '0', '0', '0', '0', '0', c]
  {
    PadOne([c], 8);
    assert ['0'] + [c] == ['0', c];
    PadOne(['0', c], 8);
    assert ['0'] + ['0', c] == ['0', '0', c];
    PadOne(['0', '0', c], 8);
    assert ['0'] + ['0', '0', c] == ['0', '0', '0', c];
    PadOne(['0', '0', '0', c], 8);
    assert ['0'] + ['0', '0', '0', c] == ['0', '0', '0', '0', c];
    PadOne(['0', '0', '0', '0', c], 8);
    assert ['0'] + ['0', '0', '0', '0', c] == ['0', '0', '0', '0', '0', c];
    PadOne(['0', '0', '0', '0', '0', c], 8);
    assert ['0'] + ['0', '0', '0', '0', '0', c] == ['0', '0', '0', '0', '0', '0', c];
    PadOne(['0', '0', '0', '0', '0', '0', c], 8);
    assert ['0'] + ['0', '0', '0', '0', '0', '0', c] == ['0', '0', '0', '0', '0', '0', '0', c];
  }

  lemma PadOne(s: string, width: nat)
    requires |s| < width
    ensures PadStart(s, width) == PadStart(['0'] + s, width)
  {
    assert "0" + s == ['0'] + s;
  }
}
