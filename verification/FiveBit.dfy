/** Regrouping bytes into five-bit groups with a 32-bit accumulator that is never masked;
    BIP-173, section "Bech32". The reference is the number the digits denote. */
module FiveBit {
  import opened Wrappers

  // ----- digits and their value

  function Value(digits: seq<nat>, base: nat): nat {
    if digits == [] then 0 else Value(digits[..|digits| - 1], base) * base + digits[|digits| - 1]
  }

  ghost predicate Below(digits: seq<nat>, base: nat) {
    forall i :: 0 <= i < |digits| ==> digits[i] < base
  }

  function Quotient(v: nat, base: nat): nat
    requires base > 0
  {
    v / base
  }

  function Remainder(v: nat, base: nat): (r: nat)
    requires base > 0
    ensures r < base
  {
    v % base
  }

  /** The `count` lowest digits of a number. */
  function Digits(v: nat, base: nat, count: nat): (r: seq<nat>)
    requires base > 0
    ensures |r| == count && Below(r, base)
    decreases count
  {
    hide Quotient, Remainder;
    if count == 0 then [] else Digits(Quotient(v, base), base, count - 1) + [Remainder(v, base)]
  }

  lemma Multiples(base: nat, d: int)
    ensures d >= 1 ==> base * d >= base
    ensures d <= -1 ==> base * d + base <= 0
  {
  }

  /** Quotient and remainder are determined by what they add up to. */
  lemma DivMod(q: nat, base: nat, r: nat)
    requires r < base
    ensures Quotient(q * base + r, base) == q && Remainder(q * base + r, base) == r
  {
    var v := q * base + r;
    var d := v / base - q;
    assert v == base * (v / base) + v % base;
    assert base * d == base * (v / base) - base * q;
    Multiples(base, d);
  }

  lemma Splits(v: nat, base: nat)
    requires base > 0
    ensures v == Quotient(v, base) * base + Remainder(v, base)
  {
  }

  /** Reducing by a multiple first changes nothing. */
  lemma ReduceTwice(v: nat, m: nat, k: nat, word: nat)
    requires m > 0 && word > 0 && word == m * k
    ensures Remainder(Remainder(v, word), m) == Remainder(v, m)
  {
    hide Remainder, Quotient;
    Splits(v, word);
    var y := Remainder(v, word);
    Splits(y, m);
    var q := Quotient(v, word);
    assert q * word == q * k * m;
    assert (q * k + Quotient(y, m)) * m == q * k * m + Quotient(y, m) * m;
    DivMod(q * k + Quotient(y, m), m, Remainder(y, m));
  }

  /** A digit sequence of known length is recovered from its value. */
  lemma {:induction false} DigitsOfValue(digits: seq<nat>, base: nat)
    requires base > 0 && Below(digits, base)
    ensures Digits(Value(digits, base), base, |digits|) == digits
  {
    if digits != [] {
      var n := |digits| - 1;
      DigitsOfValue(digits[..n], base);
      DivMod(Value(digits[..n], base), base, digits[n]);
      assert digits == digits[..n] + [digits[n]];
    }
  }

  // ----- regrouping

  function GroupCount(bytes: nat): nat {
    (8 * bytes + 4) / 5
  }

  function Padding(bytes: nat): (p: nat)
    ensures p < 5 && 5 * GroupCount(bytes) == 8 * bytes + p
  {
    5 * GroupCount(bytes) - 8 * bytes
  }

  /** The groups denote the number of the bytes, shifted up by the padding. */
  function Regrouped(data: seq<nat>): seq<nat> {
    Digits(Value(data, 256) * Pow2(Padding(|data|)), 32, GroupCount(|data|))
  }

  /** Back to `count` bytes. */
  function Ungrouped(groups: seq<nat>, count: nat): seq<nat> {
    Digits(Quotient(Value(groups, 32), Pow2(Padding(count))), 256, count)
  }

  lemma SmallPowers()
    ensures Pow2(0) == 1 && Pow2(1) == 2 && Pow2(2) == 4 && Pow2(3) == 8 && Pow2(4) == 16 && Pow2(5) == 32
    ensures Pow2(6) == 64 && Pow2(7) == 128 && Pow2(8) == 256 && Pow2(9) == 512 && Pow2(10) == 1024
    ensures Pow2(11) == 2048 && Pow2(12) == 4096
  {
    assert Pow2(2) == 4;
    assert Pow2(4) == 16;
    assert Pow2(6) == 64;
    assert Pow2(8) == 256;
    assert Pow2(10) == 1024;
  }

  const WORD: nat := 0x1_0000_0000

  lemma Halved(k: nat)
    requires k < 5
    ensures Pow2(k) > 0 && Pow2(k) * Pow2(24 - k) == 0x100_0000
    ensures Pow2(k + 8) == 256 * Pow2(k)
  {
    SmallPowers();
    assert Pow2(24 - k) == if k == 0 then 0x100_0000 else if k == 1 then 0x80_0000 else if k == 2 then 0x40_0000
                           else if k == 3 then 0x20_0000 else 0x10_0000 by {
      Pow2Eight(12 - k);
      Pow2Eight(4 - k);
      Pow2Eight(8 - k + 8);
      Pow2Eight(8 - k);
    }
    Pow2Eight(k);
  }

  lemma ShiftByte(acc: nat, byte: nat)
    requires byte < 256
    ensures acc * 256 % WORD + byte == Remainder(acc, 0x100_0000) * 256 + byte < WORD
  {
  }

  /** Taking in a byte: the high bits that fall off the word are never needed. */
  lemma TakeByte(acc: nat, bits: nat, byte: nat)
    requires acc < WORD && bits < 5 && byte < 256
    ensures acc * 256 % WORD + byte < WORD
    ensures Pow2(bits) > 0 && Pow2(bits + 8) > 0
    ensures Remainder(acc * 256 % WORD + byte, Pow2(bits + 8)) == Remainder(acc, Pow2(bits)) * 256 + byte
  {
    hide Pow2, Remainder, Quotient;
    Halved(bits);
    ShiftByte(acc, byte);
    var p, a := Pow2(bits), Remainder(acc, 0x100_0000);
    ReduceTwice(acc, p, Pow2(24 - bits), 0x100_0000);
    Splits(a, p);
    assert (Quotient(a, p) * p + Remainder(a, p)) * 256 + byte
        == Quotient(a, p) * (256 * p) + (Remainder(a, p) * 256 + byte);
    DivMod(Quotient(a, p), 256 * p, Remainder(a, p) * 256 + byte);
  }

  lemma Pow2Five(k: nat)
    ensures Pow2(k + 5) == 32 * Pow2(k)
  {
    assert Pow2(k + 2) == 4 * Pow2(k);
    assert Pow2(k + 4) == 4 * Pow2(k + 2);
  }

  lemma GroupProduct(d: nat, e: nat, q: nat)
    requires e < 32
    ensures (d * 32 + e) * q == d * (32 * q) + e * q
    ensures e * q <= 31 * q
  {
    assert d * 32 * q == d * (32 * q);
  }

  lemma SplitGroup(acc: nat, q: nat)
    requires q > 0
    ensures Remainder(acc, 32 * q) == Remainder(Quotient(acc, q), 32) * q + Remainder(acc, q)
  {
    hide Remainder, Quotient;
    Splits(acc, q);
    var n := Quotient(acc, q);
    Splits(n, 32);
    var d, e := Quotient(n, 32), Remainder(n, 32);
    GroupProduct(d, e, q);
    DivMod(d, 32 * q, e * q + Remainder(acc, q));
  }

  /** Giving out a group. */
  lemma GiveGroup(acc: nat, bits: nat)
    requires bits >= 5
    ensures Pow2(bits) == 32 * Pow2(bits - 5)
    ensures Remainder(acc, Pow2(bits))
         == Remainder(Quotient(acc, Pow2(bits - 5)), 32) * Pow2(bits - 5) + Remainder(acc, Pow2(bits - 5))
  {
    hide Pow2, Remainder, Quotient;
    Pow2Five(bits - 5);
    SplitGroup(acc, Pow2(bits - 5));
  }

  /** The padded last group. */
  lemma LastGroup(acc: nat, bits: nat)
    requires acc < WORD && 0 < bits < 5 && Pow2(bits) > 0
    ensures Remainder(acc * Pow2(5 - bits) % WORD, 32) == Remainder(acc, Pow2(bits)) * Pow2(5 - bits)
    ensures Pow2(bits) * Pow2(5 - bits) == 32
  {
    SmallPowers();
    hide Pow2, Quotient;
    var p, q := Pow2(bits), Pow2(5 - bits);
    ReduceTwice(acc * q, 32, 0x800_0000, WORD);
    Splits(acc, p);
    hide Remainder;
    var d, e := Quotient(acc, p), Remainder(acc, p);
    PadValue(d, p, e, q);
    NextBound(e, p, q, 0);
    DivMod(d, 32, e * q);
  }

  lemma Distribute(a: nat, p: nat, g: nat, q: nat)
    requires p == 32 * q
    ensures a * p + g * q == (a * 32 + g) * q
  {
    assert a * (32 * q) == a * 32 * q;
  }

  /** `to_five_bit`, equal to the regrouping by value for every input length. */
  method ToFiveBit(data: seq<Byte>) returns (out: seq<nat>)
    ensures out == Regrouped(data)
  {
    hide Value, Pow2, Digits, Quotient, Remainder;
    var acc: nat, bits: nat := 0, 0;
    out := [];
    EmptyValues();
    for k := 0 to |data|
      invariant acc < WORD && bits < 5 && Below(out, 32)
      invariant 5 * |out| + bits == 8 * k
      invariant Value(out, 32) * Pow2(bits) + Remainder(acc, Pow2(bits)) == Value(data[..k], 256)
    {
      ghost var before, rest := Value(out, 32), Remainder(acc, Pow2(bits));
      TakeByte(acc, bits, data[k]);
      NextByte(data, k, before, bits, rest);
      acc := acc * 256 % WORD + data[k];
      bits := bits + 8;
      while bits >= 5
        invariant acc < WORD && bits <= 12 && Below(out, 32)
        invariant 5 * |out| + bits == 8 * (k + 1)
        invariant Value(out, 32) * Pow2(bits) + Remainder(acc, Pow2(bits)) == Value(data[..k + 1], 256)
      {
        GiveGroup(acc, bits);
        bits := bits - 5;
        var group := Remainder(Quotient(acc, Pow2(bits)), 32);
        Distribute(Value(out, 32), Pow2(bits + 5), group, Pow2(bits));
        ValueStep(out, group, 32);
        out := out + [group];
      }
    }
    assert data[..|data|] == data;
    SmallPowers();
    if bits > 0 {
      LastGroup(acc, bits);
      var group := Remainder(acc * Pow2(5 - bits) % WORD, 32);
      PadValue(Value(out, 32), Pow2(bits), Remainder(acc, Pow2(bits)), Pow2(5 - bits));
      ValueStep(out, group, 32);
      out := out + [group];
    }
    DigitsOfValue(out, 32);
  }

  lemma PadValue(a: nat, p: nat, r: nat, q: nat)
    requires p * q == 32
    ensures (a * p + r) * q == a * 32 + r * q
  {
    calc {
      (a * p + r) * q;
      a * p * q + r * q;
      a * (p * q) + r * q;
      a * 32 + r * q;
    }
  }

  lemma EmptyValues()
    ensures Value([], 32) == 0 && Value([], 256) == 0 && Pow2(0) == 1
  {
  }

  lemma ValueStep(digits: seq<nat>, d: nat, base: nat)
    ensures Value(digits + [d], base) == Value(digits, base) * base + d
  {
    assert (digits + [d])[..|digits|] == digits;
  }

  lemma NextByte(data: seq<Byte>, k: nat, before: nat, bits: nat, rest: nat)
    requires k < |data| && bits < 5 && before * Pow2(bits) + rest == Value(data[..k], 256)
    ensures before * Pow2(bits + 8) + (rest * 256 + data[k]) == Value(data[..k + 1], 256)
  {
    hide Value, Pow2;
    assert data[..k + 1] == data[..k] + [data[k]];
    ValueStep(data[..k], data[k], 256);
    Pow2Eight(bits);
    assert before * (256 * Pow2(bits)) == 256 * (before * Pow2(bits));
  }

  lemma Pow2Eight(k: nat)
    ensures Pow2(k + 8) == 256 * Pow2(k)
  {
    assert Pow2(k + 2) == 4 * Pow2(k);
    assert Pow2(k + 4) == 4 * Pow2(k + 2);
    assert Pow2(k + 6) == 4 * Pow2(k + 4);
    assert Pow2(k + 8) == 4 * Pow2(k + 6);
  }

  // ----- losslessness

  lemma AddProducts(a: nat, b: nat, c: nat)
    ensures (a + b) * c == a * c + b * c && b * c >= 0
  {
  }

  lemma NextBound(v: nat, p: nat, base: nat, d: nat)
    requires v < p && d < base
    ensures v * base + d < p * base
  {
    var k := p - v - 1;
    AddProducts(v, 1 + k, base);
    AddProducts(1, k, base);
  }

  lemma {:induction false} ValueBound(digits: seq<nat>, base: nat, bits: nat)
    requires base == Pow2(bits) && Below(digits, base)
    ensures Value(digits, base) < Pow2(bits * |digits|)
  {
    hide Pow2;
    if digits != [] {
      var n := |digits| - 1;
      ValueBound(digits[..n], base, bits);
      Pow2Add(bits * n, bits);
      assert bits * n + bits == bits * |digits|;
      NextBound(Value(digits[..n], base), Pow2(bits * n), base, digits[n]);
    }
  }

  lemma {:induction false} Pow2Add(a: nat, b: nat)
    ensures Pow2(a + b) == Pow2(a) * Pow2(b)
  {
    if b > 0 {
      Pow2Add(a, b - 1);
      assert Pow2(a) * (2 * Pow2(b - 1)) == 2 * (Pow2(a) * Pow2(b - 1));
    }
  }

  lemma QuotientBound(v: nat, base: nat, p: nat)
    requires base > 0 && v < p * base
    ensures Quotient(v, base) < p
  {
    hide Quotient, Remainder;
    Splits(v, base);
    assert (Quotient(v, base) - p) * base < 0;
  }

  lemma {:induction false} ValueOfDigits(v: nat, base: nat, bits: nat, count: nat)
    requires base == Pow2(bits) && v < Pow2(bits * count)
    ensures Value(Digits(v, base, count), base) == v
    decreases count
  {
    hide Quotient, Remainder, Value;
    if count == 0 {
      assert bits * count == 0;
      assert Pow2(0) == 1;
      EmptyValue(base);
    } else {
      var p := Pow2(bits * (count - 1));
      assert Pow2(bits * count) == p * base by {
        hide Pow2, Digits;
        assert bits * (count - 1) + bits == bits * count;
        Pow2Add(bits * (count - 1), bits);
      }
      hide Pow2;
      Splits(v, base);
      QuotientBound(v, base, p);
      ValueOfDigits(Quotient(v, base), base, bits, count - 1);
      ValueStep(Digits(Quotient(v, base), base, count - 1), Remainder(v, base), base);
    }
  }

  lemma EmptyValue(base: nat)
    ensures Value([], base) == 0
  {
  }

  /** Nothing is lost: the padding bits are zero and the groups regroup to the original bytes. */
  lemma Lossless(data: seq<Byte>)
    ensures |Regrouped(data)| == GroupCount(|data|) && Below(Regrouped(data), 32)
    ensures Remainder(Value(Regrouped(data), 32), Pow2(Padding(|data|))) == 0
    ensures Ungrouped(Regrouped(data), |data|) == data
  {
    hide Value, Pow2, Digits, GroupCount, Quotient, Remainder;
    var pad := Padding(|data|);
    var v, p := Value(data, 256), Pow2(pad);
    SmallPowers();
    ValueBound(data, 256, 8);
    Pow2Add(8 * |data|, pad);
    assert v * p < Pow2(8 * |data|) * p by {
      assert (v + 1) * p <= Pow2(8 * |data|) * p;
    }
    ValueOfDigits(v * p, 32, 5, GroupCount(|data|));
    DivMod(v, p, 0);
    DigitsOfValue(data, 256);
  }

  /** Groups with zero padding are exactly the regrouping of the bytes they hold. */
  lemma Canonical(groups: seq<nat>, count: nat)
    requires |groups| == GroupCount(count) && Below(groups, 32)
    requires Remainder(Value(groups, 32), Pow2(Padding(count))) == 0
    ensures |Ungrouped(groups, count)| == count && Below(Ungrouped(groups, count), 256)
    ensures Regrouped(Ungrouped(groups, count)) == groups
  {
    hide Value, Pow2, Digits, GroupCount, Quotient, Remainder;
    var v, p := Value(groups, 32), Pow2(Padding(count));
    var q := Quotient(v, p);
    Splits(v, p);
    SmallPowers();
    ValueBound(groups, 32, 5);
    Pow2Add(8 * count, Padding(count));
    QuotientBound(v, p, Pow2(8 * count));
    ValueOfDigits(q, 256, 8, count);
    DigitsOfValue(groups, 32);
  }
}
