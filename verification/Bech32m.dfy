/** The bech32m checksum: algebra over GF(2) on 32-bit words; BIP-350, section "Bech32m". */
module Bech32m {
  const BECH32M_CONST: bv32 := 0x2bc8_30a3
  const STATE_LIMIT: bv32 := 0x4000_0000

  // ----- exclusive or, named so that proofs can treat it as an operation with laws

  function Xor(a: bv32, b: bv32): bv32 {
    a ^ b
  }

  lemma XorCommutes(a: bv32, b: bv32)
    ensures Xor(a, b) == Xor(b, a)
  {
  }

  lemma XorAssociates(a: bv32, b: bv32, c: bv32)
    ensures Xor(Xor(a, b), c) == Xor(a, Xor(b, c))
  {
  }

  lemma XorSelf(a: bv32)
    ensures Xor(a, a) == 0
  {
  }

  lemma XorNeutral(a: bv32)
    ensures Xor(a, 0) == a
  {
  }

  /** Rearranging two sums. */
  lemma XorMiddle(a: bv32, b: bv32, c: bv32, d: bv32)
    ensures Xor(Xor(a, b), Xor(c, d)) == Xor(Xor(a, c), Xor(b, d))
  {
    hide Xor;
    XorAssociates(a, b, Xor(c, d));
    XorAssociates(b, c, d);
    XorCommutes(b, c);
    XorAssociates(c, b, d);
    XorAssociates(a, c, Xor(b, d));
  }

  // ----- the checksum register

  function Masked(top: bv32, bit: bv32): bv32 {
    top & bit
  }

  /** One generator word, taken when its bit of the register top is set. */
  function Tap(top: bv32, bit: bv32, word: bv32): bv32 {
    if Masked(top, bit) == bit then word else 0
  }

  function Generator(top: bv32): bv32 {
    Xor(Xor(Xor(Xor(Tap(top, 1, 0x3b6a_57b2), Tap(top, 2, 0x2650_8e6d)), Tap(top, 4, 0x1ea1_19fa)),
            Tap(top, 8, 0x3d42_33dd)), Tap(top, 16, 0x2a14_62b3))
  }

  function Shifted(chk: bv32): bv32 {
    (chk & 0x01ff_ffff) << 5
  }

  function Step(chk: bv32, value: bv32): bv32 {
    Xor(Xor(Shifted(chk), value), Generator(chk >> 25))
  }

  /** The register after a sequence of values, from a given start. */
  function Fold(chk: bv32, values: seq<bv32>): bv32 {
    if values == [] then chk else Step(Fold(chk, values[..|values| - 1]), values[|values| - 1])
  }

  function Polymod(values: seq<bv32>): bv32 {
    Fold(1, values)
  }

  /** `polymod`: the register updated in place, one generator word at a time. */
  method PolymodLoop(values: seq<bv32>) returns (chk: bv32)
    ensures chk == Polymod(values)
  {
    hide Tap, Shifted, Xor;
    chk := 1;
    for k := 0 to |values|
      invariant chk == Fold(1, values[..k])
    {
      assert values[..k + 1][..k] == values[..k];
      ghost var before := chk;
      var top := chk >> 25;
      chk := Xor(Shifted(chk), values[k]);
      chk := Xor(chk, Tap(top, 1, 0x3b6a_57b2));
      chk := Xor(chk, Tap(top, 2, 0x2650_8e6d));
      chk := Xor(chk, Tap(top, 4, 0x1ea1_19fa));
      chk := Xor(chk, Tap(top, 8, 0x3d42_33dd));
      chk := Xor(chk, Tap(top, 16, 0x2a14_62b3));
      XorTail(Xor(Shifted(before), values[k]), Tap(top, 1, 0x3b6a_57b2), Tap(top, 2, 0x2650_8e6d),
              Tap(top, 4, 0x1ea1_19fa), Tap(top, 8, 0x3d42_33dd), Tap(top, 16, 0x2a14_62b3));
    }
    assert values[..|values|] == values;
  }

  lemma XorTail(x: bv32, a: bv32, b: bv32, c: bv32, d: bv32, e: bv32)
    ensures Xor(Xor(Xor(Xor(Xor(x, a), b), c), d), e) == Xor(x, Xor(Xor(Xor(Xor(a, b), c), d), e))
  {
    hide Xor;
    XorAssociates(x, a, b);
    XorAssociates(x, Xor(a, b), c);
    XorAssociates(x, Xor(Xor(a, b), c), d);
    XorAssociates(x, Xor(Xor(Xor(a, b), c), d), e);
  }

  // ----- one step

  lemma StepBounded(chk: bv32, value: bv32)
    requires value < 32
    ensures Step(chk, value) < STATE_LIMIT
  {
  }

  lemma TapLinear(a: bv32, b: bv32, bit: bv32, word: bv32)
    requires bit in {1, 2, 4, 8, 16}
    ensures Tap(Xor(a, b), bit, word) == Xor(Tap(a, bit, word), Tap(b, bit, word))
  {
    hide Xor, Masked;
    MaskLinear(a, b, bit);
    OneBit(a, bit);
    OneBit(b, bit);
    XorWithZero(word);
    XorWithZero(bit);
  }

  /** The four sums of a word and zero. */
  lemma XorWithZero(word: bv32)
    ensures Xor(word, word) == 0 && Xor(0, 0) == 0 && Xor(word, 0) == word && Xor(0, word) == word
  {
  }

  lemma MaskedIs(a: bv32, bit: bv32)
    ensures Masked(a, bit) == a & bit
  {
  }

  lemma MaskSum(a: bv32, b: bv32, bit: bv32)
    ensures Xor(a, b) & bit == Xor(a & bit, b & bit)
  {
  }

  lemma MaskLinear(a: bv32, b: bv32, bit: bv32)
    ensures Masked(Xor(a, b), bit) == Xor(Masked(a, bit), Masked(b, bit))
  {
    hide Masked, Xor;
    MaskedIs(Xor(a, b), bit);
    MaskedIs(a, bit);
    MaskedIs(b, bit);
    MaskSum(a, b, bit);
  }

  lemma OneBit(a: bv32, bit: bv32)
    requires bit in {1, 2, 4, 8, 16}
    ensures bit != 0 && (Masked(a, bit) == 0 || Masked(a, bit) == bit)
  {
  }

  lemma ShiftLinear(a: bv32, b: bv32)
    ensures Shifted(Xor(a, b)) == Xor(Shifted(a), Shifted(b))
    ensures Xor(a, b) >> 25 == Xor(a >> 25, b >> 25)
  {
  }

  lemma GeneratorLinear(a: bv32, b: bv32)
    ensures Generator(Xor(a, b)) == Xor(Generator(a), Generator(b))
  {
    hide Tap, Xor;
    TapLinear(a, b, 1, 0x3b6a_57b2);
    TapLinear(a, b, 2, 0x2650_8e6d);
    TapLinear(a, b, 4, 0x1ea1_19fa);
    TapLinear(a, b, 8, 0x3d42_33dd);
    TapLinear(a, b, 16, 0x2a14_62b3);
    var p, p' := Tap(a, 1, 0x3b6a_57b2), Tap(b, 1, 0x3b6a_57b2);
    var q, q' := Tap(a, 2, 0x2650_8e6d), Tap(b, 2, 0x2650_8e6d);
    var r, r' := Tap(a, 4, 0x1ea1_19fa), Tap(b, 4, 0x1ea1_19fa);
    var s, s' := Tap(a, 8, 0x3d42_33dd), Tap(b, 8, 0x3d42_33dd);
    var t, t' := Tap(a, 16, 0x2a14_62b3), Tap(b, 16, 0x2a14_62b3);
    XorMiddle(p, p', q, q');
    XorMiddle(Xor(p, q), Xor(p', q'), r, r');
    XorMiddle(Xor(Xor(p, q), r), Xor(Xor(p', q'), r'), s, s');
    XorMiddle(Xor(Xor(Xor(p, q), r), s), Xor(Xor(Xor(p', q'), r'), s'), t, t');
  }

  /** One step is linear over GF(2) in the register and the value together. */
  lemma StepLinear(a: bv32, b: bv32, v: bv32, w: bv32)
    ensures Step(Xor(a, b), Xor(v, w)) == Xor(Step(a, v), Step(b, w))
  {
    hide Generator, Shifted, Xor;
    ShiftLinear(a, b);
    GeneratorLinear(a >> 25, b >> 25);
    XorMiddle(Shifted(a), Shifted(b), v, w);
    XorMiddle(Xor(Shifted(a), v), Xor(Shifted(b), w), Generator(a >> 25), Generator(b >> 25));
  }

  /** The low five bits of the generator combinations are all different. */
  lemma GeneratorLowBits(top: bv32)
    requires top < 32 && Generator(top) & 0x1f == 0
    ensures top == 0
  {
  }

  lemma TopBits(x: bv32)
    requires x < STATE_LIMIT
    ensures x >> 25 < 32
  {
  }

  lemma ShiftedLowBits(x: bv32)
    ensures Shifted(x) & 0x1f == 0
  {
  }

  lemma GeneratorZero()
    ensures Generator(0) == 0
  {
  }

  lemma ShiftedZero(x: bv32)
    requires x >> 25 == 0 && Shifted(x) == 0
    ensures x == 0
  {
  }

  lemma StepKernel(x: bv32)
    requires x < STATE_LIMIT && Step(x, 0) == 0
    ensures x == 0
  {
    hide Generator, Shifted, Xor;
    XorCancels(Shifted(x), Generator(x >> 25));
    TopBits(x);
    ShiftedLowBits(x);
    GeneratorLowBits(x >> 25);
    GeneratorZero();
    ShiftedZero(x);
  }

  lemma XorCancels(a: bv32, b: bv32)
    requires Xor(Xor(a, 0), b) == 0
    ensures a == b
  {
  }

  /** One step is injective on 30-bit registers. */
  lemma StepInjective(a: bv32, b: bv32, value: bv32)
    requires a < STATE_LIMIT && b < STATE_LIMIT && Step(a, value) == Step(b, value)
    ensures a == b
  {
    hide Step;
    StepLinear(a, b, value, value);
    XorSelf(value);
    XorSelf(Step(a, value));
    StepKernel(Xor(a, b));
  }

  // ----- sequences of values

  ghost predicate Small(values: seq<bv32>) {
    forall i :: 0 <= i < |values| ==> values[i] < 32
  }

  lemma {:induction false} FoldAppend(chk: bv32, a: seq<bv32>, b: seq<bv32>)
    ensures Fold(chk, a + b) == Fold(Fold(chk, a), b)
  {
    hide Step;
    if b == [] {
      assert a + b == a;
    } else {
      var n := |b| - 1;
      FoldAppend(chk, a, b[..n]);
      assert (a + b)[..|a + b| - 1] == a + b[..n];
    }
  }

  lemma {:induction false} FoldBounded(chk: bv32, values: seq<bv32>)
    requires chk < STATE_LIMIT && Small(values)
    ensures Fold(chk, values) < STATE_LIMIT
  {
    hide Step;
    if values != [] {
      StepBounded(Fold(chk, values[..|values| - 1]), values[|values| - 1]);
    }
  }

  lemma {:induction false} FoldInjective(a: bv32, b: bv32, values: seq<bv32>)
    requires a < STATE_LIMIT && b < STATE_LIMIT && Small(values) && a != b
    ensures Fold(a, values) != Fold(b, values)
  {
    hide Step;
    if values != [] {
      var n := |values| - 1;
      FoldInjective(a, b, values[..n]);
      FoldBounded(a, values[..n]);
      FoldBounded(b, values[..n]);
      if Step(Fold(a, values[..n]), values[n]) == Step(Fold(b, values[..n]), values[n]) {
        StepInjective(Fold(a, values[..n]), Fold(b, values[..n]), values[n]);
      }
    }
  }

  // ----- the emitted checksum

  const SIX_ZEROS: seq<bv32> := [0, 0, 0, 0, 0, 0]

  /** The six groups of a 30-bit word, highest first. */
  function Groups(word: bv32): (r: seq<bv32>)
    ensures |r| == 6 && Small(r)
  {
    [(word >> 25) & 0x1f, (word >> 20) & 0x1f, (word >> 15) & 0x1f, (word >> 10) & 0x1f, (word >> 5) & 0x1f,
     word & 0x1f]
  }

  function Checksum(values: seq<bv32>): bv32 {
    Xor(Polymod(values + SIX_ZEROS), BECH32M_CONST)
  }

  lemma {:induction false} FoldLinear(a: bv32, values: seq<bv32>, zeros: seq<bv32>)
    requires |zeros| == |values| && forall i :: 0 <= i < |zeros| ==> zeros[i] == 0
    ensures Fold(a, values) == Xor(Fold(a, zeros), Fold(0, values))
  {
    hide Step, Xor;
    if values == [] {
      XorNeutral(a);
    } else {
      var n := |values| - 1;
      FoldLinear(a, values[..n], zeros[..n]);
      var z, p := Fold(a, zeros[..n]), Fold(0, values[..n]);
      StepLinear(z, p, 0, values[n]);
      XorCommutes(0, values[n]);
      XorNeutral(values[n]);
    }
  }

  lemma NoTop(chk: bv32)
    requires chk < 0x0200_0000
    ensures chk >> 25 == 0
  {
  }

  /** Below 25 bits no generator word is taken. */
  lemma PlainStep(chk: bv32, value: bv32)
    requires chk < 0x0200_0000
    ensures Step(chk, value) == Xor(Shifted(chk), value)
  {
    hide Generator, Shifted, Xor;
    NoTop(chk);
    GeneratorZero();
    XorNeutral(Xor(Shifted(chk), value));
  }

  lemma ShiftIn5(word: bv32)
    requires word < STATE_LIMIT
    ensures Step(0, (word >> 25) & 0x1f) == word >> 25
  {
  }

  lemma Rejoin4(word: bv32)
    requires word < STATE_LIMIT
    ensures (((word >> 25) & 0x01ff_ffff) << 5) ^ ((word >> 20) & 0x1f) == word >> 20
  {
  }

  lemma Low4(word: bv32)
    requires word < STATE_LIMIT
    ensures word >> 25 < 0x0200_0000
  {
  }

  lemma ShiftIn4(word: bv32)
    requires word < STATE_LIMIT
    ensures Step(word >> 25, (word >> 20) & 0x1f) == word >> 20
  {
    hide Step;
    Low4(word);
    PlainStep(word >> 25, (word >> 20) & 0x1f);
    Rejoin4(word);
  }

  lemma Rejoin3(word: bv32)
    requires word < STATE_LIMIT
    ensures (((word >> 20) & 0x01ff_ffff) << 5) ^ ((word >> 15) & 0x1f) == word >> 15
  {
  }

  lemma Low3(word: bv32)
    requires word < STATE_LIMIT
    ensures word >> 20 < 0x0200_0000
  {
  }

  lemma ShiftIn3(word: bv32)
    requires word < STATE_LIMIT
    ensures Step(word >> 20, (word >> 15) & 0x1f) == word >> 15
  {
    hide Step;
    Low3(word);
    PlainStep(word >> 20, (word >> 15) & 0x1f);
    Rejoin3(word);
  }

  lemma Rejoin2(word: bv32)
    requires word < STATE_LIMIT
    ensures (((word >> 15) & 0x01ff_ffff) << 5) ^ ((word >> 10) & 0x1f) == word >> 10
  {
  }

  lemma Low2(word: bv32)
    requires word < STATE_LIMIT
    ensures word >> 15 < 0x0200_0000
  {
  }

  lemma ShiftIn2(word: bv32)
    requires word < STATE_LIMIT
    ensures Step(word >> 15, (word >> 10) & 0x1f) == word >> 10
  {
    hide Step;
    Low2(word);
    PlainStep(word >> 15, (word >> 10) & 0x1f);
    Rejoin2(word);
  }

  lemma Rejoin1(word: bv32)
    requires word < STATE_LIMIT
    ensures (((word >> 10) & 0x01ff_ffff) << 5) ^ ((word >> 5) & 0x1f) == word >> 5
  {
  }

  lemma Low1(word: bv32)
    requires word < STATE_LIMIT
    ensures word >> 10 < 0x0200_0000
  {
  }

  lemma ShiftIn1(word: bv32)
    requires word < STATE_LIMIT
    ensures Step(word >> 10, (word >> 5) & 0x1f) == word >> 5
  {
    hide Step;
    Low1(word);
    PlainStep(word >> 10, (word >> 5) & 0x1f);
    Rejoin1(word);
  }

  lemma Rejoin0(word: bv32)
    requires word < STATE_LIMIT
    ensures (((word >> 5) & 0x01ff_ffff) << 5) ^ (word & 0x1f) == word
  {
  }

  lemma Low0(word: bv32)
    requires word < STATE_LIMIT
    ensures word >> 5 < 0x0200_0000
  {
  }

  lemma ShiftIn0(word: bv32)
    requires word < STATE_LIMIT
    ensures Step(word >> 5, word & 0x1f) == word
  {
    hide Step;
    Low0(word);
    PlainStep(word >> 5, word & 0x1f);
    Rejoin0(word);
  }

  lemma FoldStep(chk: bv32, values: seq<bv32>, k: nat)
    requires k < |values|
    ensures Fold(chk, values[..k + 1]) == Step(Fold(chk, values[..k]), values[k])
  {
    assert values[..k + 1][..k] == values[..k];
  }

  /** Feeding the groups of a word into an empty register rebuilds the word. */
  lemma GroupsRebuild(word: bv32)
    requires word < STATE_LIMIT
    ensures Fold(0, Groups(word)) == word
  {
    assert Fold(0, Groups(word)[..0]) == 0;
    GroupsRebuildFrom(word, Groups(word));
  }

  lemma GroupsRebuildFrom(word: bv32, g: seq<bv32>)
    requires word < STATE_LIMIT && g == Groups(word) && Fold(0, g[..0]) == 0
    ensures Fold(0, g) == word
  {
    hide Step, Fold;
    FoldStep(0, g, 0);
    FoldStep(0, g, 1);
    FoldStep(0, g, 2);
    FoldStep(0, g, 3);
    FoldStep(0, g, 4);
    FoldStep(0, g, 5);
    ShiftIn5(word);
    ShiftIn4(word);
    ShiftIn3(word);
    ShiftIn2(word);
    ShiftIn1(word);
    ShiftIn0(word);
    assert g[..6] == g;
  }

  lemma BoundedXor(a: bv32, b: bv32)
    requires a < STATE_LIMIT && b < STATE_LIMIT
    ensures Xor(a, b) < STATE_LIMIT
  {
  }

  /** Appending the emitted checksum groups always brings the register to the bech32m constant. */
  lemma ChecksumVerifies(values: seq<bv32>)
    requires Small(values)
    ensures Polymod(values + Groups(Checksum(values))) == BECH32M_CONST
  {
    hide Step, Fold, Groups, Xor;
    var c := Polymod(values);
    FoldAppend(1, values, SIX_ZEROS);
    FoldBounded(1, values);
    FoldBounded(c, SIX_ZEROS);
    var z := Fold(c, SIX_ZEROS);
    BoundedXor(z, BECH32M_CONST);
    var word := Checksum(values);
    FoldAppend(1, values, Groups(word));
    FoldLinear(c, Groups(word), SIX_ZEROS);
    GroupsRebuild(word);
    XorAssociates(z, z, BECH32M_CONST);
    XorSelf(z);
    XorCommutes(0, BECH32M_CONST);
    XorNeutral(BECH32M_CONST);
  }

  // ----- the checksum is the only one

  /** Six groups hold exactly a 30-bit register, so at most five leave room for another. */
  function Room(count: nat): bv32 {
    if count == 0 then 1 else if count == 1 then 0x20 else if count == 2 then 0x400 else if count == 3 then 0x8000
    else if count == 4 then 0x10_0000 else 0x0200_0000
  }

  lemma ShiftRoom(x: bv32, v: bv32, count: nat)
    requires count < 5 && x < Room(count) && v < 32
    ensures Xor(Shifted(x), v) < Room(count + 1)
  {
  }

  lemma RoomLimit(count: nat)
    ensures Room(count) <= 0x0200_0000
  {
  }

  lemma EmptyRoom()
    ensures 0 < Room(0)
  {
  }

  lemma Fits(x: bv32, count: nat)
    requires x < Room(count)
    ensures x < 0x0200_0000
  {
  }

  lemma RoomStep(x: bv32, v: bv32, count: nat)
    requires count < 5 && x < Room(count) && v < 32
    ensures Step(x, v) < Room(count + 1)
  {
    hide Step, Shifted, Xor, Room;
    Fits(x, count);
    PlainStep(x, v);
    ShiftRoom(x, v, count);
  }

  lemma {:induction false} ShortFold(values: seq<bv32>)
    requires |values| <= 5 && Small(values)
    ensures Fold(0, values) < Room(|values|)
  {
    hide Step, Shifted, Xor, Room;
    if values == [] {
      EmptyRoom();
    } else {
      var n := |values| - 1;
      ShortFold(values[..n]);
      RoomStep(Fold(0, values[..n]), values[n], n);
    }
  }

  lemma PlainSeparates(x: bv32, y: bv32, v: bv32, w: bv32)
    requires x < 0x0200_0000 && y < 0x0200_0000 && v < 32 && w < 32 && Xor(Shifted(x), v) == Xor(Shifted(y), w)
    ensures x == y && v == w
  {
  }

  lemma {:induction false} ShortInjective(a: seq<bv32>, b: seq<bv32>)
    requires |a| == |b| <= 6 && Small(a) && Small(b) && Fold(0, a) == Fold(0, b)
    ensures a == b
  {
    hide Step, Shifted, Xor, Room;
    if a != [] {
      var n := |a| - 1;
      var x, y := Fold(0, a[..n]), Fold(0, b[..n]);
      ShortFold(a[..n]);
      ShortFold(b[..n]);
      RoomLimit(n);
      PlainStep(x, a[n]);
      PlainStep(y, b[n]);
      PlainSeparates(x, y, a[n], b[n]);
      ShortInjective(a[..n], b[..n]);
      assert a == a[..n] + [a[n]] && b == b[..n] + [b[n]];
    }
  }

  lemma XorInjective(z: bv32, a: bv32, b: bv32)
    requires Xor(z, a) == Xor(z, b)
    ensures a == b
  {
  }

  /** Six groups bring the register to the bech32m constant exactly when they are the emitted ones. */
  lemma ChecksumUnique(values: seq<bv32>, tail: seq<bv32>)
    requires Small(values) && |tail| == 6 && Small(tail)
    ensures Polymod(values + tail) == BECH32M_CONST <==> tail == Groups(Checksum(values))
  {
    hide Step, Fold, Groups, Xor, Checksum;
    ChecksumVerifies(values);
    var own, c := Groups(Checksum(values)), Polymod(values);
    if Polymod(values + tail) == BECH32M_CONST {
      FoldAppend(1, values, tail);
      FoldAppend(1, values, own);
      FoldLinear(c, tail, SIX_ZEROS);
      FoldLinear(c, own, SIX_ZEROS);
      XorInjective(Fold(c, SIX_ZEROS), Fold(0, tail), Fold(0, own));
      ShortInjective(tail, own);
    }
  }

  // ----- error detection

  /** From any register, different stretches of up to six values lead to different registers. */
  lemma BurstSeparates(chk: bv32, a: seq<bv32>, b: seq<bv32>)
    requires Small(a) && Small(b) && |a| == |b| <= 6 && a != b
    ensures Fold(chk, a) != Fold(chk, b)
  {
    hide Step, Fold, Xor, Small;
    var zeros: seq<bv32> := seq(|a|, _ => 0);
    FoldLinear(chk, a, zeros);
    FoldLinear(chk, b, zeros);
    if Fold(chk, a) == Fold(chk, b) {
      XorInjective(Fold(chk, zeros), Fold(0, a), Fold(0, b));
      ShortInjective(a, b);
    }
  }

  /** Any change confined to six consecutive values, at any position of a sequence of any length, changes the
      checksum. */
  lemma BurstDetected(before: seq<bv32>, a: seq<bv32>, b: seq<bv32>, after: seq<bv32>)
    requires Small(before) && Small(a) && Small(b) && Small(after) && |a| == |b| <= 6 && a != b
    ensures Polymod(before + a + after) != Polymod(before + b + after)
  {
    hide Step, Fold, Small;
    var c := Fold(1, before);
    FoldBounded(1, before);
    FoldBounded(c, a);
    FoldBounded(c, b);
    BurstSeparates(c, a, b);
    FoldInjective(Fold(c, a), Fold(c, b), after);
    FoldAppend(1, before, a);
    FoldAppend(1, before, b);
    FoldAppend(1, before + a, after);
    FoldAppend(1, before + b, after);
  }

  /** In particular changing any single value does. */
  lemma SingleErrorDetected(values: seq<bv32>, i: nat, wrong: bv32)
    requires Small(values) && i < |values| && wrong < 32 && wrong != values[i]
    ensures Polymod(values[i := wrong]) != Polymod(values)
  {
    hide Fold;
    var before, after := values[..i], values[i + 1..];
    assert values == before + [values[i]] + after;
    assert values[i := wrong] == before + [wrong] + after;
    assert [wrong][0] != [values[i]][0];
    BurstDetected(before, [values[i]], [wrong], after);
  }
}
