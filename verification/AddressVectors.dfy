/** The published test vectors of the standard: they fix the checksum constant, the generator words, the character set,
    the expansion and the regrouping; BIP-350, sections "Test vectors for Bech32m" and "Test vectors for v0-v16 native
    segregated witness addresses". */
module AddressVectors {
  import opened Wrappers
  import opened Bech32m
  import opened FiveBit
  import opened Segwit

  // ----- feeding and reading a few groups

  /** From register `from`, the groups lead to register `to`. */
  ghost predicate Feeds(from: bv32, groups: seq<nat>, to: bv32) {
    Below(groups, 32) && Fold(from, Words(groups)) == to
  }

  lemma FeedsAppend(from: bv32, a: seq<nat>, mid: bv32, b: seq<nat>, to: bv32)
    requires Feeds(from, a, mid) && Feeds(mid, b, to)
    ensures Feeds(from, a + b, to)
  {
    hide Fold, Words;
    WordsAppend(a, b);
    FoldAppend(from, Words(a), Words(b));
  }

  lemma Generators0()
    ensures Generator(0) == 0 && Generator(1) == 0x3b6a_57b2
    ensures Generator(2) == 0x2650_8e6d && Generator(3) == 0x1d3a_d9df
    ensures Generator(4) == 0x1ea1_19fa && Generator(5) == 0x25cb_4e48
    ensures Generator(6) == 0x38f1_9797 && Generator(7) == 0x039b_c025
  {
  }

  lemma Generators1()
    ensures Generator(8) == 0x3d42_33dd && Generator(9) == 0x0628_646f
    ensures Generator(10) == 0x1b12_bdb0 && Generator(11) == 0x2078_ea02
    ensures Generator(12) == 0x23e3_2a27 && Generator(13) == 0x1889_7d95
    ensures Generator(14) == 0x05b3_a44a && Generator(15) == 0x3ed9_f3f8
  {
  }

  lemma Generators2()
    ensures Generator(16) == 0x2a14_62b3 && Generator(17) == 0x117e_3501
    ensures Generator(18) == 0x0c44_ecde && Generator(19) == 0x372e_bb6c
    ensures Generator(20) == 0x34b5_7b49 && Generator(21) == 0x0fdf_2cfb
    ensures Generator(22) == 0x12e5_f524 && Generator(23) == 0x298f_a296
  {
  }

  lemma Generators3()
    ensures Generator(24) == 0x1756_516e && Generator(25) == 0x2c3c_06dc
    ensures Generator(26) == 0x3106_df03 && Generator(27) == 0x0a6c_88b1
    ensures Generator(28) == 0x09f7_4894 && Generator(29) == 0x329d_1f26
    ensures Generator(30) == 0x2fa7_c6f9 && Generator(31) == 0x14cd_914b
  {
  }

  lemma Words0()
    ensures Word(0) == 0 && Word(1) == 1 && Word(2) == 2 && Word(3) == 3
    ensures Word(4) == 4 && Word(5) == 5 && Word(6) == 6 && Word(7) == 7
    ensures Word(8) == 8 && Word(9) == 9 && Word(10) == 10 && Word(11) == 11
    ensures Word(12) == 12 && Word(13) == 13 && Word(14) == 14 && Word(15) == 15
  {
  }

  lemma Words1()
    ensures Word(16) == 16 && Word(17) == 17 && Word(18) == 18 && Word(19) == 19
    ensures Word(20) == 20 && Word(21) == 21 && Word(22) == 22 && Word(23) == 23
    ensures Word(24) == 24 && Word(25) == 25 && Word(26) == 26 && Word(27) == 27
    ensures Word(28) == 28 && Word(29) == 29 && Word(30) == 30 && Word(31) == 31
  {
  }

  lemma Symbols0()
    ensures Group('q') == Some(0) && Group('p') == Some(1) && Group('z') == Some(2) && Group('r') == Some(3)
    ensures Group('y') == Some(4) && Group('9') == Some(5) && Group('x') == Some(6) && Group('8') == Some(7)
  {
  }

  lemma Symbols1()
    ensures Group('g') == Some(8) && Group('f') == Some(9) && Group('2') == Some(10) && Group('t') == Some(11)
    ensures Group('v') == Some(12) && Group('d') == Some(13) && Group('w') == Some(14) && Group('0') == Some(15)
  {
  }

  lemma Symbols2()
    ensures Group('s') == Some(16) && Group('3') == Some(17) && Group('j') == Some(18) && Group('n') == Some(19)
    ensures Group('5') == Some(20) && Group('4') == Some(21) && Group('k') == Some(22) && Group('h') == Some(23)
  {
  }

  lemma Symbols3()
    ensures Group('c') == Some(24) && Group('e') == Some(25) && Group('6') == Some(26) && Group('m') == Some(27)
    ensures Group('u') == Some(28) && Group('a') == Some(29) && Group('7') == Some(30) && Group('l') == Some(31)
  {
  }

  // ----- one, two or four groups more

  /** The groups lead from one register to another, and the text spells them. */
  ghost predicate Spelt(from: bv32, groups: seq<nat>, to: bv32, text: string) {
    Feeds(from, groups, to) && Read(text) == Some(groups)
  }

  lemma {:induction false} ReadAppend(a: string, b: string)
    requires Read(a).Some? && Read(b).Some?
    ensures Read(a + b) == Some(Read(a).value + Read(b).value)
  {
    hide Group, Read;
    if a == [] {
      assert a + b == b;
      NothingRead(b);
    } else {
      ReadHead(a);
      ReadAppend(a[1..], b);
      assert (a + b)[0] == a[0] && (a + b)[1..] == a[1..] + b;
      ReadHead(a + b);
      Joined(Group(a[0]).value, Read(a[1..]).value, Read(b).value);
    }
  }

  lemma NothingRead(b: string)
    requires Read(b).Some?
    ensures Read("") == Some([]) && [] + Read(b).value == Read(b).value
  {
    hide Group;
  }

  lemma ReadHead(s: string)
    requires s != []
    ensures Read(s) == if Group(s[0]).Some? && Read(s[1..]).Some? then Some([Group(s[0]).value] + Read(s[1..]).value)
      else None
  {
    hide Group;
  }

  lemma Joined(g: nat, x: seq<nat>, y: seq<nat>)
    ensures [g] + (x + y) == [g] + x + y
  {
  }

  lemma Nothing(from: bv32)
    ensures Spelt(from, [], from, "")
  {
  }

  lemma One(from: bv32, g: seq<nat>, to: bv32, t: string, a: nat, c: char, p: bv32)
    requires Spelt(from, g, to, t)
    requires a < 32 && Group(c) == Some(a) && Step(to, Word(a)) == p
    ensures Spelt(from, g + [a], p, t + [c])
  {
    hide Step, Word, Group;
    var w := Words([a]);
    FoldStep(to, w, 0);
    assert w[..1] == w && Fold(to, w[..0]) == to;
    FeedsAppend(from, g, to, [a], p);
    assert [c][1..] == [] && Read([]) == Some([]);
    assert [a] + [] == [a];
    ReadAppend(t, [c]);
  }

  lemma Two(from: bv32, g: seq<nat>, to: bv32, t: string, a: nat, b: nat, c: char, d: char, p: bv32, q: bv32)
    requires Spelt(from, g, to, t)
    requires a < 32 && Group(c) == Some(a) && Step(to, Word(a)) == p
    requires b < 32 && Group(d) == Some(b) && Step(p, Word(b)) == q
    ensures Spelt(from, g + [a, b], q, t + [c, d])
  {
    hide Step, Word, Group, Spelt;
    One(from, g, to, t, a, c, p);
    One(from, g + [a], p, t + [c], b, d, q);
    assert g + [a] + [b] == g + [a, b] && t + [c] + [d] == t + [c, d];
  }

  lemma Four(from: bv32, g: seq<nat>, to: bv32, t: string, a: nat, b: nat, a': nat, b': nat, c: char, d: char, c': char,
             d': char, p: bv32, q: bv32, r: bv32, s: bv32)
    requires Spelt(from, g, to, t)
    requires a < 32 && Group(c) == Some(a) && Step(to, Word(a)) == p
    requires b < 32 && Group(d) == Some(b) && Step(p, Word(b)) == q
    requires a' < 32 && Group(c') == Some(a') && Step(q, Word(a')) == r
    requires b' < 32 && Group(d') == Some(b') && Step(r, Word(b')) == s
    ensures Spelt(from, g + [a, b, a', b'], s, t + [c, d, c', d'])
  {
    hide Step, Word, Group, Spelt;
    Two(from, g, to, t, a, b, c, d, p, q);
    Two(from, g + [a, b], q, t + [c, d], a', b', c', d', r, s);
    assert g + [a, b] + [a', b'] == g + [a, b, a', b'];
    assert t + [c, d] + [c', d'] == t + [c, d, c', d'];
  }

  // ----- a1lqfn3a

  const SHORTEST_GROUPS: seq<nat> :=
    [31, 0, 9, 19] + [17, 29]

  const SHORTEST_TEXT: string :=
    "lqfn" + "3a"

  lemma ShortestPartExpanded()
    ensures ByteText("a") && Expanded("a") == [] + [3, 0] + [1]
  {
  }

  lemma ShortestPartFed()
    ensures Spelt(1, [] + [3, 0] + [1], 35841, "" + "rq" + "p")
  {
    Generators0();
    Generators1();
    Generators2();
    Generators3();
    Words0();
    Words1();
    Symbols0();
    Symbols1();
    Symbols2();
    Symbols3();
    hide Generator, Word, Group, Spelt;
    Nothing(1);
    var g: seq<nat>, t := [], "";
    Two(1, g, 1, t, 3, 0, 'r', 'q', 35, 1120);
    g, t := g + [3, 0], t + "rq";
    One(1, g, 1120, t, 1, 'p', 35841);
    g, t := g + [1], t + "p";
    assert g == [] + [3, 0] + [1] && t == "" + "rq" + "p";
  }

  lemma ShortestPart()
    ensures ByteText("a") && Feeds(1, Expanded("a"), 35841)
  {
    hide Expanded, Feeds, Read;
    ShortestPartExpanded();
    ShortestPartFed();
  }

  lemma ShortestPayload()
    ensures Spelt(35841, SHORTEST_GROUPS, 0x2bc8_30a3, SHORTEST_TEXT)
  {
    Generators0();
    Generators1();
    Generators2();
    Generators3();
    Words0();
    Words1();
    Symbols0();
    Symbols1();
    Symbols2();
    Symbols3();
    hide Generator, Word, Group, Spelt;
    Nothing(35841);
    var g: seq<nat>, t := [], "";
    Four(35841, g, 35841, t, 31, 0, 9, 19, 'l', 'q', 'f', 'n', 0x0011_803f, 0x0230_07e0, 0x3d6a_abbb, 0x02f2_b18a);
    g, t := g + [31, 0, 9, 19], t + "lqfn";
    Two(35841, g, 0x02f2_b18a, t, 17, 29, '3', 'a', 0x253c_66e3, 0x2bc8_30a3);
    g, t := g + [17, 29], t + "3a";
    assert g == SHORTEST_GROUPS && t == SHORTEST_TEXT;
  }

  /** The shortest valid text: nothing but the checksum of its human-readable part. */
  lemma ShortestVector()
    ensures ByteText("a") && Below(Expanded("a"), 32) && Below([], 32)
    ensures Below(Sealed("a", []), 32) && Text(Sealed("a", [])) == SHORTEST_TEXT
  {
    hide Fold, Words, Expanded, Sealed, Read;
    ShortestPart();
    ShortestPayload();
    Nothing(35841);
    SealedIs("a", [], SHORTEST_GROUPS, 35841, 35841);
    TextRead(SHORTEST_TEXT);
  }

  /** A tail that leads to the constant is the emitted checksum. */
  lemma SealedIs(hrp: string, data: seq<nat>, tail: seq<nat>, p: bv32, q: bv32)
    requires ByteText(hrp) && |tail| == 6
    requires Feeds(1, Expanded(hrp), p) && Feeds(p, data, q) && Feeds(q, tail, BECH32M_CONST)
    ensures Below(Expanded(hrp), 32) && Below(data, 32) && Below(tail, 32) && tail == Sealed(hrp, data)
  {
    hide Expanded, Sealed, Fold, Words;
    FeedsAppend(p, data, q, tail, BECH32M_CONST);
    FeedsAppend(1, Expanded(hrp), p, data + tail, BECH32M_CONST);
    ChecksumExact(hrp, data, tail);
  }

  // ----- abcdef1l7aum6echk45nj3s0wdvt2fg8x9yrzpqzd3ryx

  const DESCENDING_GROUPS: seq<nat> :=
    [31, 30, 29, 28] + [27, 26, 25, 24] + [23, 22, 21, 20] + [19, 18, 17, 16] + [15, 14, 13, 12] +
    [11, 10, 9, 8] + [7, 6, 5, 4] + [3, 2, 1, 0]

  const DESCENDING_TEXT: string :=
    "l7au" + "m6ec" + "hk45" + "nj3s" + "0wdv" + "t2fg" + "8x9y" + "rzpq"

  const DESCENDING_SEAL_GROUPS: seq<nat> :=
    [2, 13, 17, 3] + [4, 6]

  const DESCENDING_SEAL_TEXT: string :=
    "zd3r" + "yx"

  lemma DescendingPartExpanded()
    ensures ByteText("abcdef") && Expanded("abcdef") == [] + [3, 3, 3, 3] + [3, 3, 0, 1] + [2, 3, 4, 5] + [6]
  {
  }

  lemma DescendingPartFed()
    ensures Spelt(1, [] + [3, 3, 3, 3] + [3, 3, 0, 1] + [2, 3, 4, 5] + [6], 0x3be8_0e6a,
                  "" + "rrrr" + "rrqp" + "zry9" + "x")
  {
    Generators0();
    Generators1();
    Generators2();
    Generators3();
    Words0();
    Words1();
    Symbols0();
    Symbols1();
    Symbols2();
    Symbols3();
    hide Generator, Word, Group, Spelt;
    Nothing(1);
    var g: seq<nat>, t := [], "";
    Four(1, g, 1, t, 3, 3, 3, 3, 'r', 'r', 'r', 'r', 35, 1123, 35939, 0x0011_8c63);
    g, t := g + [3, 3, 3, 3], t + "rrrr";
    Four(1, g, 0x0011_8c63, t, 3, 3, 0, 1, 'r', 'r', 'q', 'p', 0x0231_8c63, 0x3d5b_dbd1, 0x04dc_bcd9, 0x3dc7_154c);
    g, t := g + [3, 3, 0, 1], t + "rrqp";
    Four(1, g, 0x3dc7_154c, t, 2, 3, 4, 5, 'z', 'r', 'y', '9', 0x1745_6f7b, 0x08d5_0561, 0x0401_b5de, 0x2666_35a8);
    g, t := g + [2, 3, 4, 5], t + "zry9";
    One(1, g, 0x2666_35a8, t, 6, 'x', 0x3be8_0e6a);
    g, t := g + [6], t + "x";
    assert g == [] + [3, 3, 3, 3] + [3, 3, 0, 1] + [2, 3, 4, 5] + [6] && t == "" + "rrrr" + "rrqp" + "zry9" + "x";
  }

  lemma DescendingPart()
    ensures ByteText("abcdef") && Feeds(1, Expanded("abcdef"), 0x3be8_0e6a)
  {
    hide Expanded, Feeds, Read;
    DescendingPartExpanded();
    DescendingPartFed();
  }

  lemma DescendingData()
    ensures Spelt(0x3be8_0e6a, DESCENDING_GROUPS, 0x0cd4_2356, DESCENDING_TEXT)
  {
    Generators0();
    Generators1();
    Generators2();
    Generators3();
    Words0();
    Words1();
    Symbols0();
    Symbols1();
    Symbols2();
    Symbols3();
    hide Generator, Word, Group, Spelt;
    Nothing(0x3be8_0e6a);
    var g: seq<nat>, t := [], "";
    Four(0x3be8_0e6a, g, 0x3be8_0e6a, t, 31, 30, 29, 28, 'l', '7', 'a', 'u', 0x0f9c_d279, 0x3001_8f1b, 0x1767_b213,
         0x0c8e_a87e);
    g, t := g + [31, 30, 29, 28], t + "l7au";
    Four(0x3be8_0e6a, g, 0x0c8e_a87e, t, 27, 26, 25, 24, 'm', '6', 'e', 'c', 0x2924_984c, 0x1026_72d3, 0x398c_69a4,
         0x387a_7c0c);
    g, t := g + [27, 26, 25, 24], t + "m6ec";
    Four(0x3be8_0e6a, g, 0x387a_7c0c, t, 23, 22, 21, 20, 'h', 'k', '4', '5', 0x06b8_c903, 0x0a23_f9a9, 0x21b4_7b7d,
         0x1c9b_0d07);
    g, t := g + [23, 22, 21, 20], t + "hk45";
    Four(0x3be8_0e6a, g, 0x1c9b_0d07, t, 19, 18, 17, 16, 'n', 'j', '3', 's', 0x16d2_04b9, 0x3a38_7d30, 0x3592_b937,
         0x0351_f9f3);
    g, t := g + [19, 18, 17, 16], t + "nj3s";
    Four(0x3be8_0e6a, g, 0x0351_f9f3, t, 15, 14, 13, 12, '0', 'w', 'd', 'v', 0x1155_69dd, 0x17ef_0873, 0x1d99_e46f,
         0x368f_29a6);
    g, t := g + [15, 14, 13, 12], t + "0wdv";
    Four(0x3be8_0e6a, g, 0x368f_29a6, t, 11, 10, 9, 8, 't', '2', 'f', 'g', 0x1b89_bc7a, 0x29be_f2df, 0x036b_20a0,
         0x160e_43ba);
    g, t := g + [11, 10, 9, 8], t + "t2fg";
    Four(0x3be8_0e6a, g, 0x160e_43ba, t, 7, 6, 5, 4, '8', 'x', '9', 'y', 0x21b0_9d45, 0x1c07_ca15, 0x054a_e6ef,
         0x0f0c_5389);
    g, t := g + [7, 6, 5, 4], t + "8x9y";
    Four(0x3be8_0e6a, g, 0x0f0c_5389, t, 3, 2, 1, 0, 'r', 'z', 'p', 'q', 0x2211_b106, 0x1348_15c3, 0x2f2a_dc0e,
         0x0cd4_2356);
    g, t := g + [3, 2, 1, 0], t + "rzpq";
    assert g == DESCENDING_GROUPS && t == DESCENDING_TEXT;
  }

  lemma DescendingSeal()
    ensures Spelt(0x0cd4_2356, DESCENDING_SEAL_GROUPS, 0x2bc8_30a3, DESCENDING_SEAL_TEXT)
  {
    Generators0();
    Generators1();
    Generators2();
    Generators3();
    Words0();
    Words1();
    Symbols0();
    Symbols1();
    Symbols2();
    Symbols3();
    hide Generator, Word, Group, Spelt;
    Nothing(0x0cd4_2356);
    var g: seq<nat>, t := [], "";
    Four(0x0cd4_2356, g, 0x0cd4_2356, t, 2, 13, 17, 3, 'z', 'd', '3', 'r', 0x2275_fd55, 0x1fc1_9fac, 0x06ea_0669,
         0x007a_14fc);
    g, t := g + [2, 13, 17, 3], t + "zd3r";
    Two(0x0cd4_2356, g, 0x007a_14fc, t, 4, 6, 'y', 'x', 0x0f42_9f84, 0x2bc8_30a3);
    g, t := g + [4, 6], t + "yx";
    assert g == DESCENDING_SEAL_GROUPS && t == DESCENDING_SEAL_TEXT;
  }

  /** All 32 groups in descending order, so that every symbol occurs, under the checksum of `abcdef`. */
  lemma DescendingVector()
    ensures |DESCENDING_GROUPS| == 32 && forall i :: 0 <= i < 32 ==> DESCENDING_GROUPS[i] == 31 - i
    ensures ByteText("abcdef") && Below(Expanded("abcdef"), 32) && Below(DESCENDING_GROUPS, 32)
    ensures Text(DESCENDING_GROUPS) == DESCENDING_TEXT
    ensures Below(Sealed("abcdef", DESCENDING_GROUPS), 32)
    ensures Text(Sealed("abcdef", DESCENDING_GROUPS)) == DESCENDING_SEAL_TEXT
  {
    assert |DESCENDING_GROUPS| == 32 && forall i :: 0 <= i < 32 ==> DESCENDING_GROUPS[i] == 31 - i;
    hide Fold, Words, Expanded, Sealed, Read, Text;
    DescendingPart();
    DescendingData();
    DescendingSeal();
    SealedIs("abcdef", DESCENDING_GROUPS, DESCENDING_SEAL_GROUPS, 0x3be8_0e6a, 0x0cd4_2356);
    TextRead(DESCENDING_TEXT);
    TextRead(DESCENDING_SEAL_TEXT);
  }

  // ----- bc1p0xlxvlhemja6c4dqv22uapctqupfhlxm9h8z3k2e72q4k9hcz7vqzk5jj0

  /** The first coordinate of the generator of secp256k1. */
  const GENERATOR_X: seq<nat> :=
    [0x79, 0xbe, 0x66, 0x7e, 0xf9] + [0xdc, 0xbb, 0xac, 0x55, 0xa0] + [0x62, 0x95, 0xce, 0x87, 0x0b] +
    [0x07, 0x02, 0x9b, 0xfc, 0xdb] + [0x2d, 0xce, 0x28, 0xd9, 0x59] + [0xf2, 0x81, 0x5b, 0x16, 0xf8] + [0x17, 0x98]

  const GENERATOR_GROUPS: seq<nat> :=
    [15, 6, 31, 6] + [12, 31, 23, 25] + [27, 18, 29, 26] + [24, 21, 13, 0] + [12, 10, 10, 28] +
    [29, 1, 24, 11] + [0, 28, 1, 9] + [23, 31, 6, 27] + [5, 23, 7, 2] + [17, 22, 10, 25] + [30, 10, 0, 21] +
    [22, 5, 23, 24] + [2, 30, 12, 0]

  const GENERATOR_TEXT: string :=
    "0xlx" + "vlhe" + "mja6" + "c4dq" + "v22u" + "apct" + "qupf" + "hlxm" + "9h8z" + "3k2e" + "72q4" + "k9hc" +
    "z7vq"

  const GENERATOR_SEAL_GROUPS: seq<nat> :=
    [2, 22, 20, 18] + [18, 15]

  const GENERATOR_SEAL_TEXT: string :=
    "zk5j" + "j0"

  lemma TaprootPartExpanded()
    ensures ByteText("bc") && Expanded("bc") == [] + [3, 3, 0, 2] + [3]
  {
  }

  lemma TaprootPartFed()
    ensures Spelt(1, [] + [3, 3, 0, 2] + [3], 0x0231_8043, "" + "rrqz" + "r")
  {
    Generators0();
    Generators1();
    Generators2();
    Generators3();
    Words0();
    Words1();
    Symbols0();
    Symbols1();
    Symbols2();
    Symbols3();
    hide Generator, Word, Group, Spelt;
    Nothing(1);
    var g: seq<nat>, t := [], "";
    Four(1, g, 1, t, 3, 3, 0, 2, 'r', 'r', 'q', 'z', 35, 1123, 35936, 0x0011_8c02);
    g, t := g + [3, 3, 0, 2], t + "rrqz";
    One(1, g, 0x0011_8c02, t, 3, 'r', 0x0231_8043);
    g, t := g + [3], t + "r";
    assert g == [] + [3, 3, 0, 2] + [3] && t == "" + "rrqz" + "r";
  }

  lemma TaprootPart()
    ensures ByteText("bc") && Feeds(1, Expanded("bc"), 0x0231_8043)
  {
    hide Expanded, Feeds, Read;
    TaprootPartExpanded();
    TaprootPartFed();
  }

  const FRONT_GROUPS: seq<nat> :=
    [15, 6, 31, 6] + [12, 31, 23, 25] + [27, 18, 29, 26] + [24, 21, 13, 0] + [12, 10, 10, 28] + [29, 1, 24, 11]

  const FRONT_TEXT: string :=
    "0xlx" + "vlhe" + "mja6" + "c4dq" + "v22u" + "apct"

  const BACK_GROUPS: seq<nat> :=
    [0, 28, 1, 9] + [23, 31, 6, 27] + [5, 23, 7, 2] + [17, 22, 10, 25] + [30, 10, 0, 21] + [22, 5, 23, 24] +
    [2, 30, 12, 0]

  const BACK_TEXT: string :=
    "qupf" + "hlxm" + "9h8z" + "3k2e" + "72q4" + "k9hc" + "z7vq"

  lemma TaprootFront()
    ensures Spelt(0x3d5a_5fd3, FRONT_GROUPS, 0x20c1_3389, FRONT_TEXT)
  {
    Generators0();
    Generators1();
    Generators2();
    Generators3();
    Words0();
    Words1();
    Symbols0();
    Symbols1();
    Symbols2();
    Symbols3();
    hide Generator, Word, Group, Spelt;
    Nothing(0x3d5a_5fd3);
    var g: seq<nat>, t := [], "";
    Four(0x3d5a_5fd3, g, 0x3d5a_5fd3, t, 15, 6, 31, 6, '0', 'x', 'l', 'x', 0x04ec_3c96, 0x3bd7_1cab, 0x087e_8a59,
         0x1170_52dc);
    g, t := g + [15, 6, 31, 6], t + "0xlx";
    Four(0x3d5a_5fd3, g, 0x1170_52dc, t, 12, 31, 23, 25, 'v', 'l', 'h', 'e', 0x1348_6851, 0x2f25_6e50, 0x0d22_6881,
         0x1cbc_87ae);
    g, t := g + [12, 31, 23, 25], t + "vlhe";
    Four(0x3d5a_5fd3, g, 0x1cbc_87ae, t, 27, 18, 29, 26, 'm', 'j', 'a', '6', 0x1223_5191, 0x0242_565d, 0x3320_9c0f,
         0x082f_8726);
    g, t := g + [27, 18, 29, 26], t + "mja6";
    Four(0x3d5a_5fd3, g, 0x082f_8726, t, 24, 21, 13, 0, 'c', '4', 'd', 'q', 0x1b51_fd22, 0x32b6_d9c0, 0x3ae7_3ed1,
         0x2e7a_c506);
    g, t := g + [24, 21, 13, 0], t + "c4dq";
    Four(0x3d5a_5fd3, g, 0x2e7a_c506, t, 12, 10, 10, 28, 'v', '2', '2', 'u', 0x26d7_025a, 0x2dce_f026, 0x2b3b_f1ee,
         0x28a1_1127);
    g, t := g + [12, 10, 10, 28], t + "v22u";
    Four(0x3d5a_5fd3, g, 0x28a1_1127, t, 29, 1, 24, 11, 'a', 'p', 'c', 't', 0x2097_5fb4, 0x38ff_9432, 0x1605_cecc,
         0x20c1_3389);
    g, t := g + [29, 1, 24, 11], t + "apct";
    assert g == FRONT_GROUPS && t == FRONT_TEXT;
  }

  lemma TaprootBack()
    ensures Spelt(0x20c1_3389, BACK_GROUPS, 0x192c_5247, BACK_TEXT)
  {
    Generators0();
    Generators1();
    Generators2();
    Generators3();
    Words0();
    Words1();
    Symbols0();
    Symbols1();
    Symbols2();
    Symbols3();
    hide Generator, Word, Group, Spelt;
    Nothing(0x20c1_3389);
    var g: seq<nat>, t := [], "";
    Four(0x20c1_3389, g, 0x20c1_3389, t, 0, 28, 1, 9, 'q', 'u', 'p', 'f', 0x3232_1393, 0x2a7e_74a0, 0x0011_b8fa,
         0x0237_1f49);
    g, t := g + [0, 28, 1, 9], t + "qupf";
    Four(0x20c1_3389, g, 0x0237_1f49, t, 23, 31, 6, 27, 'h', 'l', 'x', 'm', 0x3d89_be85, 0x1e90_1646, 0x2cdb_3b3e,
         0x0982_92ff);
    g, t := g + [23, 31, 6, 27], t + "hlxm";
    Four(0x20c1_3389, g, 0x0982_92ff, t, 5, 23, 7, 2, '9', 'h', '8', 'z', 0x2ef3_461f, 0x37e7_6161, 0x3680_a496,
         0x1a78_1a73);
    g, t := g + [5, 23, 7, 2], t + "9h8z";
    Four(0x20c1_3389, g, 0x1a78_1a73, t, 17, 22, 10, 25, '3', 'k', '2', 'e', 0x178a_33e4, 0x113e_9694, 0x1a90_e157,
         0x0a95_576c);
    g, t := g + [17, 22, 10, 25], t + "3k2e";
    Four(0x20c1_3389, g, 0x0a95_576c, t, 30, 10, 0, 21, '7', '2', 'q', '4', 0x3761_a3d6, 0x2658_f27b, 0x3c30_f40c,
         0x29b9_476c);
    g, t := g + [30, 10, 0, 21], t + "72q4";
    Four(0x20c1_3389, g, 0x29b9_476c, t, 22, 5, 23, 24, 'k', '9', 'h', 'c', 0x039d_96df, 0x08d8_8c57, 0x05b0_930d,
         0x1042_efd5);
    g, t := g + [22, 5, 23, 24], t + "k9hc";
    Four(0x20c1_3389, g, 0x1042_efd5, t, 2, 30, 12, 0, 'z', '7', 'v', 'q', 0x351f_c97f, 0x12ff_f0fd, 0x19d6_7bc3,
         0x192c_5247);
    g, t := g + [2, 30, 12, 0], t + "z7vq";
    assert g == BACK_GROUPS && t == BACK_TEXT;
  }

  lemma TaprootSeal()
    ensures Spelt(0x192c_5247, GENERATOR_SEAL_GROUPS, 0x2bc8_30a3, GENERATOR_SEAL_TEXT)
  {
    Generators0();
    Generators1();
    Generators2();
    Generators3();
    Words0();
    Words1();
    Symbols0();
    Symbols1();
    Symbols2();
    Symbols3();
    hide Generator, Word, Group, Spelt;
    Nothing(0x192c_5247);
    var g: seq<nat>, t := [], "";
    Four(0x192c_5247, g, 0x192c_5247, t, 2, 22, 20, 18, 'z', 'k', '5', 'j', 0x0669_62c5, 0x1016_8169, 0x3f92_1ee9,
         0x268e_4c79);
    g, t := g + [2, 22, 20, 18], t + "zk5j";
    Two(0x192c_5247, g, 0x268e_4c79, t, 18, 15, 'j', '0', 0x26e7_345e, 0x2bc8_30a3);
    g, t := g + [18, 15], t + "j0";
    assert g == GENERATOR_SEAL_GROUPS && t == GENERATOR_SEAL_TEXT;
  }

  lemma ValueOfFour(x: seq<nat>, base: nat, a: nat, b: nat, c: nat, d: nat)
    ensures Value(x + [a, b, c, d], base) == (((Value(x, base) * base + a) * base + b) * base + c) * base + d
  {
    hide Value;
    ValueStep(x, a, base);
    ValueStep(x + [a], b, base);
    ValueStep(x + [a] + [b], c, base);
    ValueStep(x + [a] + [b] + [c], d, base);
    assert x + [a, b, c, d] == x + [a] + [b] + [c] + [d];
  }

  lemma ValueOfFive(x: seq<nat>, a: nat, b: nat, c: nat, d: nat, e: nat)
    ensures Value(x + [a, b, c, d, e], 256) == ((((Value(x, 256) * 256 + a) * 256 + b) * 256 + c) * 256 + d) * 256 + e
  {
    hide Value;
    ValueOfFour(x, 256, a, b, c, d);
    ValueStep(x + [a, b, c, d], e, 256);
    assert x + [a, b, c, d, e] == x + [a, b, c, d] + [e];
  }

  /** Five bytes are eight groups. */
  lemma FiveAreEight(x: seq<nat>, y: seq<nat>, a: nat, b: nat, c: nat, d: nat, e: nat,
                     g0: nat, g1: nat, g2: nat, g3: nat, g4: nat, g5: nat, g6: nat, g7: nat)
    requires Value(x, 256) == Value(y, 32)
    requires (((a * 256 + b) * 256 + c) * 256 + d) * 256 + e
          == ((((((g0 * 32 + g1) * 32 + g2) * 32 + g3) * 32 + g4) * 32 + g5) * 32 + g6) * 32 + g7
    ensures Value(x + [a, b, c, d, e], 256) == Value(y + [g0, g1, g2, g3] + [g4, g5, g6, g7], 32)
  {
    hide Value;
    ValueOfFive(x, a, b, c, d, e);
    ValueOfFour(y, 32, g0, g1, g2, g3);
    ValueOfFour(y + [g0, g1, g2, g3], 32, g4, g5, g6, g7);
  }

  const GENERATOR_FRONT: seq<nat> :=
    [0x79, 0xbe, 0x66, 0x7e, 0xf9] + [0xdc, 0xbb, 0xac, 0x55, 0xa0] + [0x62, 0x95, 0xce, 0x87, 0x0b]

  lemma FrontValue()
    ensures Value(GENERATOR_FRONT, 256) == Value(FRONT_GROUPS, 32)
  {
    hide Value;
    EmptyValues();
    var x: seq<nat>, y: seq<nat> := [], [];
    FiveAreEight(x, y, 0x79, 0xbe, 0x66, 0x7e, 0xf9, 15, 6, 31, 6, 12, 31, 23, 25);
    x, y := x + [0x79, 0xbe, 0x66, 0x7e, 0xf9], y + [15, 6, 31, 6] + [12, 31, 23, 25];
    FiveAreEight(x, y, 0xdc, 0xbb, 0xac, 0x55, 0xa0, 27, 18, 29, 26, 24, 21, 13, 0);
    x, y := x + [0xdc, 0xbb, 0xac, 0x55, 0xa0], y + [27, 18, 29, 26] + [24, 21, 13, 0];
    FiveAreEight(x, y, 0x62, 0x95, 0xce, 0x87, 0x0b, 12, 10, 10, 28, 29, 1, 24, 11);
    x, y := x + [0x62, 0x95, 0xce, 0x87, 0x0b], y + [12, 10, 10, 28] + [29, 1, 24, 11];
    assert x == GENERATOR_FRONT && y == FRONT_GROUPS;
  }

  lemma GeneratorValue()
    ensures Value(GENERATOR_X, 256) * 16 == Value(GENERATOR_GROUPS, 32)
  {
    hide Value;
    FrontValue();
    var x: seq<nat>, y: seq<nat> := GENERATOR_FRONT, FRONT_GROUPS;
    FiveAreEight(x, y, 0x07, 0x02, 0x9b, 0xfc, 0xdb, 0, 28, 1, 9, 23, 31, 6, 27);
    x, y := x + [0x07, 0x02, 0x9b, 0xfc, 0xdb], y + [0, 28, 1, 9] + [23, 31, 6, 27];
    FiveAreEight(x, y, 0x2d, 0xce, 0x28, 0xd9, 0x59, 5, 23, 7, 2, 17, 22, 10, 25);
    x, y := x + [0x2d, 0xce, 0x28, 0xd9, 0x59], y + [5, 23, 7, 2] + [17, 22, 10, 25];
    FiveAreEight(x, y, 0xf2, 0x81, 0x5b, 0x16, 0xf8, 30, 10, 0, 21, 22, 5, 23, 24);
    x, y := x + [0xf2, 0x81, 0x5b, 0x16, 0xf8], y + [30, 10, 0, 21] + [22, 5, 23, 24];
    ValueOfFour(y, 32, 2, 30, 12, 0);
    ValueStep(x, 0x17, 256);
    ValueStep(x + [0x17], 0x98, 256);
    assert x + [0x17, 0x98] == x + [0x17] + [0x98];
    JoinedFront();
    assert GENERATOR_FRONT + [0x07, 0x02, 0x9b, 0xfc, 0xdb] + [0x2d, 0xce, 0x28, 0xd9, 0x59] + [0xf2, 0x81, 0x5b, 0x16,
        0xf8] + [0x17, 0x98] == x + [0x17, 0x98];
  }

  lemma JoinedFront()
    ensures GENERATOR_FRONT + [0x07, 0x02, 0x9b, 0xfc, 0xdb] + [0x2d, 0xce, 0x28, 0xd9, 0x59] + [0xf2, 0x81, 0x5b,
      0x16, 0xf8] + [0x17, 0x98] == GENERATOR_X
    ensures FRONT_GROUPS + [0, 28, 1, 9] + [23, 31, 6, 27] + [5, 23, 7, 2] + [17, 22, 10, 25] + [30, 10, 0, 21] + [22,
      5, 23, 24] + [2, 30, 12, 0] == GENERATOR_GROUPS
  {
  }

  lemma GeneratorRegrouped()
    ensures Program(GENERATOR_X) && Regrouped(GENERATOR_X) == GENERATOR_GROUPS
  {
    hide Value, Digits, Pow2;
    GeneratorBounds();
    GeneratorValue();
    SmallPowers();
    DigitsOfValue(GENERATOR_GROUPS, 32);
  }

  lemma GeneratorBounds()
    ensures |GENERATOR_X| == 32 && |GENERATOR_GROUPS| == 52 && Below(GENERATOR_X, 256) && Below(GENERATOR_GROUPS, 32)
  {
  }

  /** The taproot address of the generator, from the standard's list of valid addresses. */
  lemma TaprootVector()
    ensures ByteText("bc") && Program(GENERATOR_X)
    ensures Address("bc", GENERATOR_X) == "bc" + "1" + ("p" + GENERATOR_TEXT + GENERATOR_SEAL_TEXT)
  {
    hide Fold, Words, Expanded, Sealed, Read, Text, Regrouped;
    TaprootPart();
    TaprootVersion();
    TaprootFront();
    TaprootBack();
    TaprootSeal();
    GeneratorRegrouped();
    FeedsAppend(0x3d5a_5fd3, FRONT_GROUPS, 0x20c1_3389, BACK_GROUPS, 0x192c_5247);
    ReadAppend(FRONT_TEXT, BACK_TEXT);
    Halves();
    FeedsAppend(0x0231_8043, [1], 0x3d5a_5fd3, GENERATOR_GROUPS, 0x192c_5247);
    SealedIs("bc", Data(GENERATOR_X), GENERATOR_SEAL_GROUPS, 0x0231_8043, 0x192c_5247);
    ReadAppend("p", GENERATOR_TEXT);
    ReadAppend("p" + GENERATOR_TEXT, GENERATOR_SEAL_TEXT);
    TextRead("p" + GENERATOR_TEXT + GENERATOR_SEAL_TEXT);
  }

  lemma TaprootVersion()
    ensures Spelt(0x0231_8043, [1], 0x3d5a_5fd3, "p")
  {
    Generators0();
    Generators1();
    Generators2();
    Generators3();
    Words0();
    Words1();
    Symbols0();
    Symbols1();
    Symbols2();
    Symbols3();
    hide Generator, Word, Group, Spelt;
    Nothing(0x0231_8043);
    One(0x0231_8043, [], 0x0231_8043, "", 1, 'p', 0x3d5a_5fd3);
    assert [] + [1] == [1] && "" + "p" == "p";
  }

  lemma Halves()
    ensures FRONT_GROUPS + BACK_GROUPS == GENERATOR_GROUPS && FRONT_TEXT + BACK_TEXT == GENERATOR_TEXT
  {
  }
}
