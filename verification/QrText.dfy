/** The textual fields of a slate QR frame: decimal numbers, hexadecimal digests and
    unpadded base64url payloads (sections 5 and 8 of RFC 4648), with their parsers. */
module QrText {
  import opened Wrappers

  // ----- decimal

  predicate IsDigit(c: char) {
    '0' <= c <= '9'
  }

  function DigitChar(d: nat): (c: char)
    requires d < 10
    ensures IsDigit(c) && DigitValue(c) == d
  {
    (d + '0' as int) as char
  }

  function DigitValue(c: char): nat
    requires IsDigit(c)
  {
    c as int - '0' as int
  }

  predicate AllDigits(s: string) {
    forall i :: 0 <= i < |s| ==> IsDigit(s[i])
  }

  function Decimal(n: nat): (s: string)
    ensures |s| > 0 && AllDigits(s)
  {
    if n < 10 then [DigitChar(n)] else Decimal(n / 10) + [DigitChar(n % 10)]
  }

  function DecimalValue(s: string): nat
    requires AllDigits(s)
  {
    if s == [] then 0 else 10 * DecimalValue(s[..|s| - 1]) + DigitValue(s[|s| - 1])
  }

  /** Rust's unsigned `parse`: an optional plus sign, at least one digit, leading zeros allowed, no overflow. */
  function ParseUnsigned(s: string, max: nat): Option<nat> {
    var digits := if |s| > 0 && s[0] == '+' then s[1..] else s;
    if |digits| == 0 || !AllDigits(digits) || DecimalValue(digits) > max then None else Some(DecimalValue(digits))
  }

  lemma {:induction false} DecimalRoundTrip(n: nat)
    ensures DecimalValue(Decimal(n)) == n
  {
    if n >= 10 {
      DecimalRoundTrip(n / 10);
      var s := Decimal(n);
      assert s[..|s| - 1] == Decimal(n / 10);
    }
  }

  lemma ParseDecimal(n: nat, max: nat)
    requires n <= max
    ensures ParseUnsigned(Decimal(n), max) == Some(n)
  {
    DecimalRoundTrip(n);
    assert IsDigit(Decimal(n)[0]);
  }

  lemma {:induction false} DecimalLength(n: nat, digits: nat)
    requires n < Pow10(digits) && digits > 0
    ensures |Decimal(n)| <= digits
  {
    if n >= 10 {
      DecimalLength(n / 10, digits - 1);
    }
  }

  function Pow10(k: nat): (r: nat)
    ensures r > 0
  {
    if k == 0 then 1 else 10 * Pow10(k - 1)
  }

  // ----- hexadecimal

  function HexChar(d: nat): (c: char)
    requires d < 16
    ensures HexValue(c) == Some(d)
    ensures IsDigit(c) || 'a' <= c <= 'f'
  {
    if d < 10 then (d + '0' as int) as char else (d - 10 + 'a' as int) as char
  }

  /** Either case is understood. */
  function HexValue(c: char): (r: Option<nat>)
    ensures r.Some? ==> r.value < 16
  {
    if '0' <= c <= '9' then Some(c as int - '0' as int)
    else if 'a' <= c <= 'f' then Some(c as int - 'a' as int + 10)
    else if 'A' <= c <= 'F' then Some(c as int - 'A' as int + 10)
    else None
  }

  function HighNibble(x: Byte): (r: nat) ensures r < 16 { x / 16 }

  function LowNibble(x: Byte): (r: nat) ensures r < 16 { x % 16 }

  function FromNibbles(h: nat, l: nat): Byte
    requires h < 16 && l < 16
  {
    16 * h + l
  }

  lemma NibblesRoundTrip(x: Byte)
    ensures FromNibbles(HighNibble(x), LowNibble(x)) == x
  {
  }

  function Hex(bytes: seq<Byte>): (s: string)
    ensures |s| == 2 * |bytes|
    ensures forall i :: 0 <= i < |s| ==> IsDigit(s[i]) || 'a' <= s[i] <= 'f'
  {
    if bytes == [] then [] else [HexChar(HighNibble(bytes[0])), HexChar(LowNibble(bytes[0]))] + Hex(bytes[1..])
  }

  function ParseHex(s: string): Option<seq<Byte>> {
    if s == [] then Some([])
    else if |s| == 1 then None
    else
      var high, low := HexValue(s[0]), HexValue(s[1]);
      if high.None? || low.None? then None
      else
        match ParseHex(s[2..])
        case None => None
        case Some(rest) => Some([FromNibbles(high.value, low.value)] + rest)
  }

  lemma {:induction false} HexRoundTrip(bytes: seq<Byte>)
    ensures ParseHex(Hex(bytes)) == Some(bytes)
  {
    hide HexChar, HexValue, HighNibble, LowNibble, FromNibbles;
    if bytes != [] {
      HexRoundTrip(bytes[1..]);
      NibblesRoundTrip(bytes[0]);
      assert Hex(bytes)[2..] == Hex(bytes[1..]);
      assert bytes == [bytes[0]] + bytes[1..];
    }
  }

  // ----- base64url without padding

  function SextetChar(v: nat): (c: char)
    requires v < 64
    ensures SextetValue(c) == Some(v)
    ensures IsBase64Url(c)
  {
    if v < 26 then (v + 'A' as int) as char
    else if v < 52 then (v - 26 + 'a' as int) as char
    else if v < 62 then (v - 52 + '0' as int) as char
    else if v == 62 then '-'
    else '_'
  }

  predicate IsBase64Url(c: char) {
    'A' <= c <= 'Z' || 'a' <= c <= 'z' || '0' <= c <= '9' || c == '-' || c == '_'
  }

  function SextetValue(c: char): (r: Option<nat>)
    ensures r.Some? ==> r.value < 64
  {
    if 'A' <= c <= 'Z' then Some(c as int - 'A' as int)
    else if 'a' <= c <= 'z' then Some(c as int - 'a' as int + 26)
    else if '0' <= c <= '9' then Some(c as int - '0' as int + 52)
    else if c == '-' then Some(62)
    else if c == '_' then Some(63)
    else None
  }

  lemma SextetChars(c: char)
    requires SextetValue(c).Some?
    ensures SextetChar(SextetValue(c).value) == c
  {
  }

  // the four sextets of three bytes, and back

  function Sextet0(x: Byte): (r: nat) ensures r < 64 { x / 4 }

  function Sextet1(x: Byte, y: Byte): (r: nat) ensures r < 64 { x % 4 * 16 + y / 16 }

  function Sextet2(y: Byte, z: Byte): (r: nat) ensures r < 64 { y % 16 * 4 + z / 64 }

  function Sextet3(z: Byte): (r: nat) ensures r < 64 { z % 64 }

  function Byte0(a: nat, b: nat): Byte requires a < 64 && b < 64 { a * 4 + b / 16 }

  function Byte1(b: nat, c: nat): Byte requires b < 64 && c < 64 { b % 16 * 16 + c / 4 }

  function Byte2(c: nat, d: nat): Byte requires c < 64 && d < 64 { c % 4 * 64 + d }

  lemma BytesRoundTrip(x: Byte, y: Byte, z: Byte)
    ensures Byte0(Sextet0(x), Sextet1(x, y)) == x
    ensures Byte1(Sextet1(x, y), Sextet2(y, z)) == y
    ensures Byte2(Sextet2(y, z), Sextet3(z)) == z
    ensures Byte1(Sextet1(x, 0), 0) == 0 && Byte2(Sextet2(y, 0), 0) == 0
  {
    hide Sextet0, Sextet1, Sextet2, Sextet3, Byte0, Byte1, Byte2;
    FirstByte(x, y);
    MiddleByte(x, y, z);
    LastByte(y, z);
    PaddingBits(x, y);
  }

  lemma Split4(q: nat, r: nat)
    requires r < 4
    ensures (q * 4 + r) / 4 == q && (q * 4 + r) % 4 == r
  {
  }

  lemma Split16(q: nat, r: nat)
    requires r < 16
    ensures (q * 16 + r) / 16 == q && (q * 16 + r) % 16 == r
  {
  }

  lemma Split64(q: nat, r: nat)
    requires r < 64
    ensures (q * 64 + r) / 64 == q && (q * 64 + r) % 64 == r
  {
  }

  lemma FirstByte(x: Byte, y: Byte)
    ensures Byte0(Sextet0(x), Sextet1(x, y)) == x
  {
    Split16(x % 4, y / 16);
  }

  lemma MiddleByte(x: Byte, y: Byte, z: Byte)
    ensures Byte1(Sextet1(x, y), Sextet2(y, z)) == y
  {
    Split16(x % 4, y / 16);
    Split4(y % 16, z / 64);
  }

  lemma LastByte(y: Byte, z: Byte)
    ensures Byte2(Sextet2(y, z), Sextet3(z)) == z
  {
    Split4(y % 16, z / 64);
  }

  lemma PaddingBits(x: Byte, y: Byte)
    ensures Byte1(Sextet1(x, 0), 0) == 0 && Byte2(Sextet2(y, 0), 0) == 0
  {
    Split16(x % 4, 0);
    Split4(y % 16, 0);
  }

  lemma SextetsRoundTrip(a: nat, b: nat, c: nat, d: nat)
    requires a < 64 && b < 64 && c < 64 && d < 64
    ensures Sextet0(Byte0(a, b)) == a
    ensures Sextet1(Byte0(a, b), Byte1(b, c)) == b
    ensures Sextet2(Byte1(b, c), Byte2(c, d)) == c
    ensures Sextet3(Byte2(c, d)) == d
    ensures Byte1(b, 0) == 0 ==> Sextet1(Byte0(a, b), 0) == b
    ensures Byte2(c, 0) == 0 ==> Sextet2(Byte1(b, c), 0) == c
  {
    Split4(a, b / 16);
    Split16(b % 16, c / 4);
    Split64(c % 4, d);
  }

  /** Groups of three bytes become four characters; a tail of one or two bytes becomes two or three. */
  function Base64(bytes: seq<Byte>): (s: string)
    ensures forall i :: 0 <= i < |s| ==> IsBase64Url(s[i])
    ensures 3 * |s| <= 4 * |bytes| + 4
  {
    if |bytes| == 0 then []
    else if |bytes| == 1 then [SextetChar(Sextet0(bytes[0])), SextetChar(Sextet1(bytes[0], 0))]
    else if |bytes| == 2 then
      [SextetChar(Sextet0(bytes[0])), SextetChar(Sextet1(bytes[0], bytes[1])), SextetChar(Sextet2(bytes[1], 0))]
    else
      [SextetChar(Sextet0(bytes[0])), SextetChar(Sextet1(bytes[0], bytes[1])),
       SextetChar(Sextet2(bytes[1], bytes[2])), SextetChar(Sextet3(bytes[2]))] + Base64(bytes[3..])
  }

  /** Strict: the alphabet only, no padding, and unused trailing bits zero. */
  function ParseBase64(s: string): Option<seq<Byte>> {
    if |s| == 0 then Some([])
    else if |s| == 1 then None
    else
      var a, b := SextetValue(s[0]), SextetValue(s[1]);
      if a.None? || b.None? then None
      else if |s| == 2 then
        if Byte1(b.value, 0) != 0 then None else Some([Byte0(a.value, b.value)])
      else
        var c := SextetValue(s[2]);
        if c.None? then None
        else if |s| == 3 then
          if Byte2(c.value, 0) != 0 then None else Some([Byte0(a.value, b.value), Byte1(b.value, c.value)])
        else
          var d := SextetValue(s[3]);
          if d.None? then None
          else
            match ParseBase64(s[4..])
            case None => None
            case Some(rest) => Some([Byte0(a.value, b.value), Byte1(b.value, c.value), Byte2(c.value, d.value)] + rest)
  }

  lemma {:induction false} Base64RoundTrip(bytes: seq<Byte>)
    ensures ParseBase64(Base64(bytes)) == Some(bytes)
  {
    hide SextetChar, SextetValue, Sextet0, Sextet1, Sextet2, Sextet3, Byte0, Byte1, Byte2;
    if |bytes| == 1 {
      BytesRoundTrip(bytes[0], 0, 0);
      assert bytes == [bytes[0]];
    } else if |bytes| == 2 {
      BytesRoundTrip(bytes[0], bytes[1], 0);
      assert bytes == [bytes[0], bytes[1]];
    } else if |bytes| >= 3 {
      Base64RoundTrip(bytes[3..]);
      assert Base64(bytes)[4..] == Base64(bytes[3..]);
      BytesRoundTrip(bytes[0], bytes[1], bytes[2]);
      assert bytes == [bytes[0], bytes[1], bytes[2]] + bytes[3..];
    }
  }

  /** Decoding is strict: every accepted text is the encoding of what it decodes to. */
  lemma {:induction false} Base64Canonical(s: string)
    requires ParseBase64(s).Some?
    ensures Base64(ParseBase64(s).value) == s
  {
    if |s| < 4 {
      CanonicalTail(s);
    } else {
      hide Base64, ParseBase64;
      CanonicalQuad(s);
      Base64Canonical(s[4..]);
      assert s == s[..4] + s[4..];
    }
  }

  lemma CanonicalTail(s: string)
    requires |s| < 4 && ParseBase64(s).Some?
    ensures Base64(ParseBase64(s).value) == s
  {
    hide SextetChar, SextetValue, Sextet0, Sextet1, Sextet2, Sextet3, Byte0, Byte1, Byte2;
    if |s| >= 2 {
      var a, b := SextetValue(s[0]).value, SextetValue(s[1]).value;
      SextetChars(s[0]);
      SextetChars(s[1]);
      if |s| == 2 {
        SextetsRoundTrip(a, b, 0, 0);
      } else {
        SextetChars(s[2]);
        SextetsRoundTrip(a, b, SextetValue(s[2]).value, 0);
      }
    }
  }

  lemma CanonicalQuad(s: string)
    requires |s| >= 4 && ParseBase64(s).Some?
    ensures ParseBase64(s[4..]).Some?
    ensures Base64(ParseBase64(s).value) == s[..4] + Base64(ParseBase64(s[4..]).value)
  {
    hide SextetChar, SextetValue, Sextet0, Sextet1, Sextet2, Sextet3, Byte0, Byte1, Byte2;
    SextetChars(s[0]);
    SextetChars(s[1]);
    SextetChars(s[2]);
    SextetChars(s[3]);
    SextetsRoundTrip(SextetValue(s[0]).value, SextetValue(s[1]).value, SextetValue(s[2]).value,
                     SextetValue(s[3]).value);
    var bytes := ParseBase64(s).value;
    assert bytes[3..] == ParseBase64(s[4..]).value;
    assert s[..4] == [s[0], s[1], s[2], s[3]];
  }

  // ----- dotted fields

  function Join(fields: seq<string>): string
    requires fields != []
  {
    if |fields| == 1 then fields[0] else Join(fields[..|fields| - 1]) + "." + fields[|fields| - 1]
  }

  /** `split('.')`: always at least one field. */
  function Split(s: string): (fields: seq<string>)
    ensures fields != []
  {
    if s == [] then [[]]
    else
      var n := |s| - 1;
      var front := Split(s[..n]);
      if s[n] == '.' then front + [[]]
      else front[..|front| - 1] + [front[|front| - 1] + [s[n]]]
  }

  ghost predicate NoDot(s: string) {
    forall i :: 0 <= i < |s| ==> s[i] != '.'
  }

  lemma {:induction false} SplitPlain(s: string)
    requires NoDot(s)
    ensures Split(s) == [s]
  {
    if s != [] {
      SplitPlain(s[..|s| - 1]);
      assert s == s[..|s| - 1] + [s[|s| - 1]];
    }
  }

  lemma SplitPush(s: string, c: char)
    ensures var front := Split(s);
      Split(s + [c]) == if c == '.' then front + [[]] else front[..|front| - 1] + [front[|front| - 1] + [c]]
  {
    assert (s + [c])[..|s|] == s;
  }

  lemma ExtendLast(fields: seq<string>, x: string, c: char)
    ensures var front := fields + [x]; front[..|front| - 1] + [front[|front| - 1] + [c]] == fields + [x + [c]]
  {
    assert (fields + [x])[..|fields|] == fields;
  }

  lemma {:induction false} SplitAppend(s: string, t: string)
    requires NoDot(t)
    ensures Split(s + "." + t) == Split(s) + [t]
  {
    hide Split, NoDot;
    if t == [] {
      assert s + "." + t == s + ".";
      SplitPush(s, '.');
    } else {
      var n := |t| - 1;
      NoDotFront(t);
      SplitAppend(s, t[..n]);
      SplitPush(s + "." + t[..n], t[n]);
      AppendLast(s, t);
      ExtendLast(Split(s), t[..n], t[n]);
    }
  }

  lemma NoDotFront(t: string)
    requires t != [] && NoDot(t)
    ensures NoDot(t[..|t| - 1]) && t[|t| - 1] != '.'
  {
  }

  lemma AppendLast(s: string, t: string)
    requires t != []
    ensures var n := |t| - 1; s + "." + t == s + "." + t[..n] + [t[n]] && t == t[..n] + [t[n]]
  {
  }

  lemma {:induction false} SplitJoin(fields: seq<string>)
    requires fields != [] && forall i :: 0 <= i < |fields| ==> NoDot(fields[i])
    ensures Split(Join(fields)) == fields
  {
    if |fields| == 1 {
      SplitPlain(fields[0]);
    } else {
      var n := |fields| - 1;
      SplitJoin(fields[..n]);
      SplitAppend(Join(fields[..n]), fields[n]);
      assert fields == fields[..n] + [fields[n]];
    }
  }

  // ----- published vectors

  lemma ThreeBytes(x: Byte, y: Byte, z: Byte)
    ensures Base64([x, y, z]) == [SextetChar(Sextet0(x)), SextetChar(Sextet1(x, y)), SextetChar(Sextet2(y, z)),
                                  SextetChar(Sextet3(z))]
  {
    hide SextetChar, Sextet0, Sextet1, Sextet2, Sextet3;
    var none: seq<Byte> := [];
    assert Base64(none) == [] && [x, y, z][3..] == none;
  }

  lemma TwoBytes(x: Byte, y: Byte)
    ensures Base64([x, y]) == [SextetChar(Sextet0(x)), SextetChar(Sextet1(x, y)), SextetChar(Sextet2(y, 0))]
  {
    hide SextetChar, Sextet0, Sextet1, Sextet2, Sextet3;
  }

  lemma AlphabetVectors()
    ensures SextetChar(25) == 'Z' && SextetChar(38) == 'm' && SextetChar(61) == '9' && SextetChar(47) == 'v'
    ensures SextetChar(60) == '8' && SextetChar(62) == '-' && SextetChar(63) == '_'
  {
  }

  lemma SextetVectors()
    ensures Sextet0(0x66) == 25 && Sextet1(0x66, 0x6f) == 38 && Sextet2(0x6f, 0x6f) == 61 && Sextet3(0x6f) == 47
    ensures Sextet2(0x6f, 0) == 60
    ensures Sextet0(0xfb) == 62 && Sextet1(0xfb, 0xff) == 63 && Sextet2(0xff, 0xbf) == 62 && Sextet3(0xbf) == 63
  {
  }

  /** Section 10 of RFC 4648, without padding, and the two symbols of section 5. */
  lemma Base64Vectors()
    ensures Base64([0x66, 0x6f, 0x6f]) == "Zm9v" && Base64([0x66, 0x6f]) == "Zm8"
    ensures Base64([0xfb, 0xff, 0xbf]) == "-_-_"
  {
    hide Base64, SextetChar, Sextet0, Sextet1, Sextet2, Sextet3;
    AlphabetVectors();
    SextetVectors();
    ThreeBytes(0x66, 0x6f, 0x6f);
    TwoBytes(0x66, 0x6f);
    ThreeBytes(0xfb, 0xff, 0xbf);
  }

  /** Lower-case digits, the high one first. */
  lemma HexVectors()
    ensures Hex([0xde, 0xad]) == "dead" && Hex([0x01]) == "01"
  {
    var none: seq<Byte> := [];
    assert Hex(none) == [];
    assert [0xad][1..] == none && [0x01][1..] == none && [0xde, 0xad][1..] == [0xad];
    assert Hex([0xad]) == "ad";
  }

  lemma DecimalVectors()
    ensures Decimal(1234) == "1234" && Decimal(0) == "0"
  {
    assert Decimal(12) == "12" && Decimal(123) == "123";
  }
}
