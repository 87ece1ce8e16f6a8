/** The slate QR frame codec. */
module QrFrame {
  import opened Wrappers
  import opened QrText

  const FRAME_VERSION: nat := 1
  const FRAME_PREFIX: string := "DOMQR5"
  const PAYLOAD_BYTES: nat := 768
  const MAX_TEXT_BYTES: nat := 2_097_280
  const MAX_FRAMES: nat := 2_731
  const MAX_FRAME_TEXT: nat := 1_792

  /** Identifiers have 16 bytes and digests 32. */
  type MessageId = b: seq<Byte> | |b| == 16 witness seq(16, i => 0)
  type Digest = b: seq<Byte> | |b| == 32 witness seq(32, i => 0)

  datatype Frame = Frame(
    version: nat,
    messageId: MessageId,
    response: bool,
    partIndex: nat,
    partCount: nat,
    totalLength: nat,
    contentHash: Digest,
    payload: seq<Byte>)

  datatype FrameError = FrameInvalid | FrameNoncanonical

  predicate ValidFrame(f: Frame) {
    && f.version == FRAME_VERSION
    && 0 < f.partCount <= MAX_FRAMES && f.partIndex < f.partCount
    && |f.payload| <= PAYLOAD_BYTES
    && 0 < f.totalLength <= MAX_TEXT_BYTES
  }

  function Fields(f: Frame): (fields: seq<string>)
    ensures |fields| == 9
  {
    [FRAME_PREFIX, Decimal(f.version), Hex(f.messageId), if f.response then "1" else "0",
     Decimal(f.partIndex), Decimal(f.partCount), Decimal(f.totalLength), Hex(f.contentHash), Base64(f.payload)]
  }

  function EncodeFrame(f: Frame): Result<string, FrameError> {
    if ValidFrame(f) then Ok(Join(Fields(f))) else Err(FrameInvalid)
  }

  predicate IsAsciiVisible(c: char) {
    c as int < 128 && c !in {' ', '\t', '\n', '\r', 12 as char}
  }

  function ParseFields(fields: seq<string>): Option<Frame> {
    if |fields| != 9 || fields[0] != FRAME_PREFIX then None
    else
      var version := ParseUnsigned(fields[1], 0xFF);
      var id := ParseHex(fields[2]);
      var index := ParseUnsigned(fields[4], U16_MAX);
      var count := ParseUnsigned(fields[5], U16_MAX);
      var length := ParseUnsigned(fields[6], U32_MAX);
      var hash := ParseHex(fields[7]);
      var payload := ParseBase64(fields[8]);
      if || version.None? || id.None? || |id.value| != 16 || fields[3] !in {"0", "1"} || index.None? || count.None?
         || length.None? || hash.None? || |hash.value| != 32 || payload.None?
      then None
      else Some(Frame(version.value, id.value, fields[3] == "1", index.value, count.value, length.value, hash.value,
                      payload.value))
  }

  function ParseFrame(s: string): Result<Frame, FrameError> {
    if |s| == 0 || |s| > MAX_FRAME_TEXT || exists i :: 0 <= i < |s| && !IsAsciiVisible(s[i]) then Err(FrameInvalid)
    else
      match ParseFields(Split(s))
      case None => Err(FrameInvalid)
      case Some(f) =>
        var canonical :- EncodeFrame(f);
        if canonical != s then Err(FrameNoncanonical) else Ok(f)
  }

  // ----- the text of a valid frame

  lemma FieldsArePlain(f: Frame)
    ensures forall i :: 0 <= i < 9 ==> NoDot(Fields(f)[i]) && Visible(Fields(f)[i])
  {
    hide Decimal, Hex, Base64;
    var fields := Fields(f);
    assert NoDot(FRAME_PREFIX) && Visible(FRAME_PREFIX);
    forall i | 0 <= i < 9 ensures NoDot(fields[i]) && Visible(fields[i]) {}
  }

  ghost predicate Visible(s: string) {
    forall i :: 0 <= i < |s| ==> IsAsciiVisible(s[i])
  }

  lemma {:induction false} JoinVisible(fields: seq<string>)
    requires fields != [] && forall i :: 0 <= i < |fields| ==> Visible(fields[i])
    ensures Visible(Join(fields))
  {
    if |fields| > 1 {
      JoinVisible(fields[..|fields| - 1]);
    }
  }

  function TotalLength(fields: seq<string>): nat {
    if fields == [] then 0 else TotalLength(fields[..|fields| - 1]) + |fields[|fields| - 1]|
  }

  lemma {:induction false} JoinLength(fields: seq<string>)
    requires fields != []
    ensures |Join(fields)| == TotalLength(fields) + |fields| - 1
  {
    if |fields| > 1 {
      JoinLength(fields[..|fields| - 1]);
    } else {
      assert fields[..0] == [];
    }
  }

  lemma TotalLengthStep(f: seq<string>, i: nat)
    requires i < |f|
    ensures TotalLength(f[..i + 1]) == (if i == 0 then 0 else TotalLength(f[..i])) + |f[i]|
  {
    assert f[..i + 1][..i] == f[..i];
  }

  lemma NineLengths(f: seq<string>)
    requires |f| == 9
    ensures TotalLength(f) == |f[0]| + |f[1]| + |f[2]| + |f[3]| + |f[4]| + |f[5]| + |f[6]| + |f[7]| + |f[8]|
  {
    hide TotalLength;
    TotalLengthStep(f, 0);
    TotalLengthStep(f, 1);
    TotalLengthStep(f, 2);
    TotalLengthStep(f, 3);
    TotalLengthStep(f, 4);
    TotalLengthStep(f, 5);
    TotalLengthStep(f, 6);
    TotalLengthStep(f, 7);
    TotalLengthStep(f, 8);
    assert f[..9] == f;
  }

  /** The longest frame text stays far below the input limit of the parser. */
  lemma FrameTextFits(f: Frame)
    requires ValidFrame(f)
    ensures 0 < |EncodeFrame(f).value| <= 1_156 <= MAX_FRAME_TEXT
  {
    hide Decimal, Hex, Base64, Join, TotalLength;
    var fields := Fields(f);
    JoinLength(fields);
    NineLengths(fields);
    Powers();
    DecimalLength(f.version, 1);
    DecimalLength(f.partIndex, 4);
    DecimalLength(f.partCount, 4);
    DecimalLength(f.totalLength, 7);
  }

  lemma Powers()
    ensures Pow10(1) == 10 && Pow10(4) == 10_000 && Pow10(7) == 10_000_000
  {
    assert Pow10(2) == 100;
    assert Pow10(3) == 1_000;
    assert Pow10(4) == 10_000;
    assert Pow10(5) == 100_000;
    assert Pow10(6) == 1_000_000;
  }

  lemma FieldsParse(f: Frame)
    requires ValidFrame(f)
    ensures ParseFields(Fields(f)) == Some(f)
  {
    hide Decimal, Hex, Base64, ParseUnsigned, ParseHex, ParseBase64;
    ParseDecimal(f.version, 0xFF);
    ParseDecimal(f.partIndex, U16_MAX);
    ParseDecimal(f.partCount, U16_MAX);
    ParseDecimal(f.totalLength, U32_MAX);
    HexRoundTrip(f.messageId);
    HexRoundTrip(f.contentHash);
    Base64RoundTrip(f.payload);
    assert "1" != "0" by { assert "1"[0] != "0"[0]; }
  }

  /** Every valid frame survives the codec, the parser's length limit included. */
  lemma FrameRoundTrip(f: Frame)
    requires ValidFrame(f)
    ensures EncodeFrame(f).Ok? && ParseFrame(EncodeFrame(f).value) == Ok(f)
  {
    hide Fields, Join, Split, ParseFields;
    FieldsArePlain(f);
    FrameTextFits(f);
    JoinVisible(Fields(f));
    SplitJoin(Fields(f));
    FieldsParse(f);
  }

  /** The parser accepts exactly the image of the encoder, and inverts it: whatever laxity the field
      parsers have (signs, leading zeros, upper-case digits) never leads to an accepted text. */
  lemma ParserAcceptsExactlyTheImage(s: string, f: Frame)
    ensures ParseFrame(s) == Ok(f) <==> EncodeFrame(f) == Ok(s)
  {
    hide Fields, Join, Split, ParseFields;
    if EncodeFrame(f) == Ok(s) {
      FrameRoundTrip(f);
    }
  }

  /** What each dotted field of an encoded frame denotes. */
  lemma FieldsDenote(f: Frame)
    requires ValidFrame(f)
    ensures EncodeFrame(f).Ok? && |Split(EncodeFrame(f).value)| == 9
    ensures var fields := Split(EncodeFrame(f).value);
      && fields[0] == "DOMQR5"
      && AllDigits(fields[1]) && DecimalValue(fields[1]) == f.version == 1
      && ParseHex(fields[2]) == Some(f.messageId)
      && fields[3] == (if f.response then "1" else "0")
      && AllDigits(fields[4]) && DecimalValue(fields[4]) == f.partIndex
      && AllDigits(fields[5]) && DecimalValue(fields[5]) == f.partCount
      && AllDigits(fields[6]) && DecimalValue(fields[6]) == f.totalLength
      && ParseHex(fields[7]) == Some(f.contentHash)
      && ParseBase64(fields[8]) == Some(f.payload)
  {
    hide Decimal, Hex, Base64, Join, Split, ParseHex, ParseBase64, DecimalValue;
    FieldsArePlain(f);
    SplitJoin(Fields(f));
    DecimalRoundTrip(f.version);
    DecimalRoundTrip(f.partIndex);
    DecimalRoundTrip(f.partCount);
    DecimalRoundTrip(f.totalLength);
    HexRoundTrip(f.messageId);
    HexRoundTrip(f.contentHash);
    Base64RoundTrip(f.payload);
  }

  /** The bounds every accepted frame obeys. */
  lemma ParsedBounds(s: string)
    requires ParseFrame(s).Ok?
    ensures var f := ParseFrame(s).value;
      && f.version == 1 && f.partIndex < f.partCount <= 2_731
      && 0 < f.totalLength <= 2_097_280 && |f.payload| <= 768
    ensures |s| <= 1_792
  {
    hide ParseFields, Split, Join;
  }
}
