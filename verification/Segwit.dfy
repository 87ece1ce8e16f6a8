/** Segwit version 1 addresses: the encoder and the decoder of the standard it must satisfy; BIP-350, section
    "Bech32m". Text is a sequence of byte-valued characters. */
module Segwit {
  import opened Wrappers
  import opened Bech32m
  import opened FiveBit

  const CHARSET: string := "qpzry9x8gf2tvdw0s3jn54khce6mua7l"
  const PROGRAM_BYTES: nat := 32

  // ----- letter case

  predicate IsUpper(c: char) {
    'A' <= c <= 'Z'
  }

  predicate IsLower(c: char) {
    'a' <= c <= 'z'
  }

  function LowerChar(c: char): char {
    if IsUpper(c) then (c as int + 32) as char else c
  }

  function UpperChar(c: char): char {
    if IsLower(c) then (c as int - 32) as char else c
  }

  function Lower(s: string): (r: string)
    ensures |r| == |s|
  {
    seq(|s|, i requires 0 <= i < |s| => LowerChar(s[i]))
  }

  function Upper(s: string): (r: string)
    ensures |r| == |s|
  {
    seq(|s|, i requires 0 <= i < |s| => UpperChar(s[i]))
  }

  ghost predicate NoUpper(s: string) {
    forall i :: 0 <= i < |s| ==> !IsUpper(s[i])
  }

  ghost predicate NoLower(s: string) {
    forall i :: 0 <= i < |s| ==> !IsLower(s[i])
  }

  ghost predicate Mixed(s: string) {
    !NoUpper(s) && !NoLower(s)
  }

  /** A text of one case reads as `a` exactly when it is `a` or `a` in capitals. */
  lemma OneCase(text: string, a: string)
    requires NoUpper(a)
    ensures !Mixed(text) && Lower(text) == a <==> text == a || text == Upper(a)
  {
    assert NoUpper(text) ==> Lower(text) == text;
    assert NoLower(text) ==> Upper(Lower(text)) == text;
    assert Lower(a) == a;
    assert Lower(Upper(a)) == a && NoLower(Upper(a));
  }

  // ----- the character set

  function Symbol(group: nat): char
    requires group < 32
  {
    CHARSET[group]
  }

  /** The group a character stands for. */
  function Group(c: char): (r: Option<nat>)
    ensures r.Some? ==> r.value < 32
  {
    match c
    case 'q' => Some(0) case 'p' => Some(1) case 'z' => Some(2) case 'r' => Some(3)
    case 'y' => Some(4) case '9' => Some(5) case 'x' => Some(6) case '8' => Some(7)
    case 'g' => Some(8) case 'f' => Some(9) case '2' => Some(10) case 't' => Some(11)
    case 'v' => Some(12) case 'd' => Some(13) case 'w' => Some(14) case '0' => Some(15)
    case 's' => Some(16) case '3' => Some(17) case 'j' => Some(18) case 'n' => Some(19)
    case '5' => Some(20) case '4' => Some(21) case 'k' => Some(22) case 'h' => Some(23)
    case 'c' => Some(24) case 'e' => Some(25) case '6' => Some(26) case 'm' => Some(27)
    case 'u' => Some(28) case 'a' => Some(29) case '7' => Some(30) case 'l' => Some(31)
    case _ => None
  }

  lemma GroupOfSymbol(group: nat)
    requires group < 32
    ensures Group(Symbol(group)) == Some(group)
    ensures Symbol(group) != '1'
  {
  }

  lemma SymbolNotUpper(group: nat)
    requires group < 32
    ensures !IsUpper(Symbol(group))
  {
  }

  lemma VersionSymbol()
    ensures Symbol(1) == 'p'
  {
  }

  lemma SymbolOfGroup(c: char)
    requires Group(c).Some?
    ensures Symbol(Group(c).value) == c
  {
  }

  // ----- groups as words

  function Word(group: nat): bv32
    requires group < 32
  {
    (group as bv5) as bv32
  }

  lemma WordSmall(group: nat)
    requires group < 32
    ensures Word(group) < 32
  {
  }

  lemma WordBack(group: nat)
    requires group < 32
    ensures Word(group) as nat == group
  {
    FiveBits(group);
    Widen(group as bv5);
  }

  lemma FiveBits(group: nat)
    requires group < 32
    ensures (group as bv5) as nat == group
  {
  }

  lemma Widen(word: bv5)
    ensures (word as bv32) as nat == word as nat
  {
  }

  lemma BackWord(word: bv32)
    requires word < 32
    ensures word as nat < 32
    ensures Word(word as nat) == word
  {
  }

  function Words(groups: seq<nat>): (r: seq<bv32>)
    requires Below(groups, 32)
    ensures |r| == |groups|
  {
    seq(|groups|, i requires 0 <= i < |groups| => Word(groups[i]))
  }

  function Numbers(words: seq<bv32>): (r: seq<nat>)
    requires Small(words)
    ensures |r| == |words|
  {
    seq(|words|, i requires 0 <= i < |words| => words[i] as nat)
  }

  lemma WordsSmall(groups: seq<nat>)
    requires Below(groups, 32)
    ensures Small(Words(groups))
  {
    hide Word;
    forall i | 0 <= i < |groups| ensures Words(groups)[i] < 32 {
      WordSmall(groups[i]);
    }
  }

  lemma WordsOfNumbers(words: seq<bv32>)
    requires Small(words)
    ensures Below(Numbers(words), 32) && Words(Numbers(words)) == words
  {
    hide Word;
    forall i | 0 <= i < |words| ensures Numbers(words)[i] < 32 && Word(Numbers(words)[i]) == words[i] {
      BackWord(words[i]);
    }
  }

  lemma WordsInjective(a: seq<nat>, b: seq<nat>)
    requires Below(a, 32) && Below(b, 32) && Words(a) == Words(b)
    ensures a == b
  {
    hide Word;
    assert |a| == |Words(a)| == |b|;
    forall i | 0 <= i < |a| ensures a[i] == b[i] {
      assert Words(a)[i] == Words(b)[i];
      WordBack(a[i]);
      WordBack(b[i]);
    }
  }

  lemma WordsAppend(a: seq<nat>, b: seq<nat>)
    requires Below(a, 32) && Below(b, 32)
    ensures Below(a + b, 32) && Words(a + b) == Words(a) + Words(b)
  {
    hide Word;
  }

  // ----- text of groups

  function Text(groups: seq<nat>): (r: string)
    requires Below(groups, 32)
    ensures |r| == |groups|
  {
    seq(|groups|, i requires 0 <= i < |groups| => Symbol(groups[i]))
  }

  function Read(text: string): (r: Option<seq<nat>>)
    ensures r.Some? ==> |r.value| == |text| && Below(r.value, 32)
  {
    if text == [] then Some([])
    else
      var head, tail := Group(text[0]), Read(text[1..]);
      if head.Some? && tail.Some? then Some([head.value] + tail.value) else None
  }

  lemma {:induction false} ReadText(groups: seq<nat>)
    requires Below(groups, 32)
    ensures Read(Text(groups)) == Some(groups) && '1' !in Text(groups)
  {
    hide Symbol, Group;
    if groups != [] {
      ReadText(groups[1..]);
      GroupOfSymbol(groups[0]);
      assert Text(groups) == [Symbol(groups[0])] + Text(groups[1..]);
      assert groups == [groups[0]] + groups[1..];
    }
  }

  lemma {:induction false} TextRead(text: string)
    requires Read(text).Some?
    ensures Text(Read(text).value) == text
  {
    hide Symbol, Group;
    if text != [] {
      TextRead(text[1..]);
      SymbolOfGroup(text[0]);
      var groups := Read(text).value;
      assert groups[1..] == Read(text[1..]).value;
      assert Text(groups) == [Symbol(groups[0])] + Text(groups[1..]);
      assert text == [text[0]] + text[1..];
    }
  }

  // ----- the human-readable part

  ghost predicate ByteText(text: string) {
    forall i :: 0 <= i < |text| ==> text[i] as nat < 256
  }

  function High(text: string): seq<nat> {
    seq(|text|, i requires 0 <= i < |text| => text[i] as nat / 32)
  }

  function Low(text: string): seq<nat> {
    seq(|text|, i requires 0 <= i < |text| => text[i] as nat % 32)
  }

  function Expanded(hrp: string): seq<nat> {
    High(hrp) + [0] + Low(hrp)
  }

  lemma ExpandedBelow(hrp: string)
    requires ByteText(hrp)
    ensures Below(Expanded(hrp), 32)
  {
  }

  /** The expansion keeps every bit of the text. */
  lemma ExpandedInjective(a: string, b: string)
    requires Expanded(a) == Expanded(b)
    ensures a == b
  {
    assert 2 * |a| + 1 == |Expanded(a)| == |Expanded(b)| == 2 * |b| + 1;
    forall i | 0 <= i < |a| ensures a[i] == b[i] {
      assert Expanded(a)[i] == a[i] as nat / 32 && Expanded(b)[i] == b[i] as nat / 32;
      assert Expanded(a)[|a| + 1 + i] == a[i] as nat % 32 && Expanded(b)[|a| + 1 + i] == b[i] as nat % 32;
    }
  }

  /** `hrp_expand`. */
  method HrpExpand(hrp: string) returns (out: seq<nat>)
    ensures out == Expanded(hrp)
  {
    out := [];
    for k := 0 to |hrp|
      invariant out == High(hrp[..k])
    {
      out := out + [hrp[k] as nat / 32];
    }
    assert hrp[..|hrp|] == hrp;
    out := out + [0];
    for k := 0 to |hrp|
      invariant out == High(hrp) + [0] + Low(hrp[..k])
    {
      assert Low(hrp[..k + 1]) == Low(hrp[..k]) + [hrp[k] as nat % 32];
      out := out + [hrp[k] as nat % 32];
    }
  }

  // ----- addresses

  ghost predicate Program(program: seq<nat>) {
    |program| == PROGRAM_BYTES && Below(program, 256)
  }

  /** The groups after the separator, without the checksum: witness version 1 and the program. */
  function Data(program: seq<nat>): (r: seq<nat>) {
    [1] + Regrouped(program)
  }

  lemma DataBelow(program: seq<nat>)
    requires Program(program)
    ensures |Data(program)| == 53 && Below(Data(program), 32)
  {
    hide Value, Digits, Pow2;
  }

  function Sealed(hrp: string, data: seq<nat>): (r: seq<nat>)
    requires Below(Expanded(hrp), 32) && Below(data, 32)
  {
    WordsSmall(Expanded(hrp));
    WordsSmall(data);
    Numbers(Groups(Checksum(Words(Expanded(hrp)) + Words(data))))
  }

  lemma SealedBelow(hrp: string, data: seq<nat>)
    requires Below(Expanded(hrp), 32) && Below(data, 32)
    ensures |Sealed(hrp, data)| == 6 && Below(Sealed(hrp, data), 32)
    ensures Words(Sealed(hrp, data)) == Groups(Checksum(Words(Expanded(hrp)) + Words(data)))
  {
    hide Words, Numbers, Groups, Checksum, Expanded, Below;
    WordsSmall(Expanded(hrp));
    WordsSmall(data);
    WordsOfNumbers(Groups(Checksum(Words(Expanded(hrp)) + Words(data))));
  }

  /** The groups of an address. */
  ghost function Payload(hrp: string, program: seq<nat>): (r: seq<nat>)
    requires ByteText(hrp) && Program(program)
    ensures |r| == 59 && Below(r, 32)
  {
    ExpandedBelow(hrp);
    DataBelow(program);
    SealedBelow(hrp, Data(program));
    Data(program) + Sealed(hrp, Data(program))
  }

  /** The address: the human-readable part, the separator, the data and the checksum. */
  ghost function Address(hrp: string, program: seq<nat>): string
    requires ByteText(hrp) && Program(program)
  {
    hrp + "1" + Text(Payload(hrp, program))
  }

  /** `encode_segwit_v1`. */
  method EncodeSegwitV1(hrp: string, program: seq<Byte>) returns (address: string)
    requires ByteText(hrp) && |program| == PROGRAM_BYTES
    ensures address == Address(hrp, program)
  {
    hide Symbol, Regrouped, Groups, Words, Xor, Polymod, Expanded;
    ExpandedBelow(hrp);
    DataBelow(program);
    SealedBelow(hrp, Data(program));
    var groups := ToFiveBit(program);
    var data := [1] + groups;
    var values := HrpExpand(hrp);
    var register := PolymodLoop(Words(values) + Words(data) + SIX_ZEROS);
    var checksum := Xor(register, BECH32M_CONST);
    var tail := Groups(checksum);
    address := hrp + "1";
    for k := 0 to |data|
      invariant address == hrp + "1" + Text(data[..k])
    {
      address := address + [Symbol(data[k])];
    }
    assert data[..|data|] == data;
    ghost var sealed := Sealed(hrp, data);
    for k := 0 to 6
      invariant address == hrp + "1" + Text(data + sealed[..k])
    {
      assert tail[k] as nat == sealed[k];
      assert (data + sealed[..k + 1]) == (data + sealed[..k]) + [sealed[k]];
      address := address + [Symbol(tail[k] as nat)];
    }
    assert sealed[..6] == sealed;
  }

  // ----- the decoder of the standard

  function LastSeparator(text: string): (r: Option<nat>)
    ensures r.Some? ==> r.value < |text| && text[r.value] == '1' && '1' !in text[r.value + 1..]
  {
    if text == [] then None
    else if text[|text| - 1] == '1' then Some(|text| - 1)
    else LastSeparator(text[..|text| - 1])
  }

  lemma {:induction false} SeparatorFound(hrp: string, rest: string)
    requires '1' !in rest
    ensures LastSeparator(hrp + "1" + rest) == Some(|hrp|)
  {
    var text := hrp + "1" + rest;
    if rest != [] {
      SeparatorFound(hrp, rest[..|rest| - 1]);
      assert text[..|text| - 1] == hrp + "1" + rest[..|rest| - 1];
    }
  }

  ghost function ReadGroups(hrp: string, groups: seq<nat>): Option<(string, seq<nat>)>
    requires Below(groups, 32) && ByteText(hrp)
  {
    ExpandedBelow(hrp);
    WordsAppend(Expanded(hrp), groups);
    if |groups| != 59 || Polymod(Words(Expanded(hrp) + groups)) != BECH32M_CONST || groups[0] != 1 then None
    else if Remainder(Value(groups[1..53], 32), Pow2(Padding(PROGRAM_BYTES))) != 0 then None
    else Some((hrp, Ungrouped(groups[1..53], PROGRAM_BYTES)))
  }

  /** Reading a text of lower case back: the part before the last separator, the groups after it, a checksum equal
      to the bech32m constant, witness version 1, zero padding and a 32-byte program. */
  ghost function ParseAddress(text: string): Option<(string, seq<nat>)> {
    match LastSeparator(text)
    case None => None
    case Some(k) =>
      match Read(text[k + 1..])
      case None => None
      case Some(groups) => if ByteText(text[..k]) then ReadGroups(text[..k], groups) else None
  }

  const MAX_ADDRESS_LENGTH: nat := 90

  /** A human-readable part is not empty and its characters are visible. */
  ghost predicate VisiblePart(hrp: string) {
    hrp != [] && forall i :: 0 <= i < |hrp| ==> 33 <= hrp[i] as nat <= 126
  }

  /** The decoder of the standard: at most 90 characters, of one case, read in lower case. */
  ghost function Decode(text: string): Option<(string, seq<nat>)> {
    if |text| > MAX_ADDRESS_LENGTH || Mixed(text) then None
    else
      match ParseAddress(Lower(text))
      case None => None
      case Some((hrp, program)) => if VisiblePart(hrp) then Some((hrp, program)) else None
  }

  lemma DataExact(data: seq<nat>, program: seq<nat>)
    requires |data| == 53 && Below(data, 32) && Program(program)
    ensures data == Data(program) <==>
      && data[0] == 1
      && Remainder(Value(data[1..], 32), Pow2(Padding(PROGRAM_BYTES))) == 0
      && Ungrouped(data[1..], PROGRAM_BYTES) == program
  {
    hide Value, Digits, Pow2, Remainder, Regrouped, Ungrouped;
    var bytes: seq<Byte> := program;
    Lossless(bytes);
    DataBelow(program);
    assert data == [data[0]] + data[1..];
    if Remainder(Value(data[1..], 32), Pow2(Padding(PROGRAM_BYTES))) == 0 {
      Canonical(data[1..], PROGRAM_BYTES);
    }
  }

  lemma ChecksumExact(hrp: string, data: seq<nat>, tail: seq<nat>)
    requires ByteText(hrp) && Below(Expanded(hrp), 32) && Below(data, 32) && Below(tail, 32) && |tail| == 6
    requires Below(Expanded(hrp) + (data + tail), 32)
    ensures Polymod(Words(Expanded(hrp) + (data + tail))) == BECH32M_CONST <==> tail == Sealed(hrp, data)
  {
    hide Words, Groups, Checksum, Expanded, Polymod, Sealed;
    WordsAppend(data, tail);
    WordsAppend(Expanded(hrp), data + tail);
    WordsSmall(Expanded(hrp));
    WordsSmall(data);
    WordsSmall(tail);
    SealedBelow(hrp, data);
    var values := Words(Expanded(hrp)) + Words(data);
    assert Words(Expanded(hrp) + (data + tail)) == values + Words(tail);
    ChecksumUnique(values, Words(tail));
    if Words(tail) == Words(Sealed(hrp, data)) {
      WordsInjective(tail, Sealed(hrp, data));
    }
  }

  lemma GroupsExact(hrp: string, groups: seq<nat>, program: seq<nat>)
    requires ByteText(hrp) && Program(program) && Below(groups, 32)
    ensures ReadGroups(hrp, groups) == Some((hrp, program)) <==> groups == Payload(hrp, program)
  {
    hide Words, Expanded, Polymod, Data, Sealed, Remainder, Value, Pow2, Ungrouped;
    ExpandedBelow(hrp);
    DataBelow(program);
    SealedBelow(hrp, Data(program));
    if |groups| == 59 {
      var data, tail := groups[..53], groups[53..];
      assert groups == data + tail && groups[1..53] == data[1..] && groups[0] == data[0];
      WordsAppend(Expanded(hrp), groups);
      ChecksumExact(hrp, data, tail);
      DataExact(data, program);
      assert Payload(hrp, program)[..53] == Data(program) && Payload(hrp, program)[53..] == Sealed(hrp, Data(program));
    }
  }

  /** Reading returns exactly the encoder's arguments, and accepts nothing the encoder does not emit. */
  lemma ParseAddressExact(text: string, hrp: string, program: seq<nat>)
    requires ByteText(hrp) && Program(program)
    ensures ParseAddress(text) == Some((hrp, program)) <==> text == Address(hrp, program)
  {
    hide Text, ReadGroups, Payload, Read, LastSeparator;
    var payload := Payload(hrp, program);
    ReadText(payload);
    SeparatorFound(hrp, Text(payload));
    GroupsExact(hrp, payload, program);
    var own := Address(hrp, program);
    assert own[..|hrp|] == hrp && own[|hrp| + 1..] == Text(payload);
    if ParseAddress(text) == Some((hrp, program)) {
      var k := LastSeparator(text).value;
      var groups := Read(text[k + 1..]).value;
      ReadsHrp(text[..k], groups, hrp, program);
      TextRead(text[k + 1..]);
      GroupsExact(hrp, groups, program);
      assert text == text[..k] + [text[k]] + text[k + 1..];
    }
  }

  /** The human-readable parts the standard allows in a 32-byte address: visible, without capitals, at most 30. */
  ghost predicate StandardPart(hrp: string) {
    VisiblePart(hrp) && NoUpper(hrp) && |hrp| <= 30
  }

  lemma AddressText(hrp: string, program: seq<nat>)
    requires ByteText(hrp) && Program(program)
    ensures var a := Address(hrp, program);
      |a| == |hrp| + 60 && a[..|hrp|] == hrp && a[|hrp| + 1] == 'p' && (NoUpper(a) <==> NoUpper(hrp))
  {
    hide Symbol, Group, IsUpper, NoUpper, Payload;
    var payload := Payload(hrp, program);
    TextNotUpper(payload);
    PartsNotUpper(hrp, "1" + Text(payload));
    PartsNotUpper("1", Text(payload));
    SeparatorNotUpper();
    assert Address(hrp, program) == hrp + ("1" + Text(payload));
    FirstGroup(hrp, program);
    VersionSymbol();
  }

  lemma TextNotUpper(groups: seq<nat>)
    requires Below(groups, 32)
    ensures NoUpper(Text(groups))
  {
    hide Symbol, IsUpper;
    forall i | 0 <= i < |groups| ensures !IsUpper(Text(groups)[i]) {
      SymbolNotUpper(groups[i]);
    }
  }

  lemma PartsNotUpper(a: string, b: string)
    ensures NoUpper(a + b) <==> NoUpper(a) && NoUpper(b)
  {
    hide IsUpper;
    assert forall i :: 0 <= i < |a| ==> (a + b)[i] == a[i];
    assert forall i :: 0 <= i < |b| ==> (a + b)[|a| + i] == b[i];
  }

  lemma SeparatorNotUpper()
    ensures NoUpper("1")
  {
  }

  lemma FirstGroup(hrp: string, program: seq<nat>)
    requires ByteText(hrp) && Program(program)
    ensures Payload(hrp, program)[0] == 1
  {
    hide Regrouped, Sealed;
  }

  /** The standard's decoder reads a text as a human-readable part and a program if and only if the part is one the
      standard allows and the text is the emitted address, or that address in capitals. */
  lemma AddressExact(text: string, hrp: string, program: seq<nat>)
    requires ByteText(hrp) && Program(program)
    ensures Decode(text) == Some((hrp, program)) <==>
      StandardPart(hrp) && (text == Address(hrp, program) || text == Upper(Address(hrp, program)))
  {
    hide ParseAddress, Mixed, Lower, Upper, NoUpper, VisiblePart, Address;
    AddressText(hrp, program);
    ParseAddressExact(Lower(text), hrp, program);
    if NoUpper(hrp) {
      OneCase(text, Address(hrp, program));
    }
    if Lower(text) == Address(hrp, program) {
      LowerHasNoUpper(text);
    }
  }

  lemma LowerHasNoUpper(s: string)
    ensures NoUpper(Lower(s))
  {
  }

  /** What the encoder emits is an address of the standard exactly when its human-readable part is allowed; the
      encoder does not check that. */
  lemma EmittedIsStandard(hrp: string, program: seq<nat>)
    requires ByteText(hrp) && Program(program)
    ensures Decode(Address(hrp, program)) == if StandardPart(hrp) then Some((hrp, program)) else None
  {
    hide ParseAddress, VisiblePart, Address, Upper;
    var a := Address(hrp, program);
    AddressText(hrp, program);
    AddressExact(a, hrp, program);
    ParseAddressExact(a, hrp, program);
    if NoUpper(hrp) {
      assert Lower(a) == a;
    } else {
      assert IsLower(a[|hrp| + 1]);
    }
  }

  lemma ReadsHrp(part: string, groups: seq<nat>, hrp: string, program: seq<nat>)
    requires ByteText(part) && Below(groups, 32) && ReadGroups(part, groups) == Some((hrp, program))
    ensures part == hrp
  {
    hide Words, Polymod, Remainder, Value, Pow2, Ungrouped;
  }

  // ----- errors

  /** The text with a stretch of it replaced. */
  function Patched(text: string, i: nat, wrong: string): (r: string)
    requires i + |wrong| <= |text|
  {
    text[..i] + wrong + text[i + |wrong|..]
  }

  /** Replacing up to six consecutive characters after the separator by any others makes a reader refuse the text. */
  lemma PatchRefused(hrp: string, program: seq<nat>, i: nat, wrong: string)
    requires ByteText(hrp) && Program(program)
    requires |hrp| < i && i + |wrong| <= |Address(hrp, program)| && |wrong| <= 6
    requires wrong != Address(hrp, program)[i..i + |wrong|]
    ensures ParseAddress(Patched(Address(hrp, program), i, wrong)) == None
  {
    hide Text, Read, LastSeparator, ReadGroups, Payload, ParseAddress;
    var payload := Payload(hrp, program);
    var own, t := Address(hrp, program), Text(payload);
    var j := i - |hrp| - 1;
    ReadText(payload);
    var rest := Patched(t, j, wrong);
    assert Patched(own, i, wrong) == hrp + "1" + rest;
    assert own[i..i + |wrong|] == t[j..j + |wrong|];
    if '1' in rest {
      SecondSeparator(hrp, rest);
    } else {
      GroupsExact(hrp, payload, program);
      PatchedGroups(hrp, payload, j, wrong);
    }
  }

  lemma PatchedGroups(hrp: string, payload: seq<nat>, j: nat, wrong: string)
    requires ByteText(hrp) && Below(payload, 32) && ReadGroups(hrp, payload).Some?
    requires j + |wrong| <= |payload| && |wrong| <= 6 && wrong != Text(payload)[j..j + |wrong|]
    requires '1' !in Patched(Text(payload), j, wrong)
    ensures ParseAddress(hrp + "1" + Patched(Text(payload), j, wrong)) == None
  {
    hide Text, Read, LastSeparator, ReadGroups, Patched;
    var rest := Patched(Text(payload), j, wrong);
    var bad := hrp + "1" + rest;
    SeparatorFound(hrp, rest);
    assert bad[..|hrp|] == hrp && bad[|hrp| + 1..] == rest;
    if Read(rest).Some? {
      var groups := Read(rest).value;
      TextRead(rest);
      StretchDiffers(payload, groups, j, wrong);
      StretchRefused(hrp, payload, groups, j, |wrong|);
    }
  }

  /** A separator behind the first one leaves too few groups. */
  lemma SecondSeparator(hrp: string, rest: string)
    requires '1' in rest && |rest| <= 59
    ensures ParseAddress(hrp + "1" + rest) == None
  {
    hide Read, Polymod, Remainder, Value, Pow2, Ungrouped, Words, LastSeparator;
    var text := hrp + "1" + rest;
    var m :| 0 <= m < |rest| && rest[m] == '1';
    assert text[|hrp| + 1 + m] == '1';
    match LastSeparator(text)
    case None =>
    case Some(k) =>
      AfterSeparator(text, k, |hrp| + 1 + m);
  }

  lemma AfterSeparator(text: string, k: nat, m: nat)
    requires k < |text| && '1' !in text[k + 1..] && m < |text| && text[m] == '1'
    ensures m <= k
  {
  }

  lemma StretchDiffers(payload: seq<nat>, groups: seq<nat>, j: nat, wrong: string)
    requires Below(payload, 32) && Below(groups, 32) && j + |wrong| <= |payload|
    requires Text(groups) == Patched(Text(payload), j, wrong) && wrong != Text(payload)[j..j + |wrong|]
    ensures |groups| == |payload| && groups != payload
    ensures groups[..j] == payload[..j] && groups[j + |wrong|..] == payload[j + |wrong|..]
  {
    hide Symbol, Group;
    var k := |wrong|;
    assert |groups| == |Text(groups)| == |payload|;
    forall m | 0 <= m < |groups| && !(j <= m < j + k) ensures groups[m] == payload[m] {
      assert Symbol(groups[m]) == Text(groups)[m] == Text(payload)[m] == Symbol(payload[m]);
      GroupOfSymbol(groups[m]);
      GroupOfSymbol(payload[m]);
    }
    assert Patched(Text(payload), j, wrong)[j..j + k] == wrong;
  }

  lemma WordsThree(a: seq<nat>, b: seq<nat>, c: seq<nat>)
    requires Below(a, 32) && Below(b, 32) && Below(c, 32)
    ensures Below(a + b + c, 32) && Words(a + b + c) == Words(a) + Words(b) + Words(c)
    ensures Small(Words(a)) && Small(Words(b)) && Small(Words(c))
  {
    hide Words;
    WordsAppend(a, b);
    WordsAppend(a + b, c);
    WordsSmall(a);
    WordsSmall(b);
    WordsSmall(c);
  }

  lemma StretchRefused(hrp: string, payload: seq<nat>, groups: seq<nat>, j: nat, k: nat)
    requires ByteText(hrp) && Below(payload, 32) && Below(groups, 32) && j + k <= |payload| == |groups| && k <= 6
    requires groups[..j] == payload[..j] && groups[j + k..] == payload[j + k..] && groups != payload
    requires ReadGroups(hrp, payload).Some?
    ensures ReadGroups(hrp, groups) == None
  {
    hide Words, Expanded, Polymod, Remainder, Value, Pow2, Ungrouped, Small, Below;
    var e := Expanded(hrp);
    ExpandedBelow(hrp);
    SplitStretch(e, payload, j, k);
    SplitStretch(e, groups, j, k);
    var before, after := e + payload[..j], payload[j + k..];
    var a, b := payload[j..j + k], groups[j..j + k];
    WordsThree(before, a, after);
    WordsThree(before, b, after);
    assert Words(a) != Words(b) by {
      if Words(a) == Words(b) {
        WordsInjective(a, b);
      }
    }
    BurstDetected(Words(before), Words(a), Words(b), Words(after));
  }

  lemma SplitStretch(e: seq<nat>, groups: seq<nat>, j: nat, k: nat)
    requires j + k <= |groups| && Below(e, 32) && Below(groups, 32)
    ensures e + groups == (e + groups[..j]) + groups[j..j + k] + groups[j + k..]
    ensures groups == groups[..j] + groups[j..j + k] + groups[j + k..]
    ensures Below(e + groups[..j], 32) && Below(groups[j..j + k], 32) && Below(groups[j + k..], 32)
  {
  }

  /** Replacing any one character after the separator. */
  lemma SingleCharacterRefused(hrp: string, program: seq<nat>, i: nat, wrong: char)
    requires ByteText(hrp) && Program(program)
    requires |hrp| < i < |Address(hrp, program)| && wrong != Address(hrp, program)[i]
    ensures ParseAddress(Address(hrp, program)[i := wrong]) == None
  {
    hide ParseAddress, Address;
    var own := Address(hrp, program);
    assert own[i := wrong] == Patched(own, i, [wrong]);
    assert own[i..i + 1] == [own[i]];
    PatchRefused(hrp, program, i, [wrong]);
  }

  /** BURST ERRORS. Replacing up to six consecutive characters after the separator, by text that differs in more than
      its case, makes the standard's decoder refuse the address. */
  lemma BurstRefused(hrp: string, program: seq<nat>, i: nat, wrong: string)
    requires StandardPart(hrp) && ByteText(hrp) && Program(program)
    requires |hrp| < i && i + |wrong| <= |Address(hrp, program)| && |wrong| <= 6
    requires Lower(wrong) != Address(hrp, program)[i..i + |wrong|]
    ensures Decode(Patched(Address(hrp, program), i, wrong)) == None
  {
    hide ParseAddress, Mixed, VisiblePart, Address;
    var own := Address(hrp, program);
    AddressText(hrp, program);
    PatchRefused(hrp, program, i, Lower(wrong));
    assert Lower(Patched(own, i, wrong)) == Patched(own, i, Lower(wrong));
  }
}
