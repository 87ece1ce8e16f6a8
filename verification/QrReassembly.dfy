/** Multipart slate QR transport: cutting a slate text into frames and putting it back
    together from frames in any order. SHA-256 is an arbitrary function to digests. */
module QrReassembly {
  import opened Wrappers
  import opened QrFrame

  datatype Assembly = Assembly(
    messageId: MessageId,
    response: bool,
    partCount: nat,
    totalLength: nat,
    contentHash: Digest,
    parts: map<nat, seq<Byte>>,
    text: Option<seq<Byte>>)

  datatype QrState = QrState(active: Option<Assembly>, completed: set<Digest>)

  datatype Status = Status(messageId: Option<MessageId>, received: nat, total: nat, response: Option<bool>,
                           text: Option<seq<Byte>>)

  datatype QrError =
    | BadFrame(cause: FrameError)
    | ReplayRejected
    | ConflictsWithActive
    | DuplicateConflicts
    | FrameMissing
    | IntegrityFailed
    | MessageInvalid
    | RoleInvalid
    | TooLarge

  function StatusOf(active: Option<Assembly>): Status {
    match active
    case None => Status(None, 0, 0, None, None)
    case Some(a) => Status(Some(a.messageId), if |a.parts| <= U16_MAX then |a.parts| else 0, a.partCount,
                           Some(a.response), a.text)
  }

  // ----- decoding

  function Opened(f: Frame): Assembly {
    Assembly(f.messageId, f.response, f.partCount, f.totalLength, f.contentHash, map[], None)
  }

  predicate SameMessage(a: Assembly, f: Frame) {
    && a.messageId == f.messageId && a.response == f.response && a.partCount == f.partCount
    && a.totalLength == f.totalLength && a.contentHash == f.contentHash
  }

  function Assemble(parts: map<nat, seq<Byte>>, count: nat): Option<seq<Byte>> {
    if count == 0 then Some([])
    else
      match Assemble(parts, count - 1)
      case None => None
      case Some(front) => if count - 1 in parts then Some(front + parts[count - 1]) else None
  }

  predicate IsAscii(bytes: seq<Byte>) {
    forall i :: 0 <= i < |bytes| ==> bytes[i] < 128
  }

  /** `DOMSLATE4.` */
  const SLATE_PREFIX: seq<Byte> := [68, 79, 77, 83, 76, 65, 84, 69, 52, 46]

  /** A text the wallet exports and accepts: nonempty bounded ASCII with the slate prefix. */
  predicate SlateText(text: seq<Byte>) {
    0 < |text| <= MAX_TEXT_BYTES && IsAscii(text) && SLATE_PREFIX <= text
  }

  /** The checks on a full set of parts. */
  function Completed(a: Assembly, sha: seq<Byte> -> Digest): Result<seq<Byte>, QrError> {
    match Assemble(a.parts, a.partCount)
    case None => Err(FrameMissing)
    case Some(bytes) =>
      if |bytes| != a.totalLength || |bytes| > MAX_TEXT_BYTES || sha(bytes) != a.contentHash then Err(IntegrityFailed)
      else if !IsAscii(bytes) || |bytes| == 0 then Err(MessageInvalid)
      else if !(SLATE_PREFIX <= bytes) then Err(RoleInvalid)
      else Ok(bytes)
  }

  /** `slate_qr_decode_frame` on a parsed frame: the next state, also when it fails, and the answer. */
  function Accept(st: QrState, f: Frame, sha: seq<Byte> -> Digest): (QrState, Result<Status, QrError>) {
    if f.contentHash in st.completed then (st, Err(ReplayRejected))
    else
      var a := if st.active.Some? then st.active.value else Opened(f);
      var begun := st.(active := Some(a));
      if !SameMessage(a, f) then (begun, Err(ConflictsWithActive))
      else if f.partIndex in a.parts && a.parts[f.partIndex] != f.payload then (begun, Err(DuplicateConflicts))
      else
        var b := a.(parts := a.parts[f.partIndex := f.payload]);
        if |b.parts| != b.partCount then (st.(active := Some(b)), Ok(StatusOf(Some(b))))
        else
          match Completed(b, sha)
          case Err(e) => (st.(active := Some(b)), Err(e))
          case Ok(text) =>
            var done := b.(text := Some(text));
            (QrState(Some(done), st.completed + {f.contentHash}), Ok(StatusOf(Some(done))))
  }

  function Decode(st: QrState, s: string, sha: seq<Byte> -> Digest): (QrState, Result<Status, QrError>) {
    match ParseFrame(s)
    case Err(e) => (st, Err(BadFrame(e)))
    case Ok(f) => Accept(st, f, sha)
  }

  /** The loop that joins the parts. */
  method AssembleParts(parts: map<nat, seq<Byte>>, count: nat) returns (r: Option<seq<Byte>>)
    ensures r == Assemble(parts, count)
  {
    var bytes: seq<Byte> := [];
    for index := 0 to count
      invariant Assemble(parts, index) == Some(bytes)
    {
      if index !in parts {
        MissingStays(parts, index + 1, count);
        return None;
      }
      bytes := bytes + parts[index];
    }
    r := Some(bytes);
  }

  /** The reassembler itself. */
  class SlateQrReassembler {
    var active: Option<Assembly>
    var completed: set<Digest>

    function Snapshot(): QrState
      reads this
    {
      QrState(active, completed)
    }

    constructor ()
      ensures Snapshot() == QrState(None, {})
    {
      active, completed := None, {};
    }

    method DecodeFrame(s: string, sha: seq<Byte> -> Digest) returns (r: Result<Status, QrError>)
      modifies this
      ensures (Snapshot(), r) == Decode(old(Snapshot()), s, sha)
    {
      hide ParseFrame, Assemble, SameMessage, IsAscii, Opened, StatusOf;
      var parsed := ParseFrame(s);
      if parsed.Err? {
        return Err(BadFrame(parsed.error));
      }
      var f := parsed.value;
      if f.contentHash in completed {
        return Err(ReplayRejected);
      }
      if active.None? {
        active := Some(Opened(f));
      }
      var a := active.value;
      if !SameMessage(a, f) {
        return Err(ConflictsWithActive);
      }
      if f.partIndex in a.parts {
        if a.parts[f.partIndex] != f.payload {
          return Err(DuplicateConflicts);
        }
        assert a.parts[f.partIndex := f.payload] == a.parts;
      } else {
        a := a.(parts := a.parts[f.partIndex := f.payload]);
        active := Some(a);
      }
      if |a.parts| == a.partCount {
        var assembled := AssembleParts(a.parts, a.partCount);
        if assembled.None? {
          return Err(FrameMissing);
        }
        var bytes := assembled.value;
        if |bytes| != a.totalLength || |bytes| > MAX_TEXT_BYTES || sha(bytes) != a.contentHash {
          return Err(IntegrityFailed);
        }
        if !IsAscii(bytes) || |bytes| == 0 {
          return Err(MessageInvalid);
        }
        if !(SLATE_PREFIX <= bytes) {
          return Err(RoleInvalid);
        }
        a := a.(text := Some(bytes));
        active := Some(a);
        completed := completed + {f.contentHash};
      }
      r := Ok(StatusOf(active));
    }

    method Clear()
      modifies this
      ensures Snapshot() == old(Snapshot()).(active := None)
    {
      active := None;
    }
  }

  lemma {:induction false} MissingStays(parts: map<nat, seq<Byte>>, k: nat, count: nat)
    requires k <= count && Assemble(parts, k).None?
    ensures Assemble(parts, count).None?
  {
    if k < count {
      MissingStays(parts, k, count - 1);
    }
  }

  // ----- encoding

  function PartCount(length: nat): nat {
    (length + PAYLOAD_BYTES - 1) / PAYLOAD_BYTES
  }

  function Chunk(text: seq<Byte>, i: nat): (c: seq<Byte>)
    requires i < PartCount(|text|)
    ensures |c| <= PAYLOAD_BYTES
  {
    text[i * PAYLOAD_BYTES..Min((i + 1) * PAYLOAD_BYTES, |text|)]
  }

  function FrameAt(text: seq<Byte>, response: bool, sha: seq<Byte> -> Digest, i: nat): Frame
    requires i < PartCount(|text|)
  {
    var hash := sha(text);
    Frame(FRAME_VERSION, hash[..16], response, i, PartCount(|text|), |text|, hash, Chunk(text, i))
  }

  function EncodeParts(text: seq<Byte>, response: bool, sha: seq<Byte> -> Digest, k: nat)
    : Result<seq<string>, FrameError>
    requires k <= PartCount(|text|)
  {
    if k == 0 then Ok([])
    else
      var front :- EncodeParts(text, response, sha, k - 1);
      var last :- EncodeFrame(FrameAt(text, response, sha, k - 1));
      Ok(front + [last])
  }

  /** `slate_qr_encode` on the exported text. */
  function EncodeText(text: seq<Byte>, response: bool, sha: seq<Byte> -> Digest): Result<seq<string>, QrError> {
    if |text| > MAX_TEXT_BYTES then Err(TooLarge)
    else if PartCount(|text|) == 0 || PartCount(|text|) > MAX_FRAMES then Err(BadFrame(FrameInvalid))
    else
      match EncodeParts(text, response, sha, PartCount(|text|))
      case Err(e) => Err(BadFrame(e))
      case Ok(frames) => Ok(frames)
  }

  lemma FramesAreValid(text: seq<Byte>, response: bool, sha: seq<Byte> -> Digest, i: nat)
    requires 0 < |text| <= MAX_TEXT_BYTES && i < PartCount(|text|)
    ensures PartCount(|text|) <= MAX_FRAMES && ValidFrame(FrameAt(text, response, sha, i))
  {
  }

  lemma {:induction false} EncodePartsEffect(text: seq<Byte>, response: bool, sha: seq<Byte> -> Digest, k: nat)
    requires 0 < |text| <= MAX_TEXT_BYTES && k <= PartCount(|text|)
    ensures var r := EncodeParts(text, response, sha, k);
            && r.Ok? && |r.value| == k
            && forall i :: 0 <= i < k ==> ParseFrame(r.value[i]) == Ok(FrameAt(text, response, sha, i))
  {
    hide ParseFrame, EncodeFrame, FrameAt, ValidFrame;
    if k > 0 {
      EncodePartsEffect(text, response, sha, k - 1);
      FramesAreValid(text, response, sha, k - 1);
      FrameRoundTrip(FrameAt(text, response, sha, k - 1));
    }
  }

  /** Every nonempty text within the limit is encoded, into frames that parse back to its parts. */
  lemma EncodedFrames(text: seq<Byte>, response: bool, sha: seq<Byte> -> Digest)
    requires 0 < |text| <= MAX_TEXT_BYTES
    ensures var r := EncodeText(text, response, sha);
            && r.Ok? && |r.value| == PartCount(|text|)
            && forall i :: 0 <= i < |r.value| ==> ParseFrame(r.value[i]) == Ok(FrameAt(text, response, sha, i))
  {
    hide ParseFrame, FrameAt, EncodeParts;
    FramesAreValid(text, response, sha, 0);
    EncodePartsEffect(text, response, sha, PartCount(|text|));
  }

  /** A text is encoded exactly when it is not empty and within the limit. */
  lemma EncodedIff(text: seq<Byte>, response: bool, sha: seq<Byte> -> Digest)
    ensures EncodeText(text, response, sha).Ok? <==> 0 < |text| <= 2_097_280
    ensures EncodeText(text, response, sha) == Err(TooLarge) <==> |text| > 2_097_280
  {
    hide EncodeParts;
    if 0 < |text| <= MAX_TEXT_BYTES {
      EncodedFrames(text, response, sha);
    }
  }

  // ----- any order

  function Seen(order: seq<nat>): set<nat> {
    set i | i in order
  }

  function Range(n: nat): (r: set<nat>)
    ensures forall i: nat :: i in r <==> i < n
    ensures |r| == n
  {
    if n == 0 then {} else Range(n - 1) + {n - 1}
  }

  /** A subset of the part numbers is as large as they are exactly when it is all of them. */
  lemma FullExactly(s: set<nat>, n: nat)
    requires s <= Range(n)
    ensures |s| == n <==> s == Range(n)
    ensures |s| <= n
  {
    var rest := Range(n) - s;
    assert Range(n) == s + rest;
    assert |Range(n)| == |s| + |rest|;
    assert |rest| == 0 <==> rest == {};
  }

  function PartsOf(text: seq<Byte>, s: set<nat>): map<nat, seq<Byte>>
    requires s <= Range(PartCount(|text|))
  {
    map i | i in s :: Chunk(text, i)
  }

  /** The assembly that has seen the parts in `s`. */
  function Partial(text: seq<Byte>, response: bool, sha: seq<Byte> -> Digest, s: set<nat>): Assembly
    requires s <= Range(PartCount(|text|))
  {
    var hash := sha(text);
    Assembly(hash[..16], response, PartCount(|text|), |text|, hash, PartsOf(text, s), None)
  }

  lemma {:induction false} AssembleChunks(text: seq<Byte>, k: nat)
    requires k <= PartCount(|text|)
    ensures Assemble(PartsOf(text, Range(PartCount(|text|))), k) == Some(text[..Min(k * PAYLOAD_BYTES, |text|)])
  {
    if k > 0 {
      hide Chunk, Min, PartCount, Range, PartsOf;
      AssembleChunks(text, k - 1);
      PartAt(text, k - 1);
      ChunkJoins(text, k - 1);
    } else {
      assert text[..0] == [];
    }
  }

  lemma PartAt(text: seq<Byte>, i: nat)
    requires i < PartCount(|text|)
    ensures var parts := PartsOf(text, Range(PartCount(|text|))); i in parts && parts[i] == Chunk(text, i)
  {
    hide Chunk, PartCount;
  }

  lemma ChunkJoins(text: seq<Byte>, i: nat)
    requires i < PartCount(|text|)
    ensures text[..Min(i * PAYLOAD_BYTES, |text|)] + Chunk(text, i) == text[..Min((i + 1) * PAYLOAD_BYTES, |text|)]
  {
    var low, high := i * PAYLOAD_BYTES, Min((i + 1) * PAYLOAD_BYTES, |text|);
    assert Min(low, |text|) == low;
    assert text[..low] + text[low..high] == text[..high];
  }

  /** The states a reassembler goes through while the frames of one text arrive in some order. */
  function Expected(text: seq<Byte>, response: bool, sha: seq<Byte> -> Digest, before: set<Digest>,
                    order: seq<nat>): QrState
    requires Seen(order) <= Range(PartCount(|text|))
  {
    if order == [] then QrState(None, before) else QrState(Some(Partial(text, response, sha, Seen(order))), before)
  }

  /** One more frame of the text: accepted, whether new or a duplicate. It completes the text exactly
      when no part is missing any more, and then yields the text itself. */
  lemma NextFrame(text: seq<Byte>, response: bool, sha: seq<Byte> -> Digest, before: set<Digest>, order: seq<nat>,
                  i: nat)
    requires SlateText(text) && sha(text) !in before
    requires Seen(order) < Range(PartCount(|text|)) && i < PartCount(|text|)
    ensures Seen(order + [i]) == Seen(order) + {i} <= Range(PartCount(|text|))
    ensures var n := PartCount(|text|);
            var seen := Seen(order) + {i};
            var (next, r) := Accept(Expected(text, response, sha, before, order), FrameAt(text, response, sha, i), sha);
            if seen == Range(n) then
              && next.completed == before + {sha(text)}
              && r == Ok(Status(Some(sha(text)[..16]), n, n, Some(response), Some(text)))
            else
              && next == Expected(text, response, sha, before, order + [i])
              && r == Ok(Status(Some(sha(text)[..16]), |seen|, n, Some(response), None))
  {
    hide Chunk, PartCount, Assemble, Range, IsAscii, Accept, Completed, SameMessage, SlateText, FrameAt, PartsOf,
         Expected, Partial;
    var n := PartCount(|text|);
    var seen := Seen(order) + {i};
    assert Seen(order + [i]) == seen;
    var st, f := Expected(text, response, sha, before, order), FrameAt(text, response, sha, i);
    PartialGrows(text, response, sha, before, order, i);
    var b := Partial(text, response, sha, seen);
    AcceptAdds(st, f, sha, b);
    FullExactly(seen, n);
    TextFits(text);
    PartialStatus(text, response, sha, seen);
    if seen == Range(n) {
      PartialCompletes(text, response, sha);
    } else {
      assert Expected(text, response, sha, before, order + [i]) == QrState(Some(b), before) by {
        ExpectedNext(text, response, sha, before, order + [i]);
      }
    }
  }

  function Started(st: QrState, f: Frame): Assembly {
    if st.active.Some? then st.active.value else Opened(f)
  }

  /** A frame that agrees with the active message adds its part, and completes the message when none is missing. */
  lemma AcceptAdds(st: QrState, f: Frame, sha: seq<Byte> -> Digest, b: Assembly)
    requires f.contentHash !in st.completed && SameMessage(Started(st, f), f)
    requires f.partIndex in Started(st, f).parts ==> Started(st, f).parts[f.partIndex] == f.payload
    requires b == Started(st, f).(parts := Started(st, f).parts[f.partIndex := f.payload])
    ensures |b.parts| != b.partCount ==> Accept(st, f, sha) == (st.(active := Some(b)), Ok(StatusOf(Some(b))))
    ensures |b.parts| == b.partCount && Completed(b, sha).Ok? ==>
      var done := b.(text := Some(Completed(b, sha).value));
      Accept(st, f, sha) == (QrState(Some(done), st.completed + {f.contentHash}), Ok(StatusOf(Some(done))))
  {
    hide Completed, SameMessage, StatusOf;
  }

  lemma PartialGrows(text: seq<Byte>, response: bool, sha: seq<Byte> -> Digest, before: set<Digest>, order: seq<nat>,
                     i: nat)
    requires Seen(order) <= Range(PartCount(|text|)) && i < PartCount(|text|)
    ensures Seen(order) + {i} <= Range(PartCount(|text|))
    ensures var st, f := Expected(text, response, sha, before, order), FrameAt(text, response, sha, i);
      && st.completed == before && f.contentHash == sha(text) && f.partIndex == i
      && SameMessage(Started(st, f), f)
      && (i in Started(st, f).parts ==> Started(st, f).parts[i] == f.payload)
      && Partial(text, response, sha, Seen(order) + {i}) == Started(st,
                                                                    f).(parts := Started(st, f).parts[i := f.payload])
  {
    hide Chunk, PartCount, Range;
    PartsGrow(text, Seen(order), i);
    if order == [] {
      assert PartsOf(text, Seen(order)) == map[];
    }
  }

  lemma PartialStatus(text: seq<Byte>, response: bool, sha: seq<Byte> -> Digest, s: set<nat>)
    requires s <= Range(PartCount(|text|)) && PartCount(|text|) <= U16_MAX
    ensures var a := Partial(text, response, sha, s);
      && |a.parts| == |s| && a.partCount == PartCount(|text|) && a.text == None
      && (forall t :: StatusOf(Some(a.(text := t))) == Status(Some(sha(text)[..16]), |s|, PartCount(|text|),
                                                              Some(response), t))
      && StatusOf(Some(a)) == Status(Some(sha(text)[..16]), |s|, PartCount(|text|), Some(response), None)
  {
    hide Chunk, PartCount;
    assert PartsOf(text, s).Keys == s;
    FullExactly(s, PartCount(|text|));
  }

  lemma PartialCompletes(text: seq<Byte>, response: bool, sha: seq<Byte> -> Digest)
    requires SlateText(text)
    ensures Completed(Partial(text, response, sha, Range(PartCount(|text|))), sha) == Ok(text)
  {
    hide Assemble, PartCount, PartsOf, Range;
    WholeText(text);
  }

  lemma ExpectedNext(text: seq<Byte>, response: bool, sha: seq<Byte> -> Digest, before: set<Digest>, order: seq<nat>)
    requires order != [] && Seen(order) <= Range(PartCount(|text|))
    ensures Expected(text, response, sha, before, order) == QrState(Some(Partial(text, response, sha, Seen(order))),
                                                                    before)
  {
  }

  lemma PartsGrow(text: seq<Byte>, s: set<nat>, i: nat)
    requires s <= Range(PartCount(|text|)) && i < PartCount(|text|)
    ensures PartsOf(text, s)[i := Chunk(text, i)] == PartsOf(text, s + {i})
    ensures |PartsOf(text, s + {i})| == |s + {i}|
    ensures i in PartsOf(text, s) ==> PartsOf(text, s)[i] == Chunk(text, i)
  {
    assert PartsOf(text, s + {i}).Keys == s + {i};
  }

  lemma WholeText(text: seq<Byte>)
    ensures Assemble(PartsOf(text, Range(PartCount(|text|))), PartCount(|text|)) == Some(text)
  {
    AssembleChunks(text, PartCount(|text|));
    assert PartCount(|text|) * PAYLOAD_BYTES >= |text|;
    assert text[..|text|] == text;
  }

  /** Feed the encoded frames of a text in a given order. */
  function Feed(st: QrState, frames: seq<string>, order: seq<nat>, sha: seq<Byte> -> Digest): (QrState,
      seq<Result<Status, QrError>>)
    requires forall k :: 0 <= k < |order| ==> order[k] < |frames|
  {
    if order == [] then (st, [])
    else
      var n := |order| - 1;
      var (before, answers) := Feed(st, frames, order[..n], sha);
      var (next, r) := Decode(before, frames[order[n]], sha);
      (next, answers + [r])
  }

  /** The answers to the frames of a text in a given order: all accepted, none complete but perhaps the last. */
  ghost predicate Answered(text: seq<Byte>, response: bool, sha: seq<Byte> -> Digest, before: set<Digest>,
                           order: seq<nat>, last: QrState, answers: seq<Result<Status, QrError>>)
    requires order != [] && Seen(order) <= Range(PartCount(|text|))
  {
    && |answers| == |order|
    && (forall k :: 0 <= k < |order| ==> answers[k].Ok?)
    && (forall k :: 0 <= k < |order| - 1 ==> answers[k].value.text == None)
    && (if Seen(order) == Range(PartCount(|text|))
        then answers[|order| - 1].value.text == Some(text) && last.completed == before + {sha(text)}
        else answers[|order| - 1].value.text == None && last == Expected(text, response, sha, before, order))
  }

  lemma FeedLast(st: QrState, frames: seq<string>, order: seq<nat>, sha: seq<Byte> -> Digest)
    requires order != [] && forall k :: 0 <= k < |order| ==> order[k] < |frames|
    ensures var n := |order| - 1;
      var (before, answers) := Feed(st, frames, order[..n], sha);
      var (next, r) := Decode(before, frames[order[n]], sha);
      Feed(st, frames, order, sha) == (next, answers + [r])
  {
    hide Decode;
  }

  /** One more frame of the text on top of an incomplete sequence. */
  lemma AnsweredNext(text: seq<Byte>, response: bool, sha: seq<Byte> -> Digest, before: set<Digest>, front: seq<nat>,
                     i: nat, st: QrState, answers: seq<Result<Status, QrError>>)
    requires SlateText(text) && sha(text) !in before
    requires Seen(front) < Range(PartCount(|text|)) && i < PartCount(|text|)
    requires st == Expected(text, response, sha, before, front) && |answers| == |front|
    requires forall k :: 0 <= k < |front| ==> answers[k].Ok? && answers[k].value.text == None
    ensures Seen(front + [i]) <= Range(PartCount(|text|))
    ensures var (next, r) := Accept(st, FrameAt(text, response, sha, i), sha);
      Answered(text, response, sha, before, front + [i], next, answers + [r])
  {
    hide Accept, PartCount, FrameAt, Expected, SlateText, Seen, Range;
    NextFrame(text, response, sha, before, front, i);
  }

  /** REASSEMBLY IN ANY ORDER. Take any slate text and feed its encoded frames in any order with any
      repetitions, up to the first moment every frame has been seen. Every frame is accepted; every
      answer before the last reports the text incomplete; the last yields exactly the text. */
  lemma {:induction false} AnyOrder(text: seq<Byte>, response: bool, sha: seq<Byte> -> Digest, before: set<Digest>,
                                    order: seq<nat>)
    requires SlateText(text) && sha(text) !in before && order != []
    requires forall k :: 0 <= k < |order| ==> order[k] < PartCount(|text|)
    requires Seen(order[..|order| - 1]) != Range(PartCount(|text|))
    ensures Seen(order) <= Range(PartCount(|text|))
    ensures EncodeText(text, response, sha).Ok? && |EncodeText(text, response, sha).value| == PartCount(|text|)
    ensures var (last, answers) := Feed(QrState(None, before), EncodeText(text, response, sha).value, order, sha);
            Answered(text, response, sha, before, order, last, answers)
  {
    hide EncodeText, ParseFrame, Accept, PartCount, FrameAt, Expected, SlateText, Seen, Range, Feed;
    TextFits(text);
    EncodedFrames(text, response, sha);
    var frames := EncodeText(text, response, sha).value;
    var n := |order| - 1;
    var front := order[..n];
    assert order == front + [order[n]];
    SeenInRange(front, PartCount(|text|));
    FeedLast(QrState(None, before), frames, order, sha);
    var (st, answers) := Feed(QrState(None, before), frames, front, sha);
    if front == [] {
      FeedNothing(QrState(None, before), frames, sha);
      NothingSeen(text, response, sha, before);
    } else {
      SeenPrefix(front, PartCount(|text|));
      AnyOrder(text, response, sha, before, front);
    }
    AnsweredNext(text, response, sha, before, front, order[n], st, answers);
  }

  lemma FeedNothing(st: QrState, frames: seq<string>, sha: seq<Byte> -> Digest)
    ensures Feed(st, frames, [], sha) == (st, [])
  {
  }

  lemma NothingSeen(text: seq<Byte>, response: bool, sha: seq<Byte> -> Digest, before: set<Digest>)
    ensures Seen([]) <= Range(PartCount(|text|))
    ensures Expected(text, response, sha, before, []) == QrState(None, before)
  {
  }

  lemma TextFits(text: seq<Byte>)
    requires SlateText(text)
    ensures 0 < |text| <= MAX_TEXT_BYTES && PartCount(|text|) <= MAX_FRAMES <= U16_MAX
  {
  }

  lemma SeenInRange(order: seq<nat>, n: nat)
    requires forall k :: 0 <= k < |order| ==> order[k] < n
    ensures Seen(order) <= Range(n)
  {
  }

  lemma SeenPrefix(order: seq<nat>, n: nat)
    requires order != [] && (forall k :: 0 <= k < |order| ==> order[k] < n) && Seen(order) != Range(n)
    ensures Seen(order[..|order| - 1]) != Range(n)
  {
    var front := order[..|order| - 1];
    assert Seen(front) <= Seen(order) <= Range(n);
  }

  // ----- arbitrary runs

  datatype Op = Scan(text: string) | Clear

  /** A completed message: its declared hash and length and its text. */
  datatype Completion = Completion(hash: Digest, length: nat, text: seq<Byte>)

  function Apply(st: QrState, op: Op, sha: seq<Byte> -> Digest): (QrState, Option<Completion>) {
    match op
    case Clear => (st.(active := None), None)
    case Scan(s) =>
      var (next, r) := Decode(st, s, sha);
      if r.Ok? && r.value.text.Some? && ParseFrame(s).Ok? then
        var f := ParseFrame(s).value;
        (next, Some(Completion(f.contentHash, f.totalLength, r.value.text.value)))
      else (next, None)
  }

  function Completions(st: QrState, ops: seq<Op>, sha: seq<Byte> -> Digest): (QrState, seq<Completion>) {
    if ops == [] then (st, [])
    else
      var (before, done) := Completions(st, ops[..|ops| - 1], sha);
      var (next, c) := Apply(before, ops[|ops| - 1], sha);
      (next, if c.Some? then done + [c.value] else done)
  }

  /** A message whose text is known is recorded as completed. */
  ghost predicate Recorded(st: QrState) {
    st.active.Some? && st.active.value.text.Some? ==> st.active.value.contentHash in st.completed
  }

  ghost predicate Genuine(c: Completion, sha: seq<Byte> -> Digest) {
    sha(c.text) == c.hash && |c.text| == c.length && SlateText(c.text)
  }

  lemma AcceptKeeps(st: QrState, f: Frame, sha: seq<Byte> -> Digest)
    requires Recorded(st)
    ensures var (next, r) := Accept(st, f, sha);
            && Recorded(next) && st.completed <= next.completed
            && (r.Ok? && r.value.text.Some? ==>
                  && f.contentHash !in st.completed && f.contentHash in next.completed
                  && Genuine(Completion(f.contentHash, f.totalLength, r.value.text.value), sha))
  {
    hide Assemble;
  }

  /** Over every run of scans and clears from an empty reassembler: a returned text always has the declared
      length, digest and slate form, and no content hash is ever returned twice. */
  lemma {:induction false} CompletedAtMostOnce(ops: seq<Op>, sha: seq<Byte> -> Digest)
    ensures var (st, done) := Completions(QrState(None, {}), ops, sha);
            && Recorded(st)
            && (forall i :: 0 <= i < |done| ==> Genuine(done[i], sha) && done[i].hash in st.completed)
            && (forall i, j :: 0 <= i < j < |done| ==> done[i].hash != done[j].hash)
  {
    hide ParseFrame, Accept, Genuine;
    if ops != [] {
      var n := |ops| - 1;
      CompletedAtMostOnce(ops[..n], sha);
      var (before, done) := Completions(QrState(None, {}), ops[..n], sha);
      match ops[n]
      case Clear =>
      case Scan(s) =>
        if ParseFrame(s).Ok? {
          AcceptKeeps(before, ParseFrame(s).value, sha);
        }
    }
  }

  lemma PrefixSpelt()
    ensures |SLATE_PREFIX| == |"DOMSLATE4."|
    ensures forall i :: 0 <= i < |SLATE_PREFIX| ==> SLATE_PREFIX[i] == "DOMSLATE4."[i] as nat
  {
  }
}
