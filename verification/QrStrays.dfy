/** Reassembly among strays: unreadable scans, frames of other messages, replays and conflicting duplicates are refused
    and leave a message in progress as it was. */
module QrStrays {
  import opened Wrappers
  import opened QrFrame
  import opened QrReassembly

  // ----- any state, any frame

  ghost predicate SameHeader(a: Assembly, b: Assembly) {
    b == a.(parts := b.parts, text := b.text)
  }

  /** Whatever a frame is and however it is answered, the message in progress keeps its identity and every part it has;
      at most this frame's own part is added, and only if it belongs to the message; digests are only recorded. */
  lemma NothingLost(st: QrState, f: Frame, sha: seq<Byte> -> Digest)
    ensures var (next, r) := Accept(st, f, sha);
      && st.completed <= next.completed <= st.completed + {f.contentHash}
      && (r.Err? ==> next.completed == st.completed)
      && (st.active.Some? ==>
            && next.active.Some? && SameHeader(st.active.value, next.active.value)
            && (next.active.value.parts != st.active.value.parts ==>
                  && SameMessage(st.active.value, f) && f.partIndex !in st.active.value.parts
                  && next.active.value.parts == st.active.value.parts[f.partIndex := f.payload]))
      && (next.active.Some? && next.active.value.text.Some? ==>
            (st.active.Some? && next.active.value.text == st.active.value.text) || r.Ok?)
  {
    hide Completed, StatusOf;
    if st.active.Some? && f.partIndex in st.active.value.parts && st.active.value.parts[f.partIndex] == f.payload {
      assert st.active.value.parts[f.partIndex := f.payload] == st.active.value.parts;
    }
  }

  /** A frame of another message is refused and changes nothing. */
  lemma OtherRefused(st: QrState, f: Frame, sha: seq<Byte> -> Digest)
    requires st.active.Some? && !SameMessage(st.active.value, f)
    ensures Accept(st, f, sha) ==
      (st, Err(if f.contentHash in st.completed then ReplayRejected else ConflictsWithActive))
  {
    hide SameMessage, Completed;
  }

  /** A duplicate with another payload is refused and changes nothing. */
  lemma DuplicateRefused(st: QrState, f: Frame, sha: seq<Byte> -> Digest)
    requires st.active.Some? && SameMessage(st.active.value, f) && f.contentHash !in st.completed
    requires f.partIndex in st.active.value.parts && st.active.value.parts[f.partIndex] != f.payload
    ensures Accept(st, f, sha) == (st, Err(DuplicateConflicts))
  {
    hide Completed;
  }

  /** A full message that fails its checks stays as it is and fails again on every frame it has, until it is cleared. */
  lemma FailureRepeats(st: QrState, f: Frame, sha: seq<Byte> -> Digest)
    requires st.active.Some? && SameMessage(st.active.value, f) && f.contentHash !in st.completed
    requires |st.active.value.parts| == st.active.value.partCount && Completed(st.active.value, sha).Err?
    requires f.partIndex in st.active.value.parts && st.active.value.parts[f.partIndex] == f.payload
    ensures Accept(st, f, sha) == (st, Err(Completed(st.active.value, sha).error))
  {
    hide Completed;
    assert st.active.value.parts[f.partIndex := f.payload] == st.active.value.parts;
  }

  // ----- a message in progress among strays

  /** One scan while the frames of a text arrive: a frame of the text, or anything else. */
  datatype Scanned = Own(part: nat) | Stray(text: string)

  function Owns(scans: seq<Scanned>): seq<nat> {
    if scans == [] then []
    else
      var n := |scans| - 1;
      Owns(scans[..n]) + (if scans[n].Own? then [scans[n].part] else [])
  }

  function TextOf(frames: seq<string>, s: Scanned): string
    requires s.Own? ==> s.part < |frames|
  {
    if s.Own? then frames[s.part] else s.text
  }

  function FeedScans(st: QrState, frames: seq<string>, scans: seq<Scanned>,
                     sha: seq<Byte> -> Digest): (QrState, seq<Result<Status, QrError>>)
    requires forall k :: 0 <= k < |scans| && scans[k].Own? ==> scans[k].part < |frames|
  {
    if scans == [] then (st, [])
    else
      var n := |scans| - 1;
      var (before, answers) := FeedScans(st, frames, scans[..n], sha);
      var (next, r) := Decode(before, TextOf(frames, scans[n]), sha);
      (next, answers + [r])
  }

  /** A text that cannot disturb the message once the parts in `seen` have arrived: it does not parse, repeats a
      completed message, belongs to another one, or contradicts a part already there. Before the first own frame only
      the first two are harmless, because any other frame would open a message of its own. */
  ghost predicate Harmless(text: seq<Byte>, response: bool, sha: seq<Byte> -> Digest, before: set<Digest>,
                           order: seq<nat>, s: string)
    requires Seen(order) <= Range(PartCount(|text|))
  {
    match ParseFrame(s)
    case Err(_) => true
    case Ok(f) =>
      || f.contentHash in before
      || (order != [] && !SameMessage(Partial(text, response, sha, Seen(order)), f))
      || (order != [] && f.partIndex in Seen(order) && f.payload != Chunk(text, f.partIndex))
  }

  /** A frame that does not carry the digest of the text is harmless once a part has arrived. */
  lemma ForeignIsHarmless(text: seq<Byte>, response: bool, sha: seq<Byte> -> Digest, before: set<Digest>,
                          order: seq<nat>, s: string)
    requires order != [] && Seen(order) <= Range(PartCount(|text|))
    requires ParseFrame(s).Ok? ==> ParseFrame(s).value.contentHash != sha(text)
    ensures Harmless(text, response, sha, before, order, s)
  {
    hide ParseFrame, PartsOf, PartCount;
  }

  lemma StrayRefused(text: seq<Byte>, response: bool, sha: seq<Byte> -> Digest, before: set<Digest>, order: seq<nat>,
                     s: string)
    requires Seen(order) <= Range(PartCount(|text|)) && Harmless(text, response, sha, before, order, s)
    requires sha(text) !in before
    ensures var st := Expected(text, response, sha, before, order);
      Decode(st, s, sha).0 == st && Decode(st, s, sha).1.Err?
  {
    hide ParseFrame, Accept, PartCount, Chunk, Range;
    var st := Expected(text, response, sha, before, order);
    if ParseFrame(s).Ok? {
      var f := ParseFrame(s).value;
      if f.contentHash in before {
        ReplayRefused(st, f, sha);
      } else if !SameMessage(st.active.value, f) {
        OtherRefused(st, f, sha);
      } else {
        DuplicateRefused(st, f, sha);
      }
    }
  }

  lemma ReplayRefused(st: QrState, f: Frame, sha: seq<Byte> -> Digest)
    requires f.contentHash in st.completed
    ensures Accept(st, f, sha) == (st, Err(ReplayRejected))
  {
    hide Completed;
  }

  /** The answers of a sequence of scans: own frames accepted, strays refused, no text but perhaps with the last. */
  ghost predicate AnsweredAmong(text: seq<Byte>, response: bool, sha: seq<Byte> -> Digest, before: set<Digest>,
                                scans: seq<Scanned>, last: QrState, answers: seq<Result<Status, QrError>>)
    requires Seen(Owns(scans)) <= Range(PartCount(|text|))
  {
    && |answers| == |scans|
    && (forall k :: 0 <= k < |scans| ==> (answers[k].Ok? <==> scans[k].Own?))
    && (forall k :: 0 <= k < |scans| - 1 && answers[k].Ok? ==> answers[k].value.text == None)
    && (if Seen(Owns(scans)) == Range(PartCount(|text|))
        then
          && last.completed == before + {sha(text)}
          && scans != [] && answers[|scans| - 1].Ok? && answers[|scans| - 1].value.text == Some(text)
        else
          && last == Expected(text, response, sha, before, Owns(scans))
          && (forall k :: 0 <= k < |scans| && answers[k].Ok? ==> answers[k].value.text == None))
  }

  lemma OwnsLast(scans: seq<Scanned>)
    requires scans != []
    ensures var n := |scans| - 1;
      Owns(scans) == Owns(scans[..n]) + (if scans[n].Own? then [scans[n].part] else [])
  {
  }

  lemma FeedScansLast(st: QrState, frames: seq<string>, scans: seq<Scanned>, sha: seq<Byte> -> Digest)
    requires scans != [] && forall k :: 0 <= k < |scans| && scans[k].Own? ==> scans[k].part < |frames|
    ensures var n := |scans| - 1;
      var (before, answers) := FeedScans(st, frames, scans[..n], sha);
      var (next, r) := Decode(before, TextOf(frames, scans[n]), sha);
      FeedScans(st, frames, scans, sha) == (next, answers + [r])
  {
    hide Decode;
  }

  lemma {:induction false} OwnsInRange(scans: seq<Scanned>, n: nat)
    requires forall k :: 0 <= k < |scans| && scans[k].Own? ==> scans[k].part < n
    ensures Seen(Owns(scans)) <= Range(n)
  {
    hide Range;
    if scans != [] {
      OwnsInRange(scans[..|scans| - 1], n);
    }
  }

  /** Every scan but the last leaves the text incomplete, and every stray is harmless where it comes. */
  ghost predicate Undisturbed(text: seq<Byte>, response: bool, sha: seq<Byte> -> Digest, before: set<Digest>,
                              scans: seq<Scanned>)
    requires forall k :: 0 <= k < |scans| && scans[k].Own? ==> scans[k].part < PartCount(|text|)
  {
    forall k :: 0 <= k < |scans| ==> UndisturbedAt(text, response, sha, before, scans, k)
  }

  ghost predicate UndisturbedAt(text: seq<Byte>, response: bool, sha: seq<Byte> -> Digest, before: set<Digest>,
                                scans: seq<Scanned>, k: nat)
    requires k < |scans|
    requires forall k :: 0 <= k < |scans| && scans[k].Own? ==> scans[k].part < PartCount(|text|)
  {
    OwnsInRange(scans[..k], PartCount(|text|));
    && Seen(Owns(scans[..k])) != Range(PartCount(|text|))
    && (scans[k].Stray? ==> Harmless(text, response, sha, before, Owns(scans[..k]), scans[k].text))
  }

  /** REASSEMBLY AMONG STRAYS. Feed the frames of a slate text in any order with any repetitions, with harmless strays
      anywhere in between, up to the first moment every frame has been seen: own frames are accepted, strays are
      refused, and the scan that brings the last frame yields exactly the text. */
  lemma {:induction false} AnyOrderAmongStrays(text: seq<Byte>, response: bool, sha: seq<Byte> -> Digest,
                                               before: set<Digest>, scans: seq<Scanned>)
    requires SlateText(text) && sha(text) !in before
    requires forall k :: 0 <= k < |scans| && scans[k].Own? ==> scans[k].part < PartCount(|text|)
    requires Undisturbed(text, response, sha, before, scans)
    ensures Seen(Owns(scans)) <= Range(PartCount(|text|))
    ensures EncodeText(text, response, sha).Ok? && |EncodeText(text, response, sha).value| == PartCount(|text|)
    ensures var (last, answers) := FeedScans(QrState(None, before), EncodeText(text, response, sha).value, scans, sha);
      AnsweredAmong(text, response, sha, before, scans, last, answers)
  {
    hide EncodeText, ParseFrame, Accept, PartCount, FrameAt, Expected, SlateText, Seen, Range, FeedScans, Owns,
         Harmless;
    TextFits(text);
    EncodedFrames(text, response, sha);
    OwnsInRange(scans, PartCount(|text|));
    if scans == [] {
      NothingScanned(text, response, sha, before);
    } else {
      var n := |scans| - 1;
      UndisturbedPrefix(text, response, sha, before, scans);
      AnyOrderAmongStrays(text, response, sha, before, scans[..n]);
      assert UndisturbedAt(text, response, sha, before, scans, n);
      LastScan(text, response, sha, before, scans);
    }
  }

  lemma NothingScanned(text: seq<Byte>, response: bool, sha: seq<Byte> -> Digest, before: set<Digest>)
    requires SlateText(text) && EncodeText(text, response, sha).Ok?
    ensures Seen(Owns([])) <= Range(PartCount(|text|))
    ensures var (last, answers) := FeedScans(QrState(None, before), EncodeText(text, response, sha).value, [], sha);
      AnsweredAmong(text, response, sha, before, [], last, answers)
  {
    hide EncodeText, IsAscii;
    assert 0 in Range(PartCount(|text|));
  }

  lemma UndisturbedPrefix(text: seq<Byte>, response: bool, sha: seq<Byte> -> Digest, before: set<Digest>,
                          scans: seq<Scanned>)
    requires scans != []
    requires forall k :: 0 <= k < |scans| && scans[k].Own? ==> scans[k].part < PartCount(|text|)
    requires Undisturbed(text, response, sha, before, scans)
    ensures Undisturbed(text, response, sha, before, scans[..|scans| - 1])
  {
    hide PartCount, Owns, Harmless, Seen, Range;
    var front := scans[..|scans| - 1];
    forall k | 0 <= k < |front| ensures UndisturbedAt(text, response, sha, before, front, k) {
      assert front[..k] == scans[..k];
      assert UndisturbedAt(text, response, sha, before, scans, k);
    }
  }

  lemma LastScan(text: seq<Byte>, response: bool, sha: seq<Byte> -> Digest, before: set<Digest>, scans: seq<Scanned>)
    requires SlateText(text) && sha(text) !in before && scans != []
    requires forall k :: 0 <= k < |scans| && scans[k].Own? ==> scans[k].part < PartCount(|text|)
    requires UndisturbedAt(text, response, sha, before, scans, |scans| - 1)
    requires EncodeText(text, response, sha).Ok? && |EncodeText(text, response, sha).value| == PartCount(|text|)
    requires forall i :: 0 <= i < PartCount(|text|) ==>
      ParseFrame(EncodeText(text, response, sha).value[i]) == Ok(FrameAt(text, response, sha, i))
    requires Seen(Owns(scans[..|scans| - 1])) <= Range(PartCount(|text|))
      && Seen(Owns(scans)) <= Range(PartCount(|text|))
    requires var (st, answers) := FeedScans(QrState(None, before), EncodeText(text, response, sha).value,
                                            scans[..|scans| - 1], sha);
      AnsweredAmong(text, response, sha, before, scans[..|scans| - 1], st, answers)
    ensures var (last, answers) := FeedScans(QrState(None, before), EncodeText(text, response, sha).value, scans, sha);
      AnsweredAmong(text, response, sha, before, scans, last, answers)
  {
    hide EncodeText, ParseFrame, Accept, PartCount, FrameAt, Expected, SlateText, Range, FeedScans, Owns, Harmless,
         AnsweredAmong, Seen;
    var n := |scans| - 1;
    var frames := EncodeText(text, response, sha).value;
    var front := scans[..n];
    var (st, answers) := FeedScans(QrState(None, before), frames, front, sha);
    FeedScansLast(QrState(None, before), frames, scans, sha);
    OwnsLast(scans);
    InProgress(text, response, sha, before, front, st, answers);
    var (next, r) := Decode(st, TextOf(frames, scans[n]), sha);
    if scans[n].Own? {
      NextFrame(text, response, sha, before, Owns(front), scans[n].part);
    } else {
      assert Owns(front) + [] == Owns(front);
      StrayRefused(text, response, sha, before, Owns(front), scans[n].text);
    }
    AmongNext(text, response, sha, before, scans, st, answers, next, r);
  }

  lemma InProgress(text: seq<Byte>, response: bool, sha: seq<Byte> -> Digest, before: set<Digest>, scans: seq<Scanned>,
                   st: QrState, answers: seq<Result<Status, QrError>>)
    requires Seen(Owns(scans)) < Range(PartCount(|text|))
    requires AnsweredAmong(text, response, sha, before, scans, st, answers)
    ensures st == Expected(text, response, sha, before, Owns(scans))
  {
    hide Seen, Range, Owns, Expected, PartCount;
  }

  lemma AmongNext(text: seq<Byte>, response: bool, sha: seq<Byte> -> Digest, before: set<Digest>, scans: seq<Scanned>,
                  st: QrState, answers: seq<Result<Status, QrError>>, next: QrState, r: Result<Status, QrError>)
    requires scans != [] && Seen(Owns(scans)) <= Range(PartCount(|text|))
    requires Seen(Owns(scans[..|scans| - 1])) < Range(PartCount(|text|))
    requires AnsweredAmong(text, response, sha, before, scans[..|scans| - 1], st, answers)
    requires r.Ok? <==> scans[|scans| - 1].Own?
    requires if Seen(Owns(scans)) == Range(PartCount(|text|))
      then next.completed == before + {sha(text)} && r.Ok? && r.value.text == Some(text)
      else next == Expected(text, response, sha, before, Owns(scans)) && (r.Ok? ==> r.value.text == None)
    ensures AnsweredAmong(text, response, sha, before, scans, next, answers + [r])
  {
    hide Seen, Range, Owns, Expected, PartCount;
  }

  /** But a frame of another message that comes first takes the place: every frame of the text is refused until the
      message is cleared. */
  lemma ForeignFirst(text: seq<Byte>, response: bool, sha: seq<Byte> -> Digest, before: set<Digest>, f: Frame, i: nat)
    requires sha(text) !in before && f.contentHash !in before && f.contentHash != sha(text) && i < PartCount(|text|)
    ensures var st := Accept(QrState(None, before), f, sha).0;
      && st.active.Some? && st.active.value.contentHash == f.contentHash
      && Accept(st, FrameAt(text, response, sha, i), sha) == (st, Err(ConflictsWithActive))
  {
    hide Completed, Chunk, PartCount;
    var st := Accept(QrState(None, before), f, sha).0;
    OtherRefused(st, FrameAt(text, response, sha, i), sha);
  }
}
