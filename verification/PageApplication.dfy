/** Applying a page of a consistent branch succeeds and leaves the state of a
    straight scan; the steps follow `ApplyBatch`. */
module PageApplication {
  import opened Wrappers
  import opened Blocks
  import opened BranchFacts
  import opened RecoverySpec
  import opened StraightScan

  // ----- merging

  lemma MergeNewAligned(st: WalletState, r: Restored, position: nat, state: OutputState)
    requires Aligned(st) && FindOutput(st.outputs, r.commitment).None?
    ensures var next := MergeNew(st, r, position, state);
            && Aligned(next)
            && next.secrets == st.secrets + [OutputSecret(st.nextId, r.blinding)]
  {
    hide FindMetadata;
    assert FindSecret(st.secrets, st.nextId).None?;
    var next := MergeNew(st, r, position, state);
    var n := |st.outputs|;
    hide RememberSecret, FindSecret;
    assert |next.outputs| == n + 1 && next.outputs[n].id == st.nextId;
    forall i | 0 <= i < n ensures next.outputs[i] == st.outputs[i]
        && st.outputs[i].commitment != next.outputs[n].commitment {
    }
  }

  lemma MergeNewEffect(st: WalletState, r: Restored, position: nat, state: OutputState, c: Commitment)
    requires Aligned(st) && FindOutput(st.outputs, r.commitment).None?
    ensures var next := MergeNew(st, r, position, state);
            && Aligned(next)
            && EntryFor(next, c) == if c == r.commitment then Some(Entry(Found(r, position), state))
              else EntryFor(st, c)
  {
    MergeNewAligned(st, r, position, state);
    var next := MergeNew(st, r, position, state);
    var n := |st.outputs|;
    assert next.outputs[..n] == st.outputs;
    assert FindOutput(next.outputs, c) ==
           if FindOutput(st.outputs, c).Some? then FindOutput(st.outputs, c)
           else if c == r.commitment then Some(n) else None;
  }

  function NewState(r: Restored, batch: Batch, reportSpends: bool, maturity: nat): OutputState {
    ScanState(r, if reportSpends then SpentAt(batch.blocks, r.commitment) else None, batch.tip.height, maturity)
  }

  ghost predicate SameLedger(a: WalletState, b: WalletState) {
    && a.window == b.window && a.scannedBlocks == b.scannedBlocks && a.scannedOutputs == b.scannedOutputs
    && a.legacyOutputs == b.legacyOutputs && a.cursor == b.cursor && a.generation == b.generation
  }

  ghost predicate Mergeable(st: WalletState, list: seq<Restored>, batch: Batch, maturity: nat) {
    && Aligned(st) && DistinctKeys(list)
    && forall i :: 0 <= i < |list| ==>
         && EntryFor(st, list[i].commitment).None?
         && OutputAt(batch.blocks, list[i].commitment).Some?
         && list[i].height + maturity <= U64_MAX
  }

  ghost predicate MergedAt(st: WalletState, next: WalletState, list: seq<Restored>, batch: Batch,
                           reportSpends: bool, maturity: nat, c: Commitment)
    requires Aligned(st) && Aligned(next)
  {
    match FindRestored(list, c)
    case None => EntryFor(next, c) == EntryFor(st, c)
    case Some(r) =>
      && OutputAt(batch.blocks, c).Some?
      && EntryFor(next, c) ==
         Some(Entry(Found(r, OutputAt(batch.blocks, c).value.output.position),
                    NewState(r, batch, reportSpends, maturity)))
  }

  lemma {:induction false} MergeAllEffect(st: WalletState, list: seq<Restored>, batch: Batch, reportSpends: bool,
                                          maturity: nat)
    requires Mergeable(st, list, batch, maturity)
    ensures var r := MergeAll(st, list, batch, reportSpends, maturity);
            && r.Ok? && Aligned(r.value) && SameLedger(st, r.value)
            && |r.value.outputs| == |st.outputs| + |list|
            && forall c :: MergedAt(st, r.value, list, batch, reportSpends, maturity, c)
  {
    if list != [] {
      hide Merge, OutputAt, SpentAt, DistinctKeys, Aligned, MergedAt, SameLedger, EntryFor;
      var n := |list| - 1;
      MergeablePrefix(st, list, batch, maturity);
      MergeAllEffect(st, list[..n], batch, reportSpends, maturity);
      MergeOneEffect(st, MergeAll(st, list[..n], batch, reportSpends, maturity).value, list[..n], list, batch,
                     reportSpends, maturity);
    }
  }

  lemma MergeablePrefix(st: WalletState, list: seq<Restored>, batch: Batch, maturity: nat)
    requires list != [] && Mergeable(st, list, batch, maturity)
    ensures Mergeable(st, list[..|list| - 1], batch, maturity) && Aligned(st)
    ensures OutputAt(batch.blocks, list[|list| - 1].commitment).Some?
  {
    hide OutputAt;
  }

  /** Merging the last output of a list on top of the others. */
  lemma MergeOneEffect(st: WalletState, before: WalletState, front: seq<Restored>, list: seq<Restored>, batch: Batch,
                       reportSpends: bool, maturity: nat)
    requires list != [] && front == list[..|list| - 1] && Mergeable(st, list, batch, maturity)
    requires Aligned(before) && SameLedger(st, before) && |before.outputs| == |st.outputs| + |list| - 1
    requires forall c :: MergedAt(st, before, front, batch, reportSpends, maturity, c)
    ensures var x := list[|list| - 1];
            OutputAt(batch.blocks, x.commitment).Some? &&
            var r := Merge(before, x, OutputAt(batch.blocks, x.commitment).value.output.position,
                           if reportSpends then SpentAt(batch.blocks, x.commitment) else None, batch.tip.height,
                               maturity);
            && r.Ok? && Aligned(r.value) && SameLedger(st, r.value)
            && |r.value.outputs| == |st.outputs| + |list|
            && forall c :: MergedAt(st, r.value, list, batch, reportSpends, maturity, c)
  {
    hide OutputAt, SpentAt;
    var x := list[|list| - 1];
    assert MergedAt(st, before, front, batch, reportSpends, maturity, x.commitment);
    FindRestoredIn(front, x.commitment);
    assert EntryFor(before, x.commitment).None?;
    var position := OutputAt(batch.blocks, x.commitment).value.output.position;
    var spentAt := if reportSpends then SpentAt(batch.blocks, x.commitment) else None;
    var next := Merge(before, x, position, spentAt, batch.tip.height, maturity).value;
    var raised := RaiseFloors(before, x);
    var state := NewState(x, batch, reportSpends, maturity);
    assert next == MergeNew(raised, x, position, state);
    forall c ensures Aligned(next) && MergedAt(st, next, list, batch, reportSpends, maturity, c) {
      assert MergedAt(st, before, front, batch, reportSpends, maturity, c);
      assert Aligned(raised) && EntryFor(raised, c) == EntryFor(before, c);
      MergeNewEffect(raised, x, position, state, c);
    }
    MergeNewEffect(raised, x, position, state, 0);
  }

  // ----- recording blocks: window and counters

  ghost predicate AllBelow(window: seq<Anchor>, height: nat) {
    forall i :: 0 <= i < |window| ==> window[i].height < height
  }

  lemma {:induction false} TotalsAppend(a: seq<Block>, b: seq<Block>)
    ensures OutputTotal(a + b) == OutputTotal(a) + OutputTotal(b)
    ensures ProofOnlyTotal(a + b) == ProofOnlyTotal(a) + ProofOnlyTotal(b)
  {
    if b == [] {
      assert a + b == a;
    } else {
      TotalsAppend(a, b[..|b| - 1]);
      assert (a + b)[..|a + b| - 1] == a + b[..|b| - 1];
    }
  }

  lemma {:induction false} ProofOnlyBound(outputs: seq<ScanOutput>)
    ensures ProofOnlyCount(outputs) <= |outputs|
  {
    if outputs != [] {
      ProofOnlyBound(outputs[..|outputs| - 1]);
    }
  }

  ghost predicate Fits(st: WalletState, page: seq<Block>) {
    && st.scannedBlocks + |page| <= U64_MAX
    && st.scannedOutputs + OutputTotal(page) <= U64_MAX
    && st.legacyOutputs + ProofOnlyTotal(page) <= U64_MAX
    && forall i :: 0 <= i < |page| ==> |page[i].outputs| <= U32_MAX
  }

  // ----- recording blocks: spends

  /** No output already spent elsewhere is spent again by `inputs` at `height`. */
  ghost predicate Spendable(outputs: seq<OutputRecord>, inputs: seq<Commitment>, height: nat) {
    forall i :: 0 <= i < |outputs| && outputs[i].commitment.Some? && outputs[i].commitment.value in inputs ==>
      outputs[i].state.Spent? ==> outputs[i].state.height == height
  }

  ghost predicate DistinctCommitments(outputs: seq<OutputRecord>) {
    && (forall i :: 0 <= i < |outputs| ==> outputs[i].commitment.Some?)
    && (forall i, j :: 0 <= i < j < |outputs| ==> outputs[i].commitment != outputs[j].commitment)
  }

  function MarkSpent(o: OutputRecord, at: Option<nat>): OutputRecord {
    if at.Some? then o.(state := Spent(at.value), reservedBy := None) else o
  }

  ghost predicate Marked(outputs: seq<OutputRecord>, next: seq<OutputRecord>, page: seq<Block>) {
    && |next| == |outputs|
    && forall i :: 0 <= i < |outputs| && outputs[i].commitment.Some? ==>
         next[i] == MarkSpent(outputs[i], SpentAt(page, outputs[i].commitment.value))
  }

  ghost predicate NoRepeat(inputs: seq<Commitment>) {
    forall i, j :: 0 <= i < j < |inputs| ==> inputs[i] != inputs[j]
  }

  ghost predicate SpendsOnce(page: seq<Block>) {
    forall c :: SpendsOnceAt(page, c)
  }

  ghost predicate SpendsOnceAt(page: seq<Block>, c: Commitment) {
    multiset(SpentOn(page))[c] <= 1
  }

  lemma {:induction false} SpendInputsEffect(outputs: seq<OutputRecord>, prior: seq<Commitment>,
                                             inputs: seq<Commitment>, height: nat)
    requires DistinctCommitments(outputs) && Spendable(outputs, inputs, height)
    requires forall c :: c in inputs ==> c !in prior
    requires NoRepeat(inputs)
    ensures var r := SpendInputs(outputs, prior, inputs, height);
            && r.Ok? && |r.value| == |outputs|
            && forall i :: 0 <= i < |outputs| ==>
                 r.value[i] == MarkSpent(outputs[i], if outputs[i].commitment.value in inputs then Some(height)
                                         else None)
  {
    if inputs != [] {
      var n := |inputs| - 1;
      var front, c := inputs[..n], inputs[n];
      assert inputs == front + [c];
      SpendInputsEffect(outputs, prior, front, height);
      var before := SpendInputs(outputs, prior, front, height).value;
      assert c !in front;
      forall i | 0 <= i < |outputs|
        ensures SpendInputs(outputs, prior, inputs, height).Ok?
        ensures SpendInputs(outputs, prior, inputs, height).value[i] ==
                MarkSpent(outputs[i], if outputs[i].commitment.value in inputs then Some(height) else None)
      {
        assert before[i].commitment == outputs[i].commitment;
        match FindOutput(before, c)
        case None => assert outputs[i].commitment != Some(c);
        case Some(k) =>
          assert outputs[k].commitment == Some(c);
          assert before[k] == outputs[k];
      }
    }
  }

  /** The state while the page's blocks are recorded, after the first of them. */
  ghost predicate Recorded(st: WalletState, next: WalletState, page: seq<Block>) {
    && next == st.(outputs := next.outputs,
                   window := st.window + Anchors(page),
                   scannedBlocks := st.scannedBlocks + |page|,
                   scannedOutputs := st.scannedOutputs + OutputTotal(page),
                   legacyOutputs := st.legacyOutputs + ProofOnlyTotal(page))
    && Marked(st.outputs, next.outputs, page)
  }

  /** A page entry is spendable: an output already spent was spent by this very page. */
  ghost predicate SpendsAgree(outputs: seq<OutputRecord>, page: seq<Block>) {
    forall i :: 0 <= i < |outputs| && outputs[i].commitment.Some? ==>
      SpentAt(page, outputs[i].commitment.value).Some? ==>
        outputs[i].state.Spent? ==> outputs[i].state.height == SpentAt(page, outputs[i].commitment.value).value
  }

  lemma SplitLast(page: seq<Block>)
    requires page != [] && SpendsOnce(page)
    ensures var n := |page| - 1;
            && SpendsOnce(page[..n])
            && (forall c :: c in page[n].inputs ==> c !in SpentOn(page[..n]))
            && NoRepeat(page[n].inputs)
  {
    var n := |page| - 1;
    assert SpentOn(page) == SpentOn(page[..n]) + page[n].inputs;
    forall c ensures SpendsOnceAt(page[..n], c) {
      assert SpendsOnceAt(page, c);
    }
    forall c | c in page[n].inputs ensures c !in SpentOn(page[..n]) {
      assert SpendsOnceAt(page, c);
      assert c in multiset(page[n].inputs);
    }
    forall i, j | 0 <= i < j < |page[n].inputs| ensures page[n].inputs[i] != page[n].inputs[j] {
      assert SpendsOnceAt(page, page[n].inputs[i]);
      if page[n].inputs[i] == page[n].inputs[j] {
        CountedTwice(page[n].inputs, i, j);
      }
    }
  }

  lemma RecordAnchorEffect(st: WalletState, before: WalletState, front: seq<Block>, b: Block)
    requires Recorded(st, before, front) && AllBelow(before.window, b.height) && Fits(st, front + [b])
    ensures var r := RecordAnchor(before, b);
            && r.Ok?
            && r.value == st.(outputs := before.outputs,
                              window := st.window + Anchors(front + [b]),
                              scannedBlocks := st.scannedBlocks + |front + [b]|,
                              scannedOutputs := st.scannedOutputs + OutputTotal(front + [b]),
                              legacyOutputs := st.legacyOutputs + ProofOnlyTotal(front + [b]))
  {
    var page := front + [b];
    assert page[..|page| - 1] == front && page[|page| - 1] == b;
    ProofOnlyBound(b.outputs);
    assert Anchors(page) == Anchors(front) + [AnchorOf(b)];
    assert st.window + Anchors(page) == before.window + [AnchorOf(b)];
  }

  lemma RecordSpendsEffect(st: WalletState, before: WalletState, page: seq<Block>)
    requires page != [] && Marked(st.outputs, before.outputs, page[..|page| - 1])
    requires DistinctCommitments(st.outputs) && SpendsAgree(st.outputs, page)
    requires SpendsOnce(page)
    ensures var n := |page| - 1;
            var r := SpendInputs(before.outputs, SpentOn(page[..n]), page[n].inputs, page[n].height);
            r.Ok? && Marked(st.outputs, r.value, page)
  {
    var n := |page| - 1;
    var front, b := page[..n], page[n];
    SplitLast(page);
    forall i | 0 <= i < |st.outputs|
      ensures before.outputs[i] == MarkSpent(st.outputs[i], SpentAt(front, st.outputs[i].commitment.value))
      ensures st.outputs[i].commitment.value in b.inputs ==> before.outputs[i] == st.outputs[i]
    {
      SpentAtIff(front, st.outputs[i].commitment.value);
    }
    SpendInputsEffect(before.outputs, SpentOn(front), b.inputs, b.height);
  }

  lemma {:induction false} RecordBlocksEffect(st: WalletState, page: seq<Block>, first: nat)
    requires Linked(page, first) && AllBelow(st.window, first) && Fits(st, page)
    requires DistinctCommitments(st.outputs) && SpendsAgree(st.outputs, page)
    requires SpendsOnce(page)
    ensures RecordBlocks(st, page).Ok? && Recorded(st, RecordBlocks(st, page).value, page)
  {
    hide Linked, AllBelow, Fits, SpendsAgree, SpendsOnce, DistinctCommitments, Recorded, RecordBlock, Anchors;
    if page == [] {
      RecordedNothing(st);
    } else {
      var n := |page| - 1;
      var front := page[..n];
      LinkedPrefix(page, first, n);
      SplitLast(page);
      FitsPrefix(st, page);
      SpendsAgreePrefix(st.outputs, page);
      RecordBlocksEffect(st, front, first);
      RecordBlockEffect(st, RecordBlocks(st, front).value, page, first);
    }
  }

  lemma RecordedNothing(st: WalletState)
    ensures Recorded(st, st, [])
  {
    assert st.window + Anchors([]) == st.window;
  }

  lemma WindowBelow(window: seq<Anchor>, page: seq<Block>, first: nat)
    requires page != [] && Linked(page, first) && AllBelow(window, first)
    ensures AllBelow(window + Anchors(page[..|page| - 1]), page[|page| - 1].height)
  {
    hide ProofOnlyCount;
  }

  lemma RecordBlockEffect(st: WalletState, before: WalletState, page: seq<Block>, first: nat)
    requires page != [] && Recorded(st, before, page[..|page| - 1])
    requires Linked(page, first) && AllBelow(st.window, first) && Fits(st, page)
    requires DistinctCommitments(st.outputs) && SpendsAgree(st.outputs, page) && SpendsOnce(page)
    ensures var n := |page| - 1;
            var r := RecordBlock(before, SpentOn(page[..n]), page[n]);
            r.Ok? && Recorded(st, r.value, page)
  {
    hide Linked, AllBelow, Fits, SpendsAgree, SpendsOnce, DistinctCommitments, RecordAnchor, SpendInputs, Marked,
         Anchors, OutputTotal, ProofOnlyTotal, SpentOn;
    var n := |page| - 1;
    var front, b := page[..n], page[n];
    assert page == front + [b];
    WindowBelow(st.window, page, first);
    RecordAnchorEffect(st, before, front, b);
    RecordSpendsEffect(st, before, page);
  }

  lemma FitsPrefix(st: WalletState, page: seq<Block>)
    requires page != [] && Fits(st, page)
    ensures Fits(st, page[..|page| - 1])
  {
  }

  lemma SpendsAgreePrefix(outputs: seq<OutputRecord>, page: seq<Block>)
    requires page != [] && SpendsAgree(outputs, page)
    requires SpendsOnce(page)
    ensures SpendsAgree(outputs, page[..|page| - 1])
  {
    var n := |page| - 1;
    forall c | SpentAt(page[..n], c).Some? ensures SpentAt(page, c) == SpentAt(page[..n], c) {
      SpentAtIff(page[..n], c);
      SplitLast(page);
    }
  }

  // ----- sorting and pruning the window

  ghost predicate Ascending(window: seq<Anchor>, base: nat) {
    forall i :: 0 <= i < |window| ==> window[i].height == base + i
  }

  lemma LastAscending(window: seq<Anchor>, base: nat)
    requires window != [] && Ascending(window, base)
    ensures var n := |window| - 1; Ascending(window[..n], base) && window[n].height == base + n
  {
  }

  lemma InsertLast(window: seq<Anchor>, base: nat, a: Anchor)
    requires Ascending(window, base) && a.height == base + |window|
    ensures InsertAnchor(window, a) == window + [a]
  {
  }

  lemma {:induction false} SortIdentity(window: seq<Anchor>, base: nat)
    requires Ascending(window, base)
    ensures SortWindow(window) == window
  {
    hide Ascending, InsertAnchor;
    if window != [] {
      var n := |window| - 1;
      LastAscending(window, base);
      SortIdentity(window[..n], base);
      InsertLast(window[..n], base, window[n]);
      assert window == window[..n] + [window[n]];
    }
  }

  function Skip(window: seq<Anchor>, minimum: nat, base: nat): (r: nat)
    ensures r <= |window|
  {
    Min(|window|, SaturatingSub(minimum, base))
  }

  lemma SkipLast(window: seq<Anchor>, minimum: nat, base: nat)
    requires window != [] && window[|window| - 1].height == base + |window| - 1
    ensures var n := |window| - 1;
      && Skip(window[..n], minimum, base) <= n
      && (window[n].height >= minimum ==> Skip(window, minimum, base) == Skip(window[..n], minimum, base))
      && (window[n].height < minimum ==> Skip(window, minimum, base) == n + 1 && Skip(window[..n], minimum, base) == n)
  {
  }

  lemma {:induction false} KeepFromSuffix(window: seq<Anchor>, minimum: nat, base: nat)
    requires Ascending(window, base)
    ensures KeepFrom(window, minimum) == window[Skip(window, minimum, base)..]
  {
    hide Ascending, Skip, Min, SaturatingSub;
    if window != [] {
      var n := |window| - 1;
      LastAscending(window, base);
      KeepFromSuffix(window[..n], minimum, base);
      SkipLast(window, minimum, base);
      assert window == window[..n] + [window[n]];
    }
  }

  function Cut(window: seq<Anchor>, safe: nat, base: nat): (r: nat)
    ensures r <= |window|
  {
    Min(|window|, SaturatingSub(safe + 1, base))
  }

  lemma CutLast(window: seq<Anchor>, safe: nat, base: nat)
    requires window != [] && window[|window| - 1].height == base + |window| - 1
    ensures var n := |window| - 1;
      && Cut(window[..n], safe, base) <= n
      && (window[n].height > safe ==> Cut(window, safe, base) == Cut(window[..n], safe, base))
      && (window[n].height <= safe ==> Cut(window, safe, base) == n + 1 && Cut(window[..n], safe, base) == n)
  {
  }

  lemma {:induction false} KeepUpToPrefix(window: seq<Anchor>, safe: nat, base: nat)
    requires Ascending(window, base)
    ensures KeepUpTo(window, safe) == window[..Cut(window, safe, base)]
  {
    hide Ascending, Cut, Min, SaturatingSub;
    if window != [] {
      var n := |window| - 1;
      LastAscending(window, base);
      KeepUpToPrefix(window[..n], safe, base);
      CutLast(window, safe, base);
      assert window == window[..n] + [window[n]];
      assert window[..n] + [] == window[..n];
    }
  }

  lemma {:induction false} AboveSuffix(window: seq<Anchor>, safe: nat, base: nat)
    requires Ascending(window, base)
    ensures Above(window, safe) == window[Cut(window, safe, base)..]
  {
    hide Ascending, Cut, Min, SaturatingSub;
    if window != [] {
      var n := |window| - 1;
      LastAscending(window, base);
      AboveSuffix(window[..n], safe, base);
      CutLast(window, safe, base);
      assert window == window[..n] + [window[n]];
      assert window[..n] + [] == window[..n];
    }
  }

  /** The index from which a branch is retained once it has been `length` blocks long. */
  function LowIndex(length: nat): nat {
    SaturatingSub(length, WINDOW_BLOCKS)
  }

  lemma AnchorsDrop(blocks: seq<Block>, low: nat, d: nat)
    requires low + d <= |blocks|
    ensures Anchors(blocks[low..])[d..] == Anchors(blocks[low + d..])
  {
    assert blocks[low..][d..] == blocks[low + d..];
  }

  lemma PruneSuffix(window: seq<Anchor>, base: nat)
    requires Ascending(window, base)
    ensures Prune(window) == window[LowIndex(|window|)..]
  {
    if window != [] {
      var minimum := WindowMinimum(base + |window| - 1);
      if base < minimum {
        KeepFromSuffix(window, minimum, base);
      }
    }
  }

  lemma AnchorsAscend(branch: seq<Block>, first: nat, low: nat)
    requires Linked(branch, first) && low <= |branch|
    ensures Ascending(Anchors(branch[low..]), first + low)
  {
    hide ProofOnlyCount;
  }

  lemma PruneAnchors(branch: seq<Block>, first: nat, low: nat)
    requires Linked(branch, first) && low <= |branch|
    ensures Prune(SortWindow(Anchors(branch[low..]))) == Anchors(branch[Max(low, LowIndex(|branch|))..])
  {
    hide Linked, Anchors, Ascending, SortWindow, Prune;
    var window := Anchors(branch[low..]);
    AnchorsAscend(branch, first, low);
    SortIdentity(window, first + low);
    PruneSuffix(window, first + low);
    AnchorsDrop(branch, low, LowIndex(|window|));
  }

  // ----- maturity

  lemma {:induction false} RefreshEffect(outputs: seq<OutputRecord>, metadata: seq<OutputMetadata>, tip: nat,
                                         maturity: nat)
    requires forall i :: 0 <= i < |outputs| ==> RefreshOne(outputs[i], metadata, tip, maturity).Ok?
    ensures var r := Refresh(outputs, metadata, tip, maturity);
            && r.Ok? && |r.value| == |outputs|
            && forall i :: 0 <= i < |outputs| ==> r.value[i] == RefreshOne(outputs[i], metadata, tip, maturity).value
  {
    if outputs != [] {
      RefreshEffect(outputs[..|outputs| - 1], metadata, tip, maturity);
    }
  }
}
