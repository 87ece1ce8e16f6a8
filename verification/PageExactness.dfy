/** `ApplyBatch` on a page that extends a consistent branch is a straight scan of the longer branch. */
module PageExactness {
  import opened Wrappers
  import opened Blocks
  import opened BranchFacts
  import opened RecoverySpec
  import opened StraightScan
  import opened PageApplication

  /** The page continues the branch and the whole obeys the consensus rules and machine limits. */
  ghost predicate Extends(branch: seq<Block>, page: seq<Block>, first: nat, maturity: nat) {
    Linked(branch + page, first) && Consistent(branch + page) && Representable(branch + page, maturity)
  }

  lemma OwnedHeight(blocks: seq<Block>, first: nat, c: Commitment)
    requires Linked(blocks, first) && OwnedAt(blocks, c).Some?
    ensures OwnedAt(blocks, c).value.restored.commitment == c
    ensures first <= OwnedAt(blocks, c).value.restored.height < first + |blocks|
  {
    OutputAtIff(blocks, c);
    SiteHeights(blocks, first, c);
  }

  lemma OwnedAppend(a: seq<Block>, b: seq<Block>, c: Commitment)
    requires ConsistentAt(a + b, c)
    ensures OwnedAt(a + b, c) == if OutputAt(b, c).Some? then OwnedAt(b, c) else OwnedAt(a, c)
    ensures OutputAt(b, c).Some? ==> OwnedAt(a, c).None?
  {
    SiteAppend(a, b, c);
    ConsistentSplit(a, b, c);
  }

  /** A listed output comes from the page and is new to a state that tracks the branch. */
  lemma ListedIsNew(st: WalletState, branch: seq<Block>, page: seq<Block>, first: nat, maturity: nat, r: Restored)
    requires Tracks(st, branch) && Extends(branch, page, first, maturity)
    requires FindRestored(CapsulesOn(page), r.commitment) == Some(r) || FindRestored(LegacyOn(page), r.commitment)
      == Some(r)
    ensures EntryFor(st, r.commitment).None?
    ensures OutputAt(page, r.commitment).Some? && Recognised(OutputAt(page, r.commitment).value) == Some(r)
    ensures r.height + maturity <= U64_MAX
  {
    var c := r.commitment;
    assert ConsistentAt(branch + page, c);
    ConsistentSplit(branch, page, c);
    ListsAreOwned(page, c);
    OwnedAppend(branch, page, c);
    assert TracksAt(st, branch, c);
    OutputAtIff(page, c);
    var site := OutputAt(page, c).value;
    var i :| 0 <= i < |page| && page[i] == site.block;
    assert (branch + page)[|branch| + i] == site.block;
  }

  lemma DistinctFound(list: seq<Restored>, i: nat)
    requires DistinctKeys(list) && i < |list|
    ensures FindRestored(list, list[i].commitment) == Some(list[i])
  {
    FindRestoredIn(list, list[i].commitment);
  }

  /** The two merges of a page. */
  ghost function Merged(st: WalletState, batch: Batch, maturity: nat): Result<WalletState, RestoreError> {
    var capsules :- MergeAll(st, CapsulesOn(batch.blocks), batch, true, maturity);
    MergeAll(capsules, LegacyOn(batch.blocks), batch, false, maturity)
  }

  /** After the merges: the owned outputs of the longer branch, in-page spends possibly still unmarked. */
  ghost predicate MergedOn(st: WalletState, branch: seq<Block>, page: seq<Block>, c: Commitment)
    requires Aligned(st)
  {
    match OwnedAt(branch + page, c)
    case None => EntryFor(st, c).None?
    case Some(f) =>
      && EntryFor(st, c).Some? && EntryFor(st, c).value.found == f
      && var spend := SpendOf(EntryFor(st, c).value.state);
         if SpentAt(page, c).None? then spend == SpentAt(branch, c)
         else spend == None || spend == SpentAt(page, c)
  }

  lemma CapsulesMergeable(st: WalletState, branch: seq<Block>, batch: Batch, first: nat, maturity: nat)
    requires Tracks(st, branch) && Extends(branch, batch.blocks, first, maturity)
    ensures Mergeable(st, CapsulesOn(batch.blocks), batch, maturity)
  {
    var page := batch.blocks;
    ConsistentParts(branch, page);
    ListsDistinct(page);
    var list := CapsulesOn(page);
    forall i | 0 <= i < |list|
      ensures EntryFor(st, list[i].commitment).None? && OutputAt(page, list[i].commitment).Some?
        && list[i].height + maturity <= U64_MAX
    {
      DistinctFound(list, i);
      ListedIsNew(st, branch, page, first, maturity, list[i]);
    }
  }

  lemma LegacyMergeable(st: WalletState, branch: seq<Block>, batch: Batch, first: nat, maturity: nat,
                        capsules: WalletState)
    requires Tracks(st, branch) && Extends(branch, batch.blocks, first, maturity)
    requires Aligned(capsules)
    requires forall c :: MergedAt(st, capsules, CapsulesOn(batch.blocks), batch, true, maturity, c)
    ensures Mergeable(capsules, LegacyOn(batch.blocks), batch, maturity)
  {
    var page := batch.blocks;
    ConsistentParts(branch, page);
    ListsDistinct(page);
    var list := LegacyOn(page);
    forall i | 0 <= i < |list|
      ensures EntryFor(capsules, list[i].commitment).None? && OutputAt(page, list[i].commitment).Some?
        && list[i].height + maturity <= U64_MAX
    {
      var c := list[i].commitment;
      DistinctFound(list, i);
      ListedIsNew(st, branch, page, first, maturity, list[i]);
      assert MergedAt(st, capsules, CapsulesOn(page), batch, true, maturity, c);
      assert ConsistentAt(page, c);
      ListsAreOwned(page, c);
    }
  }

  lemma MergedCorrect(st: WalletState, branch: seq<Block>, batch: Batch, first: nat, maturity: nat)
    requires Tracks(st, branch) && Extends(branch, batch.blocks, first, maturity)
    ensures var r := Merged(st, batch, maturity);
            && r.Ok? && Aligned(r.value) && SameLedger(st, r.value)
            && |r.value.outputs| == |st.outputs| + |CapsulesOn(batch.blocks)| + |LegacyOn(batch.blocks)|
            && forall c :: MergedOn(r.value, branch, batch.blocks, c)
  {
    var page := batch.blocks;
    CapsulesMergeable(st, branch, batch, first, maturity);
    MergeAllEffect(st, CapsulesOn(page), batch, true, maturity);
    var capsules := MergeAll(st, CapsulesOn(page), batch, true, maturity).value;
    LegacyMergeable(st, branch, batch, first, maturity, capsules);
    MergeAllEffect(capsules, LegacyOn(page), batch, false, maturity);
    var merged := MergeAll(capsules, LegacyOn(page), batch, false, maturity).value;
    forall c ensures MergedOn(merged, branch, page, c) {
      assert MergedAt(st, capsules, CapsulesOn(page), batch, true, maturity, c);
      assert MergedAt(capsules, merged, LegacyOn(page), batch, false, maturity, c);
      MergedOnAt(st, branch, batch, first, maturity, capsules, merged, c);
    }
  }

  lemma MergedOnAt(st: WalletState, branch: seq<Block>, batch: Batch, first: nat, maturity: nat,
                   capsules: WalletState, merged: WalletState, c: Commitment)
    requires Tracks(st, branch) && Extends(branch, batch.blocks, first, maturity)
    requires Aligned(capsules) && Aligned(merged)
    requires MergedAt(st, capsules, CapsulesOn(batch.blocks), batch, true, maturity, c)
    requires MergedAt(capsules, merged, LegacyOn(batch.blocks), batch, false, maturity, c)
    ensures MergedOn(merged, branch, batch.blocks, c)
  {
    hide Linked, OutputAt, SpentAt, CreatedOn, SpentOn, LegacyOutput, CapsulesOn, LegacyOn, FindRestored;
    var page := batch.blocks;
    assert ConsistentAt(branch + page, c);
    ConsistentSplit(branch, page, c);
    OwnedAppend(branch, page, c);
    SiteAppend(branch, page, c);
    ListsAreOwned(page, c);
    assert TracksAt(st, branch, c);
    LinkedParts(branch, page, first);
    SiteHeights(branch, first, c);
    SiteHeights(page, first + |branch|, c);
  }

  // ----- after the merges

  lemma SameLookup(a: seq<OutputRecord>, b: seq<OutputRecord>, c: Commitment)
    requires |a| == |b| && forall i :: 0 <= i < |a| ==> a[i].commitment == b[i].commitment
    ensures FindOutput(a, c) == FindOutput(b, c)
  {
  }

  lemma MergedSpendsAgree(merged: WalletState, branch: seq<Block>, page: seq<Block>)
    requires Aligned(merged) && Consistent(branch + page) && forall c :: MergedOn(merged, branch, page, c)
    ensures SpendsAgree(merged.outputs, page) && DistinctCommitments(merged.outputs)
  {
    forall i | 0 <= i < |merged.outputs| && SpentAt(page, merged.outputs[i].commitment.value).Some?
      ensures merged.outputs[i].state.Spent? ==>
        merged.outputs[i].state.height == SpentAt(page, merged.outputs[i].commitment.value).value
    {
      var c := merged.outputs[i].commitment.value;
      EntryAt(merged, i);
      assert MergedOn(merged, branch, page, c);
    }
  }

  /** A merged, spend-marked record as a straight scan sees it, up to maturity. */
  lemma MarkedRecord(merged: WalletState, next: seq<OutputRecord>, branch: seq<Block>, page: seq<Block>, first: nat,
                     i: nat)
    requires Aligned(merged) && Linked(branch + page, first) && i < |merged.outputs|
    requires merged.outputs[i].commitment.Some? && MergedOn(merged, branch, page, merged.outputs[i].commitment.value)
    requires Marked(merged.outputs, next, page)
    ensures var c := merged.outputs[i].commitment.value;
            && next[i] == merged.outputs[i].(state := next[i].state)
            && SpendOf(next[i].state) == SpentAt(branch + page, c)
            && OwnedAt(branch + page, c) == Some(EntryOf(next[i], merged.secrets[i], merged.metadata[i]).found)
            && next[i].discovered < first + |branch + page|
  {
    var c := merged.outputs[i].commitment.value;
    EntryAt(merged, i);
    SiteAppend(branch, page, c);
    OwnedHeight(branch + page, first, c);
  }

  ghost predicate ScannedAt(next: seq<OutputRecord>, st: WalletState, branch: seq<Block>, tip: nat, maturity: nat,
                            i: nat)
    requires Aligned(st) && |next| == |st.outputs| && i < |next|
  {
    && next[i].commitment == st.outputs[i].commitment && next[i].reservedBy.None?
    && next[i].account == st.outputs[i].account && next[i].id == st.outputs[i].id
    && Some(EntryOf(next[i], st.secrets[i], st.metadata[i])) == Scan(branch, tip, maturity, next[i].commitment.value)
  }

  lemma RefreshedRecord(merged: WalletState, marked: seq<OutputRecord>, branch: seq<Block>, page: seq<Block>,
                        first: nat, tip: nat, maturity: nat, i: nat)
    requires Aligned(merged) && Extends(branch, page, first, maturity) && i < |merged.outputs|
    requires MergedOn(merged, branch, page, merged.outputs[i].commitment.value)
    requires Marked(merged.outputs, marked, page)
    ensures var r := RefreshOne(marked[i], merged.metadata, tip, maturity);
            && r.Ok?
            && ScannedAt(marked[i := r.value], merged, branch + page, tip, maturity, i)
  {
    MarkedRecord(merged, marked, branch, page, first, i);
    MetadataAt(merged.outputs, merged.secrets, merged.metadata, i);
    var n := marked[i].discovered - first;
    OwnedHeight(branch + page, first, merged.outputs[i].commitment.value);
    assert (branch + page)[n].height == marked[i].discovered;
  }

  lemma ScannedIsExact(st: WalletState, next: WalletState, branch: seq<Block>, page: seq<Block>, tip: nat,
                       maturity: nat)
    requires Aligned(st) && |next.outputs| == |st.outputs| && next.secrets == st.secrets && next.metadata == st.metadata
    requires next.nextId == st.nextId
    requires forall i :: 0 <= i < |next.outputs| ==> ScannedAt(next.outputs, st, branch + page, tip, maturity, i)
    requires forall c :: MergedOn(st, branch, page, c)
    ensures OwnedExact(next, branch + page, tip, maturity)
  {
    forall i | 0 <= i < |next.outputs|
      ensures next.outputs[i] == st.outputs[i].(state := next.outputs[i].state, value := next.outputs[i].value,
                                                discovered := next.outputs[i].discovered)
    {
      assert ScannedAt(next.outputs, st, branch + page, tip, maturity, i);
    }
    assert Aligned(next);
    forall c ensures EntryFor(next, c) == Scan(branch + page, tip, maturity, c) {
      SameLookup(next.outputs, st.outputs, c);
      assert MergedOn(st, branch, page, c);
      match FindOutput(next.outputs, c)
      case Some(i) => assert ScannedAt(next.outputs, st, branch + page, tip, maturity, i);
      case None =>
    }
  }

  lemma RefreshExact(merged: WalletState, marked: seq<OutputRecord>, branch: seq<Block>, page: seq<Block>, first: nat,
                     tip: nat, maturity: nat)
    requires Aligned(merged) && Extends(branch, page, first, maturity)
    requires forall c :: MergedOn(merged, branch, page, c)
    requires Marked(merged.outputs, marked, page)
    ensures var r := Refresh(marked, merged.metadata, tip, maturity);
            && r.Ok? && |r.value| == |merged.outputs|
            && forall i :: 0 <= i < |r.value| ==> ScannedAt(r.value, merged, branch + page, tip, maturity, i)
  {
    forall i | 0 <= i < |marked| ensures RefreshOne(marked[i], merged.metadata, tip, maturity).Ok? {
      RefreshedRecord(merged, marked, branch, page, first, tip, maturity, i);
    }
    RefreshEffect(marked, merged.metadata, tip, maturity);
    var next := Refresh(marked, merged.metadata, tip, maturity).value;
    forall i | 0 <= i < |next| ensures ScannedAt(next, merged, branch + page, tip, maturity, i) {
      RefreshedRecord(merged, marked, branch, page, first, tip, maturity, i);
    }
  }

  lemma PageFits(st: WalletState, branch: seq<Block>, page: seq<Block>, first: nat, low: nat, maturity: nat)
    requires Extends(branch, page, first, maturity) && Counted(st, branch, low)
    ensures Fits(st, page) && AllBelow(st.window, first + |branch|) && SpendsOnce(page)
      && Linked(page, first + |branch|)
    ensures Migrate(st) == Ok(st)
  {
    TotalsAppend(branch, page);
    LinkedParts(branch, page, first);
    ConsistentParts(branch, page);
    forall i | 0 <= i < |page| ensures |page[i].outputs| <= U32_MAX {
      assert (branch + page)[|branch| + i] == page[i];
    }
    forall c ensures SpendsOnceAt(page, c) {
      assert ConsistentAt(page, c);
    }
  }

  lemma CountedAfter(st: WalletState, next: WalletState, branch: seq<Block>, page: seq<Block>, first: nat, low: nat)
    requires Linked(branch + page, first) && Counted(st, branch, low)
    requires next.window == Prune(SortWindow(st.window + Anchors(page)))
    requires next.scannedBlocks == st.scannedBlocks + |page|
    requires next.scannedOutputs == st.scannedOutputs + OutputTotal(page)
    requires next.legacyOutputs == st.legacyOutputs + ProofOnlyTotal(page)
    ensures Counted(next, branch + page, Max(low, LowIndex(|branch + page|)))
  {
    TotalsAppend(branch, page);
    AnchorsAppend(branch, page, low);
    PruneAnchors(branch + page, first, low);
  }

  lemma AnchorsAppend(branch: seq<Block>, page: seq<Block>, low: nat)
    requires low <= |branch|
    ensures Anchors((branch + page)[low..]) == Anchors(branch[low..]) + Anchors(page)
  {
    assert (branch + page)[low..] == branch[low..] + page;
  }

  /** Applying a page that extends the tracked branch succeeds, and the state is then that of
      one straight scan of the longer branch at the tip observed with the page. */
  lemma ApplyBatchExact(st: WalletState, branch: seq<Block>, batch: Batch, first: nat, low: nat, maturity: nat)
    requires Tracks(st, branch) && Counted(st, branch, low)
    requires Extends(branch, batch.blocks, first, maturity)
    ensures var r := ApplyBatch(st, batch, maturity);
            && r.Ok?
            && OwnedExact(r.value, branch + batch.blocks, batch.tip.height, maturity)
            && Counted(r.value, branch + batch.blocks, Max(low, LowIndex(|branch + batch.blocks|)))
            && |r.value.outputs| == |st.outputs| + |CapsulesOn(batch.blocks)| + |LegacyOn(batch.blocks)|
            && r.value.cursor == st.cursor && r.value.generation == st.generation
  {
    var page := batch.blocks;
    MergedCorrect(st, branch, batch, first, maturity);
    var merged := Merged(st, batch, maturity).value;
    PageFits(merged, branch, page, first, low, maturity);
    MergedSpendsAgree(merged, branch, page);
    RecordBlocksEffect(merged, page, first + |branch|);
    var recorded := RecordBlocks(merged, page).value;
    RefreshExact(merged, recorded.outputs, branch, page, first, batch.tip.height, maturity);
    var next := ApplyBatch(st, batch, maturity).value;
    ScannedIsExact(merged, next, branch, page, batch.tip.height, maturity);
    CountedAfter(merged, next, branch, page, first, low);
  }
}
