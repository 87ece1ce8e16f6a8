/** Reorg transparency: after any run, whatever was rewound and replayed on the way,
    the durable state is that of one straight scan of Core's current branch. */
module Transparency {
  import opened Wrappers
  import opened Blocks
  import opened BranchFacts
  import opened RecoverySpec
  import opened StraightScan
  import opened PageApplication
  import opened PageExactness
  import opened RewindExactness
  import opened ScanAdapter
  import opened CursorWindow
  import opened HonestCore

  /** What a durable state stands for: the branch scanned from height `first`, the greatest
      length that branch ever had, and the tip height observed with the last commit. */
  datatype Ledger = Ledger(first: nat, branch: seq<Block>, peak: nat, tip: nat)

  ghost predicate Fresh(st: WalletState) {
    && st.outputs == [] && st.secrets == [] && st.metadata == [] && st.window == [] && st.cursor == None
    && st.scannedBlocks == 0 && st.scannedOutputs == 0 && st.legacyOutputs == 0
  }

  ghost predicate ValidLedger(l: Ledger, maturity: nat) {
    && Linked(l.branch, l.first) && Consistent(l.branch) && Representable(l.branch, maturity)
    && |l.branch| <= l.peak && 0 < l.first + |l.branch|
    && (if l.branch == [] then l.peak == 0 && l.first == 1 else LowIndex(l.peak) < |l.branch|)
  }

  /** The durable state is exactly one straight scan of the ledger's branch. */
  ghost predicate Faithful(st: WalletState, l: Ledger, maturity: nat) {
    && ValidLedger(l, maturity)
    && OwnedExact(st, l.branch, l.tip, maturity)
    && Counted(st, l.branch, LowIndex(l.peak))
    && st.cursor.Some? && st.cursor.value.height + 1 == l.first + |l.branch|
    && (l.branch != [] ==> st.cursor.value == RefOf(l.branch[|l.branch| - 1]))
  }

  lemma FreshTracks(st: WalletState)
    requires Fresh(st)
    ensures Tracks(st, []) && Counted(st, [], 0)
  {
    assert Anchors([]) == [];
    forall c ensures TracksAt(st, [], c) {}
  }

  lemma HashAscending(window: seq<Anchor>, base: nat, h: nat)
    requires Ascending(window, base)
    ensures CommittedHash(window, h) == if base <= h < base + |window| then Some(window[h - base].hash) else None
  {
    hide FindAnchor;
    if base <= h < base + |window| {
      assert window[h - base].height == h;
    }
  }

  /** The window of a faithful state holds the branch from the low index up. */
  lemma RetainedHashes(st: WalletState, l: Ledger, maturity: nat, h: nat)
    requires Faithful(st, l, maturity)
    ensures CommittedHash(st.window, h) ==
            if l.first + LowIndex(l.peak) <= h < l.first + |l.branch| then Some(l.branch[h - l.first].hash) else None
  {
    hide OwnedExact, Consistent, Representable, ProofOnlyTotal, OutputTotal, CommittedHash, Linked, Anchors, LowIndex;
    AnchorHashes(l.branch, l.first, LowIndex(l.peak), h);
  }

  lemma AnchorHashes(branch: seq<Block>, first: nat, low: nat, h: nat)
    requires Linked(branch, first) && low <= |branch|
    ensures CommittedHash(Anchors(branch[low..]), h) ==
            if first + low <= h < first + |branch| then Some(branch[h - first].hash) else None
  {
    hide CommittedHash, Linked, Ascending, AnchorOf;
    AnchorsAscend(branch, first, low);
    HashAscending(Anchors(branch[low..]), first + low, h);
    if first + low <= h < first + |branch| {
      AnchorHash(branch[low..], h - first - low);
    }
  }

  lemma AnchorHash(blocks: seq<Block>, i: nat)
    requires i < |blocks|
    ensures Anchors(blocks)[i].hash == blocks[i].hash
  {
  }

  lemma FaithfulAgrees(st: WalletState, l: Ledger, maturity: nat)
    requires Faithful(st, l, maturity)
    ensures CursorAgrees(st)
  {
    hide OwnedExact, Consistent, Representable, ProofOnlyTotal, OutputTotal, Linked, AnchorOf;
    AnchorsLinked(l.branch, l.first, LowIndex(l.peak));
  }

  lemma AnchorsLinked(branch: seq<Block>, first: nat, low: nat)
    requires Linked(branch, first) && low <= |branch|
    ensures WindowLinked(Anchors(branch[low..]))
    ensures low < |branch| ==> EndsAt(Anchors(branch[low..]), RefOf(branch[|branch| - 1]))
  {
    hide ProofOnlyCount;
    var window := Anchors(branch[low..]);
    forall i | 0 < i < |window| ensures Follows(window, i) {
      assert Joins(branch, low + i);
      assert window[i] == AnchorOf(branch[low + i]) && window[i - 1] == AnchorOf(branch[low + i - 1]);
    }
  }

  /** The cursor and the generation play no part in the agreement with a branch. */
  lemma Relabelled(st: WalletState, cursor: Option<BlockRef>, generation: nat, branch: seq<Block>, low: nat, tip: nat,
                   maturity: nat)
    requires OwnedExact(st, branch, tip, maturity) && Counted(st, branch, low)
    ensures OwnedExact(st.(cursor := cursor, generation := generation), branch, tip, maturity)
    ensures Counted(st.(cursor := cursor, generation := generation), branch, low)
  {
    var next := st.(cursor := cursor, generation := generation);
    forall c ensures EntryFor(next, c) == Scan(branch, tip, maturity, c) {
      assert EntryFor(st, c) == Scan(branch, tip, maturity, c);
    }
  }

  lemma GenerationIgnored(st: WalletState, l: Ledger, generation: nat, maturity: nat)
    requires Faithful(st, l, maturity)
    ensures Faithful(st.(generation := generation), l, maturity)
  {
    hide OwnedExact, Counted, Consistent, Representable;
    Relabelled(st, st.cursor, generation, l.branch, LowIndex(l.peak), l.tip, maturity);
  }

  /** Extending the branch by an accepted page. */
  lemma ExtendFaithful(st: WalletState, branch: seq<Block>, peak: nat, batch: Batch, whole: seq<Block>,
                       cursor: BlockRef, first: nat, maturity: nat)
    requires Tracks(st, branch) && Counted(st, branch, LowIndex(peak)) && |branch| <= peak
    requires Extends(branch, batch.blocks, first, maturity)
    requires whole == branch + batch.blocks && whole != [] && cursor == RefOf(whole[|whole| - 1])
    requires branch != [] ==> LowIndex(peak) < |branch|
    requires branch == [] ==> peak == 0
    ensures ApplyBatch(st, batch, maturity).Ok?
    ensures var next := ApplyBatch(st, batch, maturity).value.(cursor := Some(cursor));
            Faithful(next, Ledger(first, whole, Max(peak, |whole|), batch.tip.height), maturity)
  {
    hide ApplyBatch, OwnedExact, Tracks, Consistent, Representable, Counted, Linked, LowIndex;
    ApplyBatchExact(st, branch, batch, first, LowIndex(peak), maturity);
    LastHeight(whole, first);
    LowestOfBoth(peak, |whole|);
    var low := LowIndex(Max(peak, |whole|));
    var next := ApplyBatch(st, batch, maturity).value;
    Relabelled(next, Some(cursor), next.generation, whole, low, batch.tip.height, maturity);
    assert next.(cursor := Some(cursor), generation := next.generation) == next.(cursor := Some(cursor));
  }

  lemma LastHeight(branch: seq<Block>, first: nat)
    requires Linked(branch, first) && branch != []
    ensures branch[|branch| - 1].height == first + |branch| - 1
  {
  }

  lemma LowestOfBoth(peak: nat, length: nat)
    requires length > 0
    ensures Max(LowIndex(peak), LowIndex(length)) == LowIndex(Max(peak, length))
    ensures LowIndex(peak) < length ==> LowIndex(Max(peak, length)) < length
    ensures peak == 0 ==> LowIndex(peak) == 0
  {
  }

  ghost predicate ValidChain(chain: seq<Block>, universe: set<Block>, maturity: nat) {
    Consistent(chain) && Representable(chain, maturity) && InUniverse(chain, universe) && CollisionFree(universe)
  }

  // ----- the three kinds of commit

  /** A first page, or a bootstrap at genesis. */
  lemma FirstCommit(cfg: Config, st: WalletState, s: Step, chain: seq<Block>, universe: set<Block>, maturity: nat)
    requires Fresh(st) && Truthful(s.page, chain) && ValidChain(chain, universe, maturity)
    requires Committed(cfg, st, s, maturity).Some?
    ensures var next := Committed(cfg, st, s, maturity).value;
            var first := if next.window == [] then 1 else next.window[0].height;
            && next.cursor.Some? && OnChain(chain, next.cursor.value) && first <= next.cursor.value.height + 1
            && first <= 1 && (s.wallet ==> first == 1)
            && Faithful(next, SliceLedger(first, chain, next.cursor.value.height, 0), maturity)
  {
    hide ApplyBatch, Faithful, Consistent, Representable, Validates, ScanFrom, BootstrapPlan, Linked;
    FirstPage(cfg, st, s, chain);
    var plan := Decide(cfg, st.window, st.cursor, s.search, s.page, s.wallet).value;
    FirstPageFaithful(st, plan.batch, plan.cursor, if s.wallet then 1 else 0, chain, universe, maturity);
    var next := ApplyBatch(st, plan.batch, maturity).value.(cursor := Some(plan.cursor));
    var first := if next.window == [] then 1 else next.window[0].height;
    GenerationIgnored(next, SliceLedger(first, chain, plan.cursor.height, 0), st.generation + 1, maturity);
  }

  /** Consecutive slices of a valid chain: the second extends the first. */
  lemma SliceExtends(chain: seq<Block>, first: nat, n: nat, m: nat, maturity: nat)
    requires first <= n <= m <= |chain|
    requires Linked(chain, 0) && Consistent(chain) && Representable(chain, maturity)
    ensures Extends(chain[first..n], chain[n..m], first, maturity)
    ensures chain[first..n] + chain[n..m] == chain[first..m]
  {
    hide Linked, Consistent, Representable;
    assert chain[first..n] + chain[n..m] == chain[first..m];
    SliceValid(chain, first, m, maturity);
  }

  /** The ledger of a chain scanned from `first` up to `height`. */
  ghost function SliceLedger(first: nat, chain: seq<Block>, height: nat, peak: nat): Ledger
    requires first <= height + 1 <= |chain|
  {
    Ledger(first, chain[first..height + 1], Max(peak, height + 1 - first), |chain| - 1)
  }

  /** A page of the chain on top of a scanned slice of it. */
  lemma SliceFaithful(st: WalletState, chain: seq<Block>, first: nat, n: nat, m: nat, peak: nat, batch: Batch,
                      cursor: BlockRef, maturity: nat)
    requires first <= n <= m <= |chain| && first < m
    requires Linked(chain, 0) && Consistent(chain) && Representable(chain, maturity)
    requires Tracks(st, chain[first..n]) && Counted(st, chain[first..n], LowIndex(peak)) && n - first <= peak
    requires n > first ==> LowIndex(peak) < n - first
    requires n == first ==> peak == 0
    requires batch.blocks == chain[n..m] && batch.tip.height == |chain| - 1 && cursor == RefOf(chain[m - 1])
    ensures ApplyBatch(st, batch, maturity).Ok? && cursor.height == m - 1
    ensures Faithful(ApplyBatch(st, batch, maturity).value.(cursor := Some(cursor)),
                     SliceLedger(first, chain, m - 1, peak), maturity)
  {
    hide ApplyBatch, OwnedExact, Tracks, Consistent, Representable, Counted, Extends, Linked, LowIndex, Faithful;
    HeightAt(chain, m - 1);
    SliceExtends(chain, first, n, m, maturity);
    SliceLast(chain, first, m);
    ExtendFaithful(st, chain[first..n], peak, batch, chain[first..m], cursor, first, maturity);
  }

  lemma SliceLast(chain: seq<Block>, i: nat, j: nat)
    requires i < j <= |chain|
    ensures chain[i..j][|chain[i..j]| - 1] == chain[j - 1]
  {
  }

  lemma FirstPageFaithful(st: WalletState, batch: Batch, cursor: BlockRef, start: nat, chain: seq<Block>,
                          universe: set<Block>, maturity: nat)
    requires Fresh(st) && chain != [] && Linked(chain, 0) && ValidChain(chain, universe, maturity)
    requires batch.tip == TipOf(chain) && start <= 1
    requires batch.blocks == [] ==> |chain| == 1 && cursor == TipOf(chain)
    requires batch.blocks != [] ==>
      && start + |batch.blocks| <= |chain| && batch.blocks == chain[start..start + |batch.blocks|]
      && |batch.blocks| <= MAX_BATCH_BLOCKS && cursor == RefOf(batch.blocks[|batch.blocks| - 1])
    ensures ApplyBatch(st, batch, maturity).Ok?
    ensures var next := ApplyBatch(st, batch, maturity).value.(cursor := Some(cursor));
            var first := if next.window == [] then 1 else next.window[0].height;
            && OnChain(chain, cursor) && first <= cursor.height + 1 && first <= 1 && (start == 1 ==> first == 1)
            && Faithful(next, SliceLedger(first, chain, cursor.height, 0), maturity)
  {
    hide ApplyBatch, Consistent, Representable, OwnedExact, Counted, Linked, CollisionFree, InUniverse, Faithful;
    HeightAt(chain, |chain| - 1);
    if batch.blocks == [] {
      GenesisFaithful(st, batch, cursor, maturity);
      assert chain[1..1] == [];
    } else {
      FirstBlocksFaithful(st, batch, cursor, start, chain, universe, maturity);
    }
  }

  lemma FirstBlocksFaithful(st: WalletState, batch: Batch, cursor: BlockRef, start: nat, chain: seq<Block>,
                            universe: set<Block>, maturity: nat)
    requires Fresh(st) && chain != [] && Linked(chain, 0) && ValidChain(chain, universe, maturity)
    requires batch.tip == TipOf(chain)
    requires 0 < |batch.blocks| <= MAX_BATCH_BLOCKS && start + |batch.blocks| <= |chain|
    requires batch.blocks == chain[start..start + |batch.blocks|] && cursor == RefOf(chain[start + |batch.blocks| - 1])
    ensures ApplyBatch(st, batch, maturity).Ok?
    ensures var next := ApplyBatch(st, batch, maturity).value.(cursor := Some(cursor));
            && next.window != [] && next.window[0].height == start
            && cursor.height + 1 == start + |batch.blocks|
            && Faithful(next, SliceLedger(start, chain, cursor.height, 0), maturity)
  {
    hide ApplyBatch, Consistent, Representable, OwnedExact, Tracks, Counted, Linked, CollisionFree, InUniverse;
    FreshTracks(st);
    var m := start + |batch.blocks|;
    HeightAt(chain, |chain| - 1);
    assert chain[start..start] == [];
    assert LowIndex(0) == 0 && LowIndex(|batch.blocks|) == 0;
    SliceFaithful(st, chain, start, start, m, 0, batch, cursor, maturity);
    SliceLinked(chain, start, m);
    FirstHeight(ApplyBatch(st, batch, maturity).value.(cursor := Some(cursor)), batch.blocks, start);
  }

  lemma FirstHeight(st: WalletState, branch: seq<Block>, first: nat)
    requires Counted(st, branch, 0) && branch != [] && Linked(branch, first)
    ensures st.window != [] && st.window[0].height == first
  {
    hide ProofOnlyCount, ProofOnlyTotal, OutputTotal;
  }

  lemma FirstPage(cfg: Config, st: WalletState, s: Step, chain: seq<Block>)
    requires Fresh(st) && Truthful(s.page, chain)
    requires Decide(cfg, st.window, st.cursor, s.search, s.page, s.wallet).Ok?
    requires !Decide(cfg, st.window, st.cursor, s.search, s.page, s.wallet).value.Nothing?
    ensures var plan := Decide(cfg, st.window, st.cursor, s.search, s.page, s.wallet).value;
            var start := if s.wallet then 1 else 0;
            && plan.CommitPage? && plan.batch.tip == TipOf(chain) && |plan.batch.blocks| <= MAX_BATCH_BLOCKS
            && (plan.batch.blocks == [] ==> |chain| == 1 && plan.cursor == TipOf(chain))
            && (plan.batch.blocks != [] ==>
                  && start + |plan.batch.blocks| <= |chain|
                  && plan.batch.blocks == chain[start..start + |plan.batch.blocks|]
                  && plan.cursor == RefOf(plan.batch.blocks[|plan.batch.blocks| - 1]))
  {
    assert chain[|chain| - 1].height == |chain| - 1;
    if s.wallet {
      if |chain| > 1 {
        TruthfulScanFrom(cfg, s.page, chain, 1);
      }
    } else {
      TruthfulScanFrom(cfg, s.page, chain, 0);
    }
  }

  lemma GenesisFaithful(st: WalletState, batch: Batch, cursor: BlockRef, maturity: nat)
    requires Fresh(st) && batch.blocks == [] && cursor.height == 0
    ensures ApplyBatch(st, batch, maturity).Ok?
    ensures var next := ApplyBatch(st, batch, maturity).value.(cursor := Some(cursor));
            next.window == [] && Faithful(next, Ledger(1, [], 0, batch.tip.height), maturity)
  {
    FreshTracks(st);
    var none: seq<Block> := [];
    assert none + batch.blocks == none;
    assert Consistent(none) by {
      forall c ensures ConsistentAt(none, c) {}
    }
    ApplyBatchExact(st, none, batch, 1, 0, maturity);
    var next := ApplyBatch(st, batch, maturity).value;
    Relabelled(next, Some(cursor), next.generation, none, 0, batch.tip.height, maturity);
    assert next.(cursor := Some(cursor), generation := next.generation) == next.(cursor := Some(cursor));
  }

  /** A normal page above a cursor Core still has. */
  lemma NormalCommit(st: WalletState, l: Ledger, a: BlockRef, batch: Batch, cursor: BlockRef, chain: seq<Block>,
                     universe: set<Block>, maturity: nat)
    requires Faithful(st, l, maturity) && st.cursor == Some(a) && InUniverse(l.branch, universe)
    requires chain != [] && Linked(chain, 0) && ValidChain(chain, universe, maturity) && OnChain(chain, a)
    requires batch.tip == TipOf(chain) && batch.blocks != [] && cursor == RefOf(batch.blocks[|batch.blocks| - 1])
    requires a.height + 1 + |batch.blocks| <= |chain|
    requires batch.blocks == chain[a.height + 1..a.height + 1 + |batch.blocks|]
    ensures ApplyBatch(st, batch, maturity).Ok?
    ensures OnChain(chain, cursor) && l.first <= cursor.height + 1
    ensures Faithful(ApplyBatch(st, batch, maturity).value.(cursor := Some(cursor)),
                     SliceLedger(l.first, chain, cursor.height, l.peak), maturity)
  {
    hide ApplyBatch, OwnedExact, Tracks, Consistent, Representable, Counted, Linked, CollisionFree, InUniverse,
         Faithful, LowIndex;
    var n, m := a.height + 1, a.height + 1 + |batch.blocks|;
    FaithfulSlice(st, l, a, chain, universe, maturity);
    SliceLast(chain, n, m);
    HeightAt(chain, m - 1);
    HeightAt(chain, |chain| - 1);
    SliceFaithful(st, chain, l.first, n, m, l.peak, batch, cursor, maturity);
  }

  /** A faithful state whose cursor is on a chain has scanned a slice of that chain. */
  lemma FaithfulSlice(st: WalletState, l: Ledger, a: BlockRef, chain: seq<Block>, universe: set<Block>, maturity: nat)
    requires Faithful(st, l, maturity) && st.cursor == Some(a) && InUniverse(l.branch, universe)
    requires Linked(chain, 0) && InUniverse(chain, universe) && CollisionFree(universe) && OnChain(chain, a)
    ensures l.first <= a.height + 1 && l.branch == chain[l.first..a.height + 1]
    ensures Tracks(st, l.branch) && Counted(st, l.branch, LowIndex(l.peak)) && |l.branch| <= l.peak
    ensures if l.branch == [] then l.peak == 0 else LowIndex(l.peak) < |l.branch|
  {
    hide OwnedExact, Tracks, Consistent, Representable, Counted, Linked, CollisionFree, InUniverse, LowIndex;
    ExactTracks(st, l.branch, l.tip, maturity);
    if l.branch != [] {
      BranchIsSlice(l.branch, l.first, chain, universe);
    }
  }

  /** A replacement page: that it joins the retained branch is what `validate` checks, so this
      holds even when Core has moved between the anchor search and the page. */
  lemma ReorgCommit(st: WalletState, l: Ledger, anchor: BlockRef, batch: Batch, cursor: BlockRef, chain: seq<Block>,
                    universe: set<Block>, maturity: nat)
    requires Faithful(st, l, maturity) && InUniverse(l.branch, universe) && ValidChain(chain, universe, maturity)
    requires chain != [] && Linked(chain, 0) && batch.tip == TipOf(chain) && |batch.blocks| <= MAX_BATCH_BLOCKS
    requires CommittedHash(st.window, anchor.height) == Some(anchor.hash)
    requires anchor.height + 1 + |batch.blocks| <= |chain|
    requires batch.blocks == chain[anchor.height + 1..anchor.height + 1 + |batch.blocks|]
    requires batch.blocks != [] ==> cursor == RefOf(batch.blocks[|batch.blocks| - 1])
    requires batch.blocks == [] ==> cursor == anchor && batch.tip == anchor
    requires Prepared(st, batch, cursor, Some(anchor), maturity).Ok?
    ensures OnChain(chain, cursor) && l.first <= cursor.height + 1
    ensures Faithful(Prepared(st, batch, cursor, Some(anchor), maturity).value,
                     SliceLedger(l.first, chain, cursor.height, l.peak), maturity)
  {
    hide ApplyBatch, OwnedExact, Tracks, Consistent, Representable, Counted, Validates, Rewind;
    RetainedHashes(st, l, maturity, anchor.height);
    assert OnChain(chain, anchor) by {
      ReplacementJoins(st, l, anchor, batch, cursor, chain, maturity);
    }
    ReplacedFaithful(st, l, anchor, batch, cursor, chain, universe, maturity);
  }

  lemma ReplacementJoins(st: WalletState, l: Ledger, anchor: BlockRef, batch: Batch, cursor: BlockRef,
                         chain: seq<Block>, maturity: nat)
    requires Faithful(st, l, maturity)
    requires chain != [] && Linked(chain, 0) && batch.tip == TipOf(chain) && |batch.blocks| <= MAX_BATCH_BLOCKS
    requires CommittedHash(st.window, anchor.height) == Some(anchor.hash)
    requires anchor.height + 1 + |batch.blocks| <= |chain|
    requires batch.blocks == chain[anchor.height + 1..anchor.height + 1 + |batch.blocks|]
    requires batch.blocks == [] ==> batch.tip == anchor
    requires Prepared(st, batch, cursor, Some(anchor), maturity).Ok?
    ensures OnChain(chain, anchor)
  {
    hide ApplyBatch, OwnedExact, Consistent, Representable, Counted, Rewind;
    if batch.blocks == [] {
      assert chain[|chain| - 1].height == |chain| - 1;
    } else {
      FaithfulAgrees(st, l, maturity);
      SliceLinked(chain, anchor.height + 1, anchor.height + 1 + |batch.blocks|);
      Joined(st, anchor, batch, cursor, maturity);
      assert batch.blocks[0] == chain[anchor.height + 1];
      assert Joins(chain, anchor.height + 1);
    }
  }

  lemma ReplacedFaithful(st: WalletState, l: Ledger, anchor: BlockRef, batch: Batch, cursor: BlockRef,
                         chain: seq<Block>, universe: set<Block>, maturity: nat)
    requires Faithful(st, l, maturity) && InUniverse(l.branch, universe) && ValidChain(chain, universe, maturity)
    requires chain != [] && Linked(chain, 0) && batch.tip == TipOf(chain)
    requires l.first + LowIndex(l.peak) <= anchor.height < l.first + |l.branch|
    requires l.branch[anchor.height - l.first].hash == anchor.hash && OnChain(chain, anchor)
    requires anchor.height + 1 + |batch.blocks| <= |chain|
    requires batch.blocks == chain[anchor.height + 1..anchor.height + 1 + |batch.blocks|]
    requires batch.blocks != [] ==> cursor == RefOf(batch.blocks[|batch.blocks| - 1])
    requires batch.blocks == [] ==> cursor == anchor
    ensures Rewind(st, anchor.height, batch.tip.height).Ok?
    ensures var base := Rewind(st, anchor.height, batch.tip.height).value;
            && ApplyBatch(base, batch, maturity).Ok?
            && OnChain(chain, cursor) && l.first <= cursor.height + 1
            && Faithful(ApplyBatch(base, batch, maturity).value.(cursor := Some(cursor)),
                        SliceLedger(l.first, chain, cursor.height, l.peak), maturity)
  {
    hide ApplyBatch, OwnedExact, Tracks, Consistent, Representable, Counted, Rewind, Extends, Linked, CollisionFree,
         InUniverse;
    var low := LowIndex(l.peak);
    var k := anchor.height + 1 - l.first;
    var m := anchor.height + 1 + |batch.blocks|;
    var kept := l.branch[..k];
    ExactTracks(st, l.branch, l.tip, maturity);
    RewindExact(st, l.branch, l.first, low, anchor.height, batch.tip.height, maturity);
    KeptIsSlice(l, anchor, chain, universe, maturity);
    HeightAt(chain, anchor.height);
    HeightAt(chain, |chain| - 1);
    assert cursor == RefOf(chain[m - 1]);
    SliceFaithful(Rewind(st, anchor.height, batch.tip.height).value, chain, l.first, anchor.height + 1, m, l.peak,
                  batch, cursor, maturity);
  }

  lemma KeptIsSlice(l: Ledger, anchor: BlockRef, chain: seq<Block>, universe: set<Block>, maturity: nat)
    requires ValidLedger(l, maturity) && InUniverse(l.branch, universe) && InUniverse(chain, universe)
      && CollisionFree(universe)
    requires chain != [] && Linked(chain, 0) && l.first <= anchor.height < l.first + |l.branch|
    requires l.branch[anchor.height - l.first].hash == anchor.hash && OnChain(chain, anchor)
    ensures l.branch[..anchor.height + 1 - l.first] == chain[l.first..anchor.height + 1]
  {
    hide Consistent, Representable, Linked, CollisionFree;
    var k := anchor.height + 1 - l.first;
    var kept := l.branch[..k];
    assert kept[k - 1] == l.branch[k - 1];
    LinkedPrefix(l.branch, l.first, k);
    BranchIsSlice(kept, l.first, chain, universe);
  }

  /** The join between the kept window and the replacement lies inside the pruned window, so it was validated. */
  lemma Joined(st: WalletState, anchor: BlockRef, batch: Batch, cursor: BlockRef, maturity: nat)
    requires CursorAgrees(st) && CommittedHash(st.window, anchor.height) == Some(anchor.hash)
    requires 0 < |batch.blocks| <= MAX_BATCH_BLOCKS && Linked(batch.blocks, anchor.height + 1)
    requires Prepared(st, batch, cursor, Some(anchor), maturity).Ok?
    ensures batch.blocks[0].previous == anchor.hash
  {
    hide ApplyBatch, Rewind;
    var base := Rewind(st, anchor.height, batch.tip.height).value;
    RewindWindow(st, anchor, batch.tip.height);
    WindowAscends(base.window);
    ApplyBatchWindow(base, batch, anchor.height + 1, base.window[0].height, maturity);
    var next := Prepared(st, batch, cursor, Some(anchor), maturity).value;
    var whole := base.window + Anchors(batch.blocks);
    var low := LowIndex(|whole|);
    assert next.window == whole[low..];
    var j := |base.window| - low;
    assert 0 < j < |next.window| && Follows(next.window, j);
    assert next.window[j] == whole[|base.window|] == Anchors(batch.blocks)[0];
    assert next.window[j - 1] == whole[|base.window| - 1] == base.window[|base.window| - 1];
  }

  /** One committing step with a true page, whatever the anchor search was told. */
  lemma LaterCommit(cfg: Config, st: WalletState, l: Ledger, s: Step, chain: seq<Block>, universe: set<Block>,
                    maturity: nat)
    requires Faithful(st, l, maturity) && InUniverse(l.branch, universe)
    requires Truthful(s.page, chain) && ValidChain(chain, universe, maturity)
    requires Committed(cfg, st, s, maturity).Some?
    ensures var next := Committed(cfg, st, s, maturity).value;
            && next.cursor.Some? && OnChain(chain, next.cursor.value) && l.first <= next.cursor.value.height + 1
            && Faithful(next, SliceLedger(l.first, chain, next.cursor.value.height, l.peak), maturity)
  {
    hide PlannedState, Decide, Faithful, Truthful, ValidChain;
    var plan := Decide(cfg, st.window, st.cursor, s.search, s.page, s.wallet).value;
    PlannedFaithful(cfg, st, l, s, chain, universe, maturity);
    var next := PlannedState(st, plan, maturity).value;
    GenerationIgnored(next, SliceLedger(l.first, chain, next.cursor.value.height, l.peak), st.generation + 1, maturity);
  }

  lemma PlannedFaithful(cfg: Config, st: WalletState, l: Ledger, s: Step, chain: seq<Block>, universe: set<Block>,
                        maturity: nat)
    requires Faithful(st, l, maturity) && InUniverse(l.branch, universe)
    requires Truthful(s.page, chain) && ValidChain(chain, universe, maturity)
    requires Decide(cfg, st.window, st.cursor, s.search, s.page, s.wallet).Ok?
    requires var plan := Decide(cfg, st.window, st.cursor, s.search, s.page, s.wallet).value;
             !plan.Nothing? && PlannedState(st, plan, maturity).Ok?
    ensures var next := PlannedState(st, Decide(cfg, st.window, st.cursor, s.search, s.page, s.wallet).value,
                                     maturity).value;
            && next.cursor.Some? && OnChain(chain, next.cursor.value) && l.first <= next.cursor.value.height + 1
            && Faithful(next, SliceLedger(l.first, chain, next.cursor.value.height, l.peak), maturity)
  {
    hide ApplyBatch, Rewind, OwnedExact, Consistent, Representable, Counted, Validates, ScanNext, ScanFrom, ReorgPlan,
         CursorAgrees, InUniverse, CollisionFree, Truthful, Linked, LowIndex, CommittedHash;
    TruthfulLinked(s.page, chain);
    FaithfulAgrees(st, l, maturity);
    PlanShape(cfg, st, s);
    var plan := Decide(cfg, st.window, st.cursor, s.search, s.page, s.wallet).value;
    var a := st.cursor.value;
    if ValidateCursor(s.search, a).Ok? {
      TruthfulScanNext(cfg, s.page, chain, a);
      NormalCommit(st, l, a, plan.batch, plan.cursor, chain, universe, maturity);
    } else {
      TruthfulReplacement(cfg, st.window, a, s.search, s.page, chain);
      ReorgCommit(st, l, plan.anchor, plan.batch, plan.cursor, chain, universe, maturity);
    }
  }

  lemma TruthfulReplacement(cfg: Config, window: seq<Anchor>, a: BlockRef, search: Api, api: Api, chain: seq<Block>)
    requires Truthful(api, chain) && ReorgPlan(cfg, window, a, search, api).Ok?
    ensures var plan := ReorgPlan(cfg, window, a, search, api).value;
            && plan.CommitReorg? && plan.batch.tip == TipOf(chain)
            && plan.anchor.height + 1 + |plan.batch.blocks| <= |chain|
            && plan.batch.blocks == chain[plan.anchor.height + 1..plan.anchor.height + 1 + |plan.batch.blocks|]
            && (plan.batch.blocks == [] ==> plan.batch.tip == plan.anchor)
  {
    hide ScanFrom, Truthful;
    var anchor := SafeAnchor(window, search, SaturatingSub(a.height, cfg.maximumDepth), a.height).value;
    TruthfulScanFrom(cfg, api, chain, anchor.height + 1);
  }

  // ----- whole runs

  /** A step together with the chain Core serves its page from. */
  datatype Observed = Observed(step: Step, chain: seq<Block>)

  /** A run with its history: the first scanned height, the chain behind the last commit, and
      the greatest branch length ever committed. */
  datatype Trace = Trace(st: WalletState, first: nat, chain: seq<Block>, peak: nat)

  /** One more step of a run: nothing changes unless it commits. */
  function Observe(cfg: Config, t: Trace, s: Observed, maturity: nat): Trace {
    match Committed(cfg, t.st, s.step, maturity)
    case None => t
    case Some(next) =>
      var first := if t.st.cursor.Some? then t.first else if next.window == [] then 1 else next.window[0].height;
      var length := if next.cursor.Some? then SaturatingSub(next.cursor.value.height + 1, first) else 0;
      Trace(next, first, s.chain, Max(t.peak, length))
  }

  function Replay(cfg: Config, start: WalletState, steps: seq<Observed>, maturity: nat): Trace {
    if steps == [] then Trace(start, 0, [], 0)
    else
      var n := |steps| - 1;
      Observe(cfg, Replay(cfg, start, steps[..n], maturity), steps[n], maturity)
  }

  /** Step `i`, if it commits, took its page from a Core that told the truth about a valid chain. */
  ghost predicate TruthfulAt(cfg: Config, start: WalletState, steps: seq<Observed>, i: nat, universe: set<Block>,
                             maturity: nat)
    requires i < |steps|
  {
    Committed(cfg, Replay(cfg, start, steps[..i], maturity).st, steps[i].step, maturity).Some? ==>
      Truthful(steps[i].step.page, steps[i].chain) && ValidChain(steps[i].chain, universe, maturity)
  }

  /** A run in which only committing steps need a truthful page. A step that fails, for whatever Core answered or the
      storage did, is unrestricted, and so is every answer to an anchor search. */
  ghost predicate TruthfulRun(cfg: Config, start: WalletState, steps: seq<Observed>, universe: set<Block>,
                              maturity: nat) {
    forall i :: 0 <= i < |steps| ==> TruthfulAt(cfg, start, steps, i, universe, maturity)
  }

  lemma TruthfulPrefix(cfg: Config, start: WalletState, steps: seq<Observed>, n: nat, universe: set<Block>,
                       maturity: nat)
    requires TruthfulRun(cfg, start, steps, universe, maturity) && n <= |steps|
    ensures TruthfulRun(cfg, start, steps[..n], universe, maturity)
  {
    hide Committed, Replay, Truthful, ValidChain;
    forall i | 0 <= i < n ensures TruthfulAt(cfg, start, steps[..n], i, universe, maturity) {
      assert TruthfulAt(cfg, start, steps, i, universe, maturity);
      assert steps[..n][..i] == steps[..i];
    }
  }

  /** The ledger a trace claims: Core's chain from the first scanned height to the cursor anchor. */
  ghost function Claimed(t: Trace): Ledger
    requires t.st.cursor.Some? && t.first <= t.st.cursor.value.height + 1 <= |t.chain|
  {
    Ledger(t.first, t.chain[t.first..t.st.cursor.value.height + 1], t.peak, |t.chain| - 1)
  }

  ghost predicate Settled(t: Trace, universe: set<Block>, maturity: nat) {
    if t.st.cursor.None? then Fresh(t.st) && t.peak == 0
    else
      && OnChain(t.chain, t.st.cursor.value) && t.first <= t.st.cursor.value.height + 1 && t.first <= 1
      && InUniverse(t.chain, universe)
      && Faithful(t.st, Claimed(t), maturity)
  }

  /** REORG TRANSPARENCY. After every run of steps, failed, normal and reorg commits in any order,
      the durable state is that of one straight scan of Core's branch behind the last commit, from
      the first scanned height (genesis or the block above it) to the cursor anchor, at the last observed tip. Only the
      pages that are committed need be true; failed steps and the answers behind the anchor searches
      are arbitrary. */
  lemma {:induction false} ReorgTransparency(cfg: Config, start: WalletState, steps: seq<Observed>,
                                             universe: set<Block>, maturity: nat)
    requires Fresh(start) && TruthfulRun(cfg, start, steps, universe, maturity)
    ensures Settled(Replay(cfg, start, steps, maturity), universe, maturity)
  {
    hide Committed, Observe, Settled, Truthful, ValidChain;
    if steps == [] {
      FreshSettled(start, universe, maturity);
    } else {
      var n := |steps| - 1;
      TruthfulPrefix(cfg, start, steps, n, universe, maturity);
      ReorgTransparency(cfg, start, steps[..n], universe, maturity);
      assert TruthfulAt(cfg, start, steps, n, universe, maturity);
      ObserveSettles(cfg, Replay(cfg, start, steps[..n], maturity), steps[n], universe, maturity);
    }
  }

  lemma FreshSettled(start: WalletState, universe: set<Block>, maturity: nat)
    requires Fresh(start)
    ensures Settled(Trace(start, 0, [], 0), universe, maturity)
  {
  }

  /** One step keeps a run settled. */
  lemma ObserveSettles(cfg: Config, t: Trace, s: Observed, universe: set<Block>, maturity: nat)
    requires Settled(t, universe, maturity)
    requires Committed(cfg, t.st, s.step, maturity).Some? ==>
      Truthful(s.step.page, s.chain) && ValidChain(s.chain, universe, maturity)
    ensures Settled(Observe(cfg, t, s, maturity), universe, maturity)
  {
    hide Committed, Faithful, Truthful, Consistent, Representable, CollisionFree;
    if Committed(cfg, t.st, s.step, maturity).Some? {
      if t.st.cursor.None? {
        FirstCommit(cfg, t.st, s.step, s.chain, universe, maturity);
      } else {
        SliceInUniverse(t.chain, t.first, t.st.cursor.value.height + 1, universe);
        LaterCommit(cfg, t.st, Claimed(t), s.step, s.chain, universe, maturity);
      }
    }
  }

  lemma SliceInUniverse(chain: seq<Block>, i: nat, j: nat, universe: set<Block>)
    requires i <= j <= |chain| && InUniverse(chain, universe)
    ensures InUniverse(chain[i..j], universe)
  {
  }

  /** The history kept by `Replay` does not influence the states. */
  lemma {:induction false} ReplayIsRun(cfg: Config, start: WalletState, steps: seq<Observed>, plain: seq<Step>,
                                       maturity: nat)
    requires |plain| == |steps| && forall i :: 0 <= i < |steps| ==> plain[i] == steps[i].step
    ensures Replay(cfg, start, steps, maturity).st == Run(cfg, start, plain, maturity)
  {
    if steps != [] {
      var n := |steps| - 1;
      ReplayIsRun(cfg, start, steps[..n], plain[..n], maturity);
    }
  }
}
