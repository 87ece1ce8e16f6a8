/** Against an honest Core nothing is refused: a faithful state passes validation, and a step
    commits whenever there is something to commit and the fork point, if any, is retained. */
module HonestProgress {
  import opened Wrappers
  import opened Blocks
  import opened BranchFacts
  import opened RecoverySpec
  import opened StraightScan
  import opened PageApplication
  import opened ScanAdapter
  import opened CursorWindow
  import opened HonestCore
  import opened Transparency
  import opened Recoverability

  /** A capsule's domain says coinbase exactly for coinbase outputs. */
  ghost predicate Attested(blocks: seq<Block>) {
    forall i, o :: 0 <= i < |blocks| && o in blocks[i].outputs && !o.proofOnly && o.owned.Some? ==>
      (o.owned.value.domain == Coinbase <==> o.isCoinbase)
  }

  ghost function OwnedCommitments(blocks: seq<Block>): set<Commitment> {
    set c | c in CreatedOn(blocks) && OwnedAt(blocks, c).Some?
  }

  lemma {:induction false} DistinctBound(s: seq<Commitment>, all: set<Commitment>)
    requires forall i, j :: 0 <= i < j < |s| ==> s[i] != s[j]
    requires forall i :: 0 <= i < |s| ==> s[i] in all
    ensures |s| <= |all|
  {
    if s != [] {
      var n := |s| - 1;
      DistinctBound(s[..n], all - {s[n]});
    }
  }

  lemma OwnedBound(st: WalletState, branch: seq<Block>, tip: nat, maturity: nat)
    requires OwnedExact(st, branch, tip, maturity)
    ensures |st.outputs| <= |OwnedCommitments(branch)|
  {
    var s := seq(|st.outputs|, i requires 0 <= i < |st.outputs| => st.outputs[i].commitment.value);
    forall i | 0 <= i < |s| ensures s[i] in OwnedCommitments(branch) {
      EntryAt(st, i);
      assert EntryFor(st, s[i]) == Scan(branch, tip, maturity, s[i]);
      OutputAtIff(branch, s[i]);
    }
    DistinctBound(s, OwnedCommitments(branch));
  }

  lemma RecordAttested(st: WalletState, branch: seq<Block>, first: nat, tip: nat, maturity: nat, i: nat)
    requires OwnedExact(st, branch, tip, maturity) && Linked(branch, first) && Attested(branch) && i < |st.metadata|
    ensures st.metadata[i].isCoinbase <==> st.metadata[i].domain == Coinbase
    ensures st.metadata[i].blockHash != ZERO_HASH
  {
    EntryAt(st, i);
    var c := st.outputs[i].commitment.value;
    assert EntryFor(st, c) == Scan(branch, tip, maturity, c);
    OutputAtIff(branch, c);
    var site := OutputAt(branch, c).value;
    var k :| 0 <= k < |branch| && branch[k] == site.block;
  }

  /** A faithful state passes `validate`. */
  lemma FaithfulValidates(st: WalletState, l: Ledger, maturity: nat)
    requires Faithful(st, l, maturity) && Attested(l.branch) && |OwnedCommitments(l.branch)| <= MAX_OUTPUTS
    ensures Validates(st)
  {
    FaithfulAgrees(st, l, maturity);
    OwnedBound(st, l.branch, l.tip, maturity);
    WindowBound(st, l, maturity);
    AlignedValidates(st);
    forall k | 0 <= k < |st.metadata|
      ensures (st.metadata[k].isCoinbase <==> st.metadata[k].domain == Coinbase)
        && st.metadata[k].blockHash != ZERO_HASH
    {
      RecordAttested(st, l.branch, l.first, l.tip, maturity, k);
    }
  }

  lemma WindowBound(st: WalletState, l: Ledger, maturity: nat)
    requires Faithful(st, l, maturity)
    ensures |st.window| <= WINDOW_BLOCKS && |st.window| <= st.scannedBlocks
  {
    hide OwnedExact, Consistent, Representable, ProofOnlyTotal, OutputTotal, AnchorOf, Linked;
  }

  lemma AlignedValidates(st: WalletState)
    requires Aligned(st)
    ensures forall k :: 0 <= k < |st.secrets| ==> HasOutput(st.outputs, st.secrets[k].outputId)
    ensures forall k :: 0 <= k < |st.metadata| ==> HasOutput(st.outputs, st.metadata[k].outputId)
    ensures forall i, j :: 0 <= i < j < |st.metadata| ==> st.metadata[i].outputId != st.metadata[j].outputId
  {
    forall k | 0 <= k < |st.outputs|
      ensures HasOutput(st.outputs, st.secrets[k].outputId) && HasOutput(st.outputs, st.metadata[k].outputId)
    {
      assert st.outputs[k].id == st.secrets[k].outputId;
    }
    forall i, j | 0 <= i < j < |st.metadata| ensures st.metadata[i].outputId != st.metadata[j].outputId {
      assert st.outputs[i].id < st.outputs[j].id;
    }
  }

  /** Everything a chain must satisfy for the wallet to be able to record it. */
  ghost predicate Recordable(chain: seq<Block>, universe: set<Block>, maturity: nat) {
    && ValidChain(chain, universe, maturity) && Attested(chain)
    && forall i, j :: 0 <= i <= j <= |chain| ==> |OwnedCommitments(chain[i..j])| <= MAX_OUTPUTS
  }

  lemma SliceValidates(st: WalletState, first: nat, chain: seq<Block>, height: nat, peak: nat, universe: set<Block>,
                       maturity: nat)
    requires first <= height + 1 <= |chain| && Recordable(chain, universe, maturity)
    requires Faithful(st, SliceLedger(first, chain, height, peak), maturity)
    ensures Validates(st)
  {
    hide ValidChain, Faithful, Validates, OwnedCommitments;
    var branch := chain[first..height + 1];
    forall i, o | 0 <= i < |branch| && o in branch[i].outputs && !o.proofOnly && o.owned.Some?
      ensures o.owned.value.domain == Coinbase <==> o.isCoinbase
    {
      assert branch[i] == chain[first + i];
    }
    FaithfulValidates(st, SliceLedger(first, chain, height, peak), maturity);
  }

  // ----- an honest step

  ghost predicate Trusted(cfg: Config, chain: seq<Block>) {
    chain != [] && LimitAllowed(cfg) && (cfg.mainnet ==> chain[0].hash == cfg.genesisHash)
  }

  lemma ScanFromAccepted(cfg: Config, api: Api, chain: seq<Block>, start: nat)
    requires Honest(api, chain) && LimitAllowed(cfg) && start <= |chain|
    ensures ScanFrom(cfg, api, start).Ok?
  {
    hide ValidatePage, Linked;
    TipAccepted(api, chain);
    var result := api.scanFrom(start, cfg.maximumBatch).value;
    assert Served(chain, start, cfg.maximumBatch, result);
    ServedAccepted(cfg, api, chain, start, None, result);
  }

  lemma TipAccepted(api: Api, chain: seq<Block>)
    requires Honest(api, chain)
    ensures CurrentTip(api) == Ok(TipOf(chain)) && TipOf(chain).height == |chain| - 1 && OnChain(chain, TipOf(chain))
  {
    assert chain[|chain| - 1].hash != ZERO_HASH;
  }

  lemma ScanNextAccepted(cfg: Config, api: Api, chain: seq<Block>, a: BlockRef)
    requires Honest(api, chain) && LimitAllowed(cfg) && OnChain(chain, a)
    ensures ScanNext(cfg, api, a).Ok?
  {
    hide ValidatePage, Linked;
    TipAccepted(api, chain);
    CursorOnChain(api, chain, a);
    var result := api.scanNext(a, cfg.maximumBatch).value;
    assert Served(chain, a.height + 1, cfg.maximumBatch, result);
    ServedAccepted(cfg, api, chain, a.height + 1, Some(a), result);
  }

  /** An honest Core accepts exactly the cursors on its chain. */
  lemma CursorOnChain(api: Api, chain: seq<Block>, a: BlockRef)
    requires Honest(api, chain)
    ensures OnChain(chain, a) ==> ValidateCursor(api, a) == Ok(a)
    ensures !OnChain(chain, a) && a.hash != ZERO_HASH ==> ValidateCursor(api, a) == Err(ReorgDetected)
    ensures !OnChain(chain, a) ==> ValidateCursor(api, a).Err?
  {
    assert api.validates(a) == Ok(OnChain(chain, a));
    if OnChain(chain, a) {
      assert chain[a.height].hash != ZERO_HASH;
    }
  }

  lemma BootstrapAccepted(cfg: Config, api: Api, chain: seq<Block>)
    requires Honest(api, chain) && Trusted(cfg, chain)
    ensures BootstrapPlan(cfg, api).Ok? && !BootstrapPlan(cfg, api).value.Nothing?
  {
    hide ScanFrom, ValidateCursor, Linked, Truthful;
    TipAccepted(api, chain);
    assert api.hashAt(0) == Ok(HashOn(chain, 0));
    if |chain| == 1 {
      CursorOnChain(api, chain, TipOf(chain));
    } else {
      ScanFromAccepted(cfg, api, chain, 1);
      HonestIsTruthful(api, chain);
      TruthfulScanFrom(cfg, api, chain, 1);
      HonestScanFrom(cfg, api, chain, 1);
    }
  }

  lemma ReorgAccepted(cfg: Config, window: seq<Anchor>, a: BlockRef, api: Api, chain: seq<Block>)
    requires Honest(api, chain) && LimitAllowed(cfg)
    requires SafeAnchor(window, api, SaturatingSub(a.height, cfg.maximumDepth), a.height).Ok?
    requires OnChain(chain, SafeAnchor(window, api, SaturatingSub(a.height, cfg.maximumDepth), a.height).value)
    ensures ReorgPlan(cfg, window, a, api, api).Ok?
  {
    hide ScanFrom, ValidateCursor, Linked, SafeAnchor, Truthful;
    var anchor := SafeAnchor(window, api, SaturatingSub(a.height, cfg.maximumDepth), a.height).value;
    ScanFromAccepted(cfg, api, chain, anchor.height + 1);
    HonestIsTruthful(api, chain);
    TruthfulScanFrom(cfg, api, chain, anchor.height + 1);
    HonestScanFrom(cfg, api, chain, anchor.height + 1);
    CursorOnChain(api, chain, anchor);
    TipAccepted(api, chain);
  }

  // ----- an honest step always commits, unless it is at the tip or the fork is out of reach

  ghost predicate AtTip(st: WalletState, chain: seq<Block>) {
    chain != [] && st.cursor == Some(TipOf(chain))
  }

  lemma FirstStepCommits(cfg: Config, st: WalletState, api: Api, chain: seq<Block>, universe: set<Block>, maturity: nat)
    requires Fresh(st) && Honest(api, chain) && Trusted(cfg, chain) && Recordable(chain, universe, maturity)
    ensures Committed(cfg, st, Step(api, api, true, true), maturity).Some?
  {
    hide Honest, Truthful, ApplyBatch, Faithful, Validates, BootstrapPlan, ValidChain, Linked, Recordable;
    BootstrapAccepted(cfg, api, chain);
    var s := Step(api, api, true, true);
    HonestIsTruthful(api, chain);
    FirstPage(cfg, st, s, chain);
    var plan := BootstrapPlan(cfg, api).value;
    FirstPrepared(st, plan.batch, plan.cursor, 1, chain, universe, maturity, api);
  }

  lemma FirstPrepared(st: WalletState, batch: Batch, cursor: BlockRef, start: nat, chain: seq<Block>,
                      universe: set<Block>, maturity: nat, api: Api)
    requires Fresh(st) && Honest(api, chain) && Recordable(chain, universe, maturity)
    requires batch.tip == TipOf(chain) && start <= 1
    requires batch.blocks == [] ==> |chain| == 1 && cursor == TipOf(chain)
    requires batch.blocks != [] ==>
      && start + |batch.blocks| <= |chain| && batch.blocks == chain[start..start + |batch.blocks|]
      && |batch.blocks| <= MAX_BATCH_BLOCKS && cursor == RefOf(batch.blocks[|batch.blocks| - 1])
    ensures Prepared(st, batch, cursor, None, maturity).Ok?
  {
    hide ApplyBatch, Faithful, Validates, Linked, Consistent, Representable, OwnedCommitments, Attested;
    FirstPageFaithful(st, batch, cursor, start, chain, universe, maturity);
    var next := ApplyBatch(st, batch, maturity).value.(cursor := Some(cursor));
    var first := if next.window == [] then 1 else next.window[0].height;
    SliceValidates(next, first, chain, cursor.height, 0, universe, maturity);
  }

  lemma NormalStepCommits(cfg: Config, st: WalletState, l: Ledger, api: Api, chain: seq<Block>, universe: set<Block>,
                          maturity: nat)
    requires Faithful(st, l, maturity) && InUniverse(l.branch, universe)
    requires Honest(api, chain) && Trusted(cfg, chain) && Recordable(chain, universe, maturity)
    requires OnChain(chain, st.cursor.value) && !AtTip(st, chain)
    ensures Committed(cfg, st, Step(api, api, true, true), maturity).Some?
  {
    hide ApplyBatch, Validates, Consistent, Representable, OwnedExact, Counted, OwnedCommitments, Attested, ScanNext,
         ValidateCursor, Truthful, InUniverse, CollisionFree;
    var a := st.cursor.value;
    CursorOnChain(api, chain, a);
    ScanNextAccepted(cfg, api, chain, a);
    HonestIsTruthful(api, chain);
    TruthfulScanNext(cfg, api, chain, a);
    HonestScanNext(cfg, api, chain, a);
    var page := ScanNext(cfg, api, a).value;
    assert chain[a.height].height == a.height && chain[|chain| - 1].height == |chain| - 1;
    NormalCommit(st, l, a, page.batch, page.cursor.value, chain, universe, maturity);
    var next := ApplyBatch(st, page.batch, maturity).value.(cursor := page.cursor);
    SliceValidates(next, l.first, chain, page.cursor.value.height, l.peak, universe, maturity);
  }

  lemma ReorgStepCommits(cfg: Config, st: WalletState, l: Ledger, api: Api, chain: seq<Block>, universe: set<Block>,
                         maturity: nat)
    requires Faithful(st, l, maturity) && InUniverse(l.branch, universe)
    requires Honest(api, chain) && Trusted(cfg, chain) && Recordable(chain, universe, maturity)
    requires !OnChain(chain, st.cursor.value) && Recoverable(cfg, st, l, chain)
    ensures Committed(cfg, st, Step(api, api, true, true), maturity).Some?
  {
    hide ApplyBatch, Rewind, Validates, Consistent, Representable, OwnedExact, Counted, OwnedCommitments, Attested,
         ReorgPlan, ValidateCursor, SafeAnchor, CursorAgrees, Recoverable, Truthful, Honest, Linked, CommittedHash,
         InUniverse, CollisionFree, LowIndex;
    var a := st.cursor.value;
    var lowest := SaturatingSub(a.height, cfg.maximumDepth);
    AnchorFoundIff(cfg, st, l, api, chain, universe, maturity);
    SafeAnchorIsForkPoint(cfg, st, l, api, chain, universe, maturity);
    BranchTopHash(st, l, maturity);
    CursorOnChain(api, chain, a);
    ReorgAccepted(cfg, st.window, a, api, chain);
    HonestIsTruthful(api, chain);
    TruthfulReplacement(cfg, st.window, a, api, api, chain);
    ReorgShape(cfg, st.window, a, api, api);
    ReorgAnchor(cfg, st.window, a, api, api);
    var plan := ReorgPlan(cfg, st.window, a, api, api).value;
    RetainedHashes(st, l, maturity, plan.anchor.height);
    ReplacedFaithful(st, l, plan.anchor, plan.batch, plan.cursor, chain, universe, maturity);
    var base := Rewind(st, plan.anchor.height, plan.batch.tip.height).value;
    var next := ApplyBatch(base, plan.batch, maturity).value.(cursor := Some(plan.cursor));
    SliceValidates(next, l.first, chain, plan.cursor.height, l.peak, universe, maturity);
  }

  lemma ReorgAnchor(cfg: Config, window: seq<Anchor>, a: BlockRef, search: Api, api: Api)
    requires ReorgPlan(cfg, window, a, search, api).Ok?
    ensures var lowest := SaturatingSub(a.height, cfg.maximumDepth);
            && SafeAnchor(window, search, lowest, a.height).Ok?
            && ReorgPlan(cfg, window, a, search, api).value.CommitReorg?
            && ReorgPlan(cfg, window, a, search, api).value.anchor == SafeAnchor(window, search, lowest, a.height).value
  {
  }

  lemma BranchTopHash(st: WalletState, l: Ledger, maturity: nat)
    requires Faithful(st, l, maturity)
    ensures l.branch != [] ==> st.cursor.value.hash != ZERO_HASH
  {
    hide OwnedExact, Counted, Consistent, Representable;
  }
}
