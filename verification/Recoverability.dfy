/** How far back a durable state can still be reconciled: what the window retains,
    that the safe anchor is the fork point, and exactly when one is found. */
module Recoverability {
  import opened Wrappers
  import opened Blocks
  import opened BranchFacts
  import opened RecoverySpec
  import opened StraightScan
  import opened PageApplication
  import opened ScanAdapter
  import opened HonestCore
  import opened Transparency

  /** The height of the highest block ever committed. */
  function HighestCommitted(l: Ledger): nat
    requires 0 < l.peak
  {
    l.first + l.peak - 1
  }

  /** The lowest retained height is exactly the greater of the first scanned height and 2,047 below
      the highest block ever committed, however many reorgs have shortened the branch since. */
  lemma LowestRetained(st: WalletState, l: Ledger, maturity: nat)
    requires Faithful(st, l, maturity) && l.branch != []
    ensures st.window != [] && |st.window| <= WINDOW_BLOCKS
    ensures st.window[0].height == Max(l.first, WindowMinimum(HighestCommitted(l)))
  {
    hide OwnedExact, Consistent, Representable, ProofOnlyTotal, OutputTotal, AnchorOf, Linked, Anchors;
    AnchorsAscend(l.branch, l.first, LowIndex(l.peak));
  }

  /** After every run: the counters are the totals of the whole scanned branch although most of its anchors are
      pruned, and the lowest retained height is fixed by the longest branch the run ever committed. */
  lemma RunRetains(cfg: Config, start: WalletState, steps: seq<Observed>, universe: set<Block>, maturity: nat)
    requires Fresh(start) && TruthfulRun(cfg, start, steps, universe, maturity)
    ensures var t := Replay(cfg, start, steps, maturity);
      t.st.cursor.Some? ==>
        && t.first <= t.st.cursor.value.height + 1 <= |t.chain|
        && var branch := t.chain[t.first..t.st.cursor.value.height + 1];
           && t.st.scannedBlocks == |branch| && t.st.scannedOutputs == OutputTotal(branch)
           && t.st.legacyOutputs == ProofOnlyTotal(branch)
           && (branch != [] ==>
                 && t.st.window != [] && t.peak >= |branch|
                 && t.st.window[0].height == Max(t.first, WindowMinimum(t.first + t.peak - 1)))
  {
    hide OwnedExact, Consistent, Representable, ProofOnlyTotal, OutputTotal, AnchorOf, Linked, Anchors, Replay,
         TruthfulRun, InUniverse;
    ReorgTransparency(cfg, start, steps, universe, maturity);
    var t := Replay(cfg, start, steps, maturity);
    if t.st.cursor.Some? && Claimed(t).branch != [] {
      LowestRetained(t.st, Claimed(t), maturity);
    }
  }

  /** The window equals that of a straight scan of the current branch exactly when the branch is
      as long as it ever was, or was never longer than the window. */
  lemma WindowMatchesStraightScan(st: WalletState, l: Ledger, maturity: nat)
    requires Faithful(st, l, maturity)
    ensures st.window == Prune(SortWindow(Anchors(l.branch))) <==> l.peak <= WINDOW_BLOCKS || l.peak == |l.branch|
  {
    hide OwnedExact, Consistent, Representable, ProofOnlyTotal, OutputTotal, AnchorOf, SortWindow, Prune;
    assert l.branch[0..] == l.branch;
    PruneAnchors(l.branch, l.first, 0);
    var a, b := LowIndex(l.peak), LowIndex(|l.branch|);
    assert |Anchors(l.branch[a..])| == |l.branch| - a && |Anchors(l.branch[b..])| == |l.branch| - b;
  }

  // ----- the safe anchor

  /** The branch and the chain have the same block at height `h`. */
  ghost predicate Common(l: Ledger, chain: seq<Block>, h: nat) {
    l.first <= h < l.first + |l.branch| && h < |chain| && l.branch[h - l.first] == chain[h]
  }

  ghost predicate Retained(l: Ledger, h: nat) {
    l.first + LowIndex(l.peak) <= h < l.first + |l.branch|
  }

  /** Agreement reaches down: below a common block everything is common. */
  lemma CommonBelow(l: Ledger, chain: seq<Block>, universe: set<Block>, h: nat, below: nat, maturity: nat)
    requires ValidLedger(l, maturity) && Linked(chain, 0) && InUniverse(l.branch, universe)
      && InUniverse(chain, universe)
    requires CollisionFree(universe) && Common(l, chain, h) && l.first <= below <= h
    ensures Common(l, chain, below)
  {
    hide Linked, Consistent, Representable, CollisionFree;
    var kept := l.branch[..h + 1 - l.first];
    LinkedPrefix(l.branch, l.first, h + 1 - l.first);
    BranchOnChain(kept, l.first, chain, universe, below - l.first);
  }

  /** At one height: a retained hash that Core confirms is a common block, and conversely. */
  lemma ConfirmedIsCommon(st: WalletState, l: Ledger, chain: seq<Block>, universe: set<Block>, h: nat, maturity: nat)
    requires Faithful(st, l, maturity) && chain != [] && Linked(chain, 0)
    requires InUniverse(l.branch, universe) && InUniverse(chain, universe) && CollisionFree(universe)
    ensures (CommittedHash(st.window, h).Some? && CommittedHash(st.window, h) == HashOn(chain, h)) <==>
            (Retained(l, h) && Common(l, chain, h))
    ensures h < |chain| ==> chain[h].hash != ZERO_HASH
  {
    hide OwnedExact, Consistent, Representable, Counted, CommittedHash;
    RetainedHashes(st, l, maturity, h);
  }

  ghost predicate NoneCommon(l: Ledger, chain: seq<Block>, from: nat, to: nat) {
    forall h :: from <= h < to && Retained(l, h) ==> !Common(l, chain, h)
  }

  /** Against an honest Core the search returns the highest retained common block in its range, or fails if there is
      none. */
  lemma {:induction false} SafeAnchorIsHighest(st: WalletState, l: Ledger, api: Api, chain: seq<Block>,
                                               universe: set<Block>, lowest: nat, upper: nat, maturity: nat)
    requires Faithful(st, l, maturity) && Honest(api, chain)
    requires InUniverse(l.branch, universe) && InUniverse(chain, universe) && CollisionFree(universe)
    ensures match SafeAnchor(st.window, api, lowest, upper)
            case Ok(r) =>
              && lowest <= r.height < upper && Retained(l, r.height) && Common(l, chain, r.height)
              && r == RefOf(chain[r.height]) && NoneCommon(l, chain, r.height + 1, upper)
            case Err(e) => e == ReorgBeyondBound && NoneCommon(l, chain, lowest, upper)
    decreases upper
  {
    hide Faithful, CommittedHash;
    if upper > lowest {
      var h := upper - 1;
      assert api.hashAt(h) == Ok(HashOn(chain, h));
      ConfirmedIsCommon(st, l, chain, universe, h, maturity);
      if !(Retained(l, h) && Common(l, chain, h)) {
        SafeAnchorIsHighest(st, l, api, chain, universe, lowest, h, maturity);
      }
    }
  }

  /** The safe anchor is the fork point: everything retained at or below it is on Core's chain and
      nothing above it is. It is found exactly when some retained block within the search depth is
      still on Core's chain; otherwise the search reports `ReorgBeyondBound`. */
  lemma SafeAnchorIsForkPoint(cfg: Config, st: WalletState, l: Ledger, api: Api, chain: seq<Block>,
                              universe: set<Block>, maturity: nat)
    requires Faithful(st, l, maturity) && Honest(api, chain)
    requires InUniverse(l.branch, universe) && InUniverse(chain, universe) && CollisionFree(universe)
    requires !OnChain(chain, st.cursor.value)
    ensures var a := st.cursor.value.height;
            var lowest := SaturatingSub(a, cfg.maximumDepth);
            match SafeAnchor(st.window, api, lowest, a)
            case Ok(r) =>
              && lowest <= r.height < a && OnChain(chain, r)
              && (forall h :: l.first <= h <= r.height ==> Common(l, chain, h))
              && (forall h :: r.height < h ==> !Common(l, chain, h))
            case Err(e) => e == ReorgBeyondBound && NoneCommon(l, chain, lowest, a)
  {
    hide OwnedExact, Consistent, Representable, Counted, Honest, SafeAnchor;
    var a := st.cursor.value.height;
    var lowest := SaturatingSub(a, cfg.maximumDepth);
    SafeAnchorIsHighest(st, l, api, chain, universe, lowest, a, maturity);
    match SafeAnchor(st.window, api, lowest, a)
    case Err(_) =>
    case Ok(r) =>
      assert Linked(chain, 0) by { HonestLinked(api, chain); }
      assert chain[r.height].height == r.height;
      forall h | l.first <= h <= r.height ensures Common(l, chain, h) {
        CommonBelow(l, chain, universe, r.height, h, maturity);
      }
      forall h | r.height < h ensures !Common(l, chain, h) {
        CommonJustAbove(l, chain, universe, r.height, h, maturity);
      }
  }

  lemma CommonJustAbove(l: Ledger, chain: seq<Block>, universe: set<Block>, r: nat, h: nat, maturity: nat)
    requires ValidLedger(l, maturity) && Linked(chain, 0) && CollisionFree(universe)
    requires InUniverse(l.branch, universe) && InUniverse(chain, universe) && l.first <= r < h
    ensures Common(l, chain, h) ==> Common(l, chain, r + 1)
  {
    hide ValidLedger, Linked, CollisionFree, InUniverse;
    if Common(l, chain, h) {
      CommonBelow(l, chain, universe, h, r + 1, maturity);
    }
  }

  lemma HonestLinked(api: Api, chain: seq<Block>)
    requires Honest(api, chain)
    ensures Linked(chain, 0) && chain != []
  {
  }

  /** A common block that is still retained, within the search depth of the cursor. */
  ghost predicate ForkInReach(cfg: Config, l: Ledger, cursor: BlockRef, chain: seq<Block>, fork: nat) {
    && l.peak > 0 && Common(l, chain, fork)
    && Max(l.first, WindowMinimum(HighestCommitted(l))) <= fork
    && cursor.height <= fork + cfg.maximumDepth
  }

  ghost predicate Recoverable(cfg: Config, st: WalletState, l: Ledger, chain: seq<Block>) {
    st.cursor.Some? && exists fork: nat :: ForkInReach(cfg, l, st.cursor.value, chain, fork)
  }

  /** A reorg whose fork point is retained and within the search depth is never beyond the bound. */
  lemma RetainedForkIsFound(cfg: Config, st: WalletState, l: Ledger, api: Api, chain: seq<Block>, universe: set<Block>,
                            fork: nat, maturity: nat)
    requires Faithful(st, l, maturity) && Honest(api, chain)
    requires InUniverse(l.branch, universe) && InUniverse(chain, universe) && CollisionFree(universe)
    requires !OnChain(chain, st.cursor.value) && ForkInReach(cfg, l, st.cursor.value, chain, fork)
    ensures SafeAnchor(st.window, api, SaturatingSub(st.cursor.value.height, cfg.maximumDepth),
                       st.cursor.value.height).Ok?
  {
    hide OwnedExact, Consistent, Representable, Counted, Honest, SafeAnchor;
    SafeAnchorIsForkPoint(cfg, st, l, api, chain, universe, maturity);
    var a := st.cursor.value.height;
    assert Retained(l, fork);
    HonestLinked(api, chain);
    assert fork != a;
  }

  /** The search finds an anchor if and only if a retained common block is within its depth. */
  lemma AnchorFoundIff(cfg: Config, st: WalletState, l: Ledger, api: Api, chain: seq<Block>, universe: set<Block>,
                       maturity: nat)
    requires Faithful(st, l, maturity) && Honest(api, chain)
    requires InUniverse(l.branch, universe) && InUniverse(chain, universe) && CollisionFree(universe)
    requires !OnChain(chain, st.cursor.value)
    ensures SafeAnchor(st.window, api, SaturatingSub(st.cursor.value.height, cfg.maximumDepth),
                       st.cursor.value.height).Ok?
            <==> Recoverable(cfg, st, l, chain)
  {
    hide OwnedExact, Consistent, Representable, Counted, Honest, SafeAnchor, Linked;
    var a := st.cursor.value.height;
    var lowest := SaturatingSub(a, cfg.maximumDepth);
    SafeAnchorIsHighest(st, l, api, chain, universe, lowest, a, maturity);
    match SafeAnchor(st.window, api, lowest, a)
    case Ok(r) =>
      assert ForkInReach(cfg, l, st.cursor.value, chain, r.height);
    case Err(_) =>
      if Recoverable(cfg, st, l, chain) {
        var fork: nat :| ForkInReach(cfg, l, st.cursor.value, chain, fork);
        RetainedForkIsFound(cfg, st, l, api, chain, universe, fork, maturity);
      }
  }

  /** Given enough depth, everything hangs on the lowest retained block: some retained block is still on Core's chain
      if and only if that one is. */
  lemma LowestDecides(l: Ledger, chain: seq<Block>, universe: set<Block>, maturity: nat)
    requires ValidLedger(l, maturity) && Linked(chain, 0) && l.branch != []
    requires InUniverse(l.branch, universe) && InUniverse(chain, universe) && CollisionFree(universe)
    ensures (exists h: nat :: Retained(l, h) && Common(l, chain, h)) <==> Common(l, chain, l.first + LowIndex(l.peak))
  {
    hide Linked, Consistent, Representable, CollisionFree, LowIndex, Common;
    var low := l.first + LowIndex(l.peak);
    if h: nat :| Retained(l, h) && Common(l, chain, h) {
      CommonBelow(l, chain, universe, h, low, maturity);
    }
    assert Retained(l, low);
  }

  /** A wallet never recovers from a reorg that replaces the first block it scanned, at any depth: for one bootstrapped
      above genesis that is block 1, although genesis is common, because height 0 is never retained. */
  lemma FirstBlockReplaced(cfg: Config, st: WalletState, l: Ledger, api: Api, chain: seq<Block>, universe: set<Block>,
                           maturity: nat)
    requires Faithful(st, l, maturity) && Honest(api, chain)
    requires InUniverse(l.branch, universe) && InUniverse(chain, universe) && CollisionFree(universe)
    requires !OnChain(chain, st.cursor.value) && !Common(l, chain, l.first)
    ensures !Recoverable(cfg, st, l, chain)
    ensures SafeAnchor(st.window, api, SaturatingSub(st.cursor.value.height, cfg.maximumDepth), st.cursor.value.height)
         == Err(ReorgBeyondBound)
  {
    hide OwnedExact, Consistent, Representable, Counted, Honest, SafeAnchor, Linked, Common, CollisionFree, InUniverse;
    HonestLinked(api, chain);
    if Recoverable(cfg, st, l, chain) {
      var fork: nat :| ForkInReach(cfg, l, st.cursor.value, chain, fork);
      CommonBelow(l, chain, universe, fork, l.first, maturity);
    }
    AnchorFoundIff(cfg, st, l, api, chain, universe, maturity);
    SafeAnchorIsForkPoint(cfg, st, l, api, chain, universe, maturity);
  }
}
