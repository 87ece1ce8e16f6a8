/** The reconciliation loops over a mutable sink. */
module Reconcile {
  import opened Wrappers
  import opened Blocks
  import opened BranchFacts
  import opened RecoverySpec
  import opened StraightScan
  import opened SinkMemory
  import opened RecoveryWallet
  import opened ScanAdapter
  import opened CursorWindow
  import opened HonestCore
  import opened Transparency
  import opened Recoverability
  import opened HonestProgress

  datatype Outcome =
    | NoChanges
    | PageCommitted(cursor: BlockRef)
    | ReorgCommitted(anchor: BlockRef, cursor: BlockRef)

  /** `validate_and_map`. */
  method ValidateAndMap(cfg: Config, api: Api, result: ScanResult, start: nat, anchor: Option<BlockRef>)
    returns (r: Result<Page, ScanError>)
    ensures r == ValidatePage(cfg, api, result, start, anchor)
    ensures r.Ok? ==>
      && r.value.batch == Batch(result.tip, result.blocks) && |result.blocks| <= cfg.maximumBatch
      && Linked(result.blocks, start)
      && (result.blocks != [] ==> r.value.cursor == Some(RefOf(result.blocks[|result.blocks| - 1])))
      && (result.blocks == [] && r.value.cursor.Some? ==> start == 0 && r.value.cursor.value.height == 0)
      && api.hashAt(result.tip.height) == Ok(Some(result.tip.hash))
      && exists previous :: Acceptable(cfg, api, result, start, anchor, previous, r.value.cursor)
    ensures r.Err? ==> forall previous, cursor :: !Acceptable(cfg, api, result, start, anchor, previous, cursor)
  {
    RefusedIff(cfg, api, result, start, anchor);
    hide Acceptable;
    if |result.blocks| > cfg.maximumBatch {
      return Err(InvalidScan("BATCH_TOO_LARGE"));
    }
    if result.tip.hash == ZERO_HASH {
      return Err(InvalidScan("ZERO_TIP_HASH"));
    }
    var canonical :- api.hashAt(result.tip.height);
    if canonical != Some(result.tip.hash) {
      return Err(InvalidScan("TIP_HASH_DISAGREEMENT"));
    }
    var previous := ZERO_HASH;
    if start != 0 {
      if anchor.Some? {
        if anchor.value.height + 1 != start {
          return Err(InvalidScan("START_ANCHOR_GAP"));
        }
        previous := anchor.value.hash;
      } else {
        var below :- api.hashAt(start - 1);
        if below.None? {
          return Err(InvalidScan("MISSING_PREVIOUS_HASH"));
        }
        previous := below.value;
      }
    }
    var checked := CheckBlocksLoop(result.blocks, start, previous);
    if checked.Err? {
      return Err(checked.error);
    }
    var cursor :- CursorFor(result, start, api);
    r := Ok(Page(Batch(result.tip, result.blocks), cursor));
    PageShape(cfg, api, result, start, anchor);
  }

  lemma RefusedIff(cfg: Config, api: Api, result: ScanResult, start: nat, anchor: Option<BlockRef>)
    ensures var r := ValidatePage(cfg, api, result, start, anchor);
      && (r.Ok? ==>
            && api.hashAt(result.tip.height) == Ok(Some(result.tip.hash))
            && exists previous :: Acceptable(cfg, api, result, start, anchor, previous, r.value.cursor))
      && (r.Err? ==> forall previous, cursor :: !Acceptable(cfg, api, result, start, anchor, previous, cursor))
  {
    hide ValidatePage, Linked, CursorOf;
    var r := ValidatePage(cfg, api, result, start, anchor);
    if r.Ok? {
      PageAcceptedIff(cfg, api, result, start, anchor, r.value);
    } else {
      forall previous, cursor ensures !Acceptable(cfg, api, result, start, anchor, previous, cursor) {
        PageAcceptedIff(cfg, api, result, start, anchor, Page(Batch(result.tip, result.blocks), cursor));
      }
    }
  }

  method ScanFromHeight(cfg: Config, api: Api, start: nat) returns (r: Result<Page, ScanError>)
    ensures r == ScanFrom(cfg, api, start)
  {
    hide ValidatePage;
    if !LimitAllowed(cfg) {
      return Err(InvalidScanLimit);
    }
    var _ :- CurrentTip(api);
    var result :- api.scanFrom(start, cfg.maximumBatch);
    r := ValidateAndMap(cfg, api, result, start, None);
  }

  method ScanNextPage(cfg: Config, api: Api, cursor: BlockRef) returns (r: Result<Page, ScanError>)
    ensures r == ScanNext(cfg, api, cursor)
  {
    hide ValidatePage;
    if !LimitAllowed(cfg) {
      return Err(InvalidScanLimit);
    }
    var _ :- CurrentTip(api);
    var _ :- ValidateCursor(api, cursor);
    var result :- api.scanNext(cursor, cfg.maximumBatch);
    r := ValidateAndMap(cfg, api, result, cursor.height + 1, Some(cursor));
  }

  /** `reconcile_reorg` up to the commit. */
  method PlanReorg(cfg: Config, window: seq<Anchor>, cursor: BlockRef, search: Api, page: Api)
      returns (r: Result<Plan, ScanError>)
    ensures r == ReorgPlan(cfg, window, cursor, search, page)
    ensures r.Ok? ==> r.value.CommitReorg? && PageReplaces(window, r.value.anchor, r.value.batch, r.value.cursor)
  {
    hide ScanFrom, ValidateCursor, PageReplaces;
    if ReorgPlan(cfg, window, cursor, search, page).Ok? {
      ReorgShape(cfg, window, cursor, search, page);
    }
    var anchor :- FindSafeAnchor(cfg, window, search, cursor.height);
    if anchor.height + 1 > U64_MAX {
      return Err(InvalidCursor);
    }
    var replacement :- ScanFromHeight(cfg, page, anchor.height + 1);
    if replacement.cursor.Some? {
      return Ok(CommitReorg(anchor, replacement.batch, replacement.cursor.value));
    }
    if replacement.batch.tip != anchor {
      return Err(InvalidScan("REORG_REPLACEMENT_EMPTY"));
    }
    var next :- ValidateCursor(page, anchor);
    r := Ok(CommitReorg(anchor, replacement.batch, next));
  }

  /** What `reconcile_once` or `reconcile_wallet_once` decides to commit. */
  method PlanStep(cfg: Config, window: seq<Anchor>, cursor: Option<BlockRef>, search: Api, page: Api, wallet: bool)
      returns (r: Result<Plan, ScanError>)
    ensures r == Decide(cfg, window, cursor, search, page, wallet)
    ensures r.Ok? && Agrees(window, cursor) ==>
      match r.value
      case Nothing => true
      case CommitPage(batch, next) =>
        PageAbove(window, batch, next, if cursor.Some? then cursor.value.height + 1 else if wallet then 1 else 0)
      case CommitReorg(anchor, batch, next) => PageReplaces(window, anchor, batch, next)
  {
    hide ScanFrom, ScanNext, ReorgPlan, BootstrapPlan, ValidateCursor, PageAbove, PageReplaces, Agrees;
    if Decide(cfg, window, cursor, search, page, wallet).Ok? && Agrees(window, cursor) {
      PlanShape(cfg, EMPTY_STATE.(window := window, cursor := cursor), Step(search, page, wallet, true));
    }
    if cursor.None? {
      if wallet {
        return BootstrapPlan(cfg, page);
      }
      var first :- ScanFromHeight(cfg, page, 0);
      return Ok(NormalPlan(first));
    }
    match ValidateCursor(search, cursor.value) {
      case Ok(_) =>
        var next :- ScanNextPage(cfg, page, cursor.value);
        r := Ok(NormalPlan(next));
      case Err(ReorgDetected) =>
        r := PlanReorg(cfg, window, cursor.value, search, page);
      case Err(e) =>
        r := Err(e);
    }
  }

  /** One reconcile step: the durable state moves exactly as `After` says. */
  method ReconcileOnce(cfg: Config, sink: RestoreSink, search: Api, page: Api, wallet: bool, maturity: nat,
                       storage: Storage, reloads: bool)
    returns (r: Result<Outcome, ScanError>)
    requires sink.Consistent()
    modifies sink
    ensures sink.Consistent()
    ensures old(sink.state).Some? && Decide(cfg, old(sink.durable).window, old(sink.durable).cursor, search, page,
                                            wallet) == Ok(Nothing) ==>
      r == Ok(NoChanges)
    ensures old(sink.state).None? ==> r.Err? && sink.durable == old(sink.durable)
    ensures old(sink.state).Some? ==>
      var s := Step(search, page, wallet, storage.Written?);
      && sink.durable == After(cfg, old(sink.durable), s, maturity)
      && (r.Ok? && !r.value.NoChanges? <==> Committed(cfg, old(sink.durable), s, maturity).Some?)
      && (r.Ok? || reloads ==> sink.state == Some(sink.durable))
      && (r.Ok? ==> match r.value
                    case NoChanges => Decide(cfg, old(sink.durable).window, old(sink.durable).cursor, search, page,
                                             wallet) == Ok(Nothing)
                    case PageCommitted(cursor) =>
                      && sink.durable.cursor == Some(cursor)
                      && (old(sink.durable).cursor.Some? ==>
                            ValidateCursor(search, old(sink.durable).cursor.value).Ok?)
                    case ReorgCommitted(anchor, cursor) =>
                      && sink.durable.cursor == Some(cursor)
                      && old(sink.durable).cursor.Some?
                      && var a := old(sink.durable).cursor.value;
                         && ValidateCursor(search, a) == Err(ReorgDetected)
                         && SafeAnchor(old(sink.durable).window, search, SaturatingSub(a.height, cfg.maximumDepth),
                                       a.height) == Ok(anchor))
      && (r.Err? ==>
            match Decide(cfg, old(sink.durable).window, old(sink.durable).cursor, search, page, wallet)
            case Err(e) => r == Err(e)
            case Ok(plan) =>
              match PlannedState(old(sink.durable), plan, maturity)
              case Err(e) => r == Err(Persistence(e))
              case Ok(_) =>
                && storage.Refused?
                && r == Err(Persistence(if storage.tooLarge then StateStorageLimitExceeded else StorageFailure)))
  {
    hide ApplyBatch, Rewind, Validates, ScanFrom, ScanNext, ReorgPlan, BootstrapPlan, ValidateCursor, SafeAnchor;
    if sink.state.None? {
      return Err(Persistence(StorageFailure));
    }
    var st := sink.state.value;
    var plan :- PlanStep(cfg, st.window, st.cursor, search, page, wallet);
    match plan {
      case Nothing =>
        r := Ok(NoChanges);
      case CommitPage(batch, cursor) =>
        PageNeedsValidCursor(cfg, st.window, st.cursor, search, page, wallet);
        var done := sink.Commit(batch, cursor, None, maturity, storage, reloads);
        r := if done.Ok? then Ok(PageCommitted(cursor)) else Err(Persistence(done.error));
      case CommitReorg(anchor, batch, cursor) =>
        ReorgNeedsInvalidCursor(cfg, st.window, st.cursor, search, page, wallet);
        var done := sink.Commit(batch, cursor, Some(anchor), maturity, storage, reloads);
        r := if done.Ok? then Ok(ReorgCommitted(anchor, cursor)) else Err(Persistence(done.error));
    }
  }

  lemma ReorgNeedsInvalidCursor(cfg: Config, window: seq<Anchor>, cursor: Option<BlockRef>, search: Api, page: Api,
                                wallet: bool)
    requires var d := Decide(cfg, window, cursor, search, page, wallet); d.Ok? && d.value.CommitReorg?
    ensures cursor.Some? && ValidateCursor(search, cursor.value) == Err(ReorgDetected)
    ensures SafeAnchor(window, search, SaturatingSub(cursor.value.height, cfg.maximumDepth), cursor.value.height)
         == Ok(Decide(cfg, window, cursor, search, page, wallet).value.anchor)
  {
    hide ScanFrom, ScanNext, ValidateCursor, SafeAnchor;
  }

  lemma PageNeedsValidCursor(cfg: Config, window: seq<Anchor>, cursor: Option<BlockRef>, search: Api, page: Api,
                             wallet: bool)
    requires var d := Decide(cfg, window, cursor, search, page, wallet); d.Ok? && d.value.CommitPage?
    ensures cursor.Some? ==> ValidateCursor(search, cursor.value).Ok?
  {
    hide ScanFrom, ScanNext, ValidateCursor, SafeAnchor, BootstrapPlan;
  }

  // ----- to the tip

  /** No cursor, a cursor off the chain, a cursor on it: the progress left, most first. */
  ghost function Phase(st: WalletState, chain: seq<Block>): nat {
    if st.cursor.None? then 2 else if OnChain(chain, st.cursor.value) then 0 else 1
  }

  ghost function Remaining(st: WalletState, chain: seq<Block>): nat {
    if st.cursor.Some? then SaturatingSub(|chain|, st.cursor.value.height) else 0
  }

  /** The sink's state is fresh, or faithful to a branch of known blocks. */
  ghost predicate Known(st: WalletState, l: Ledger, universe: set<Block>, maturity: nat) {
    Fresh(st) || (Faithful(st, l, maturity) && InUniverse(l.branch, universe))
  }

  /** A commit against an honest Core lands on its chain, and above an anchor that was already on it. */
  lemma CommitAdvances(cfg: Config, st: WalletState, l: Ledger, api: Api, chain: seq<Block>, universe: set<Block>,
                       written: bool, maturity: nat)
      returns (after: Ledger)
    requires Known(st, l, universe, maturity) && Honest(api, chain) && ValidChain(chain, universe, maturity)
    requires Committed(cfg, st, Step(api, api, true, written), maturity).Some?
    ensures var next := Committed(cfg, st, Step(api, api, true, written), maturity).value;
            && Known(next, after, universe, maturity) && next.cursor.Some? && OnChain(chain, next.cursor.value)
            && (Phase(st, chain) == 0 ==> Remaining(next, chain) < Remaining(st, chain))
            && Scanned(next, after, chain, maturity) && Phase(next, chain) == 0
  {
    hide Committed, Faithful, Consistent, Representable, Honest, Truthful;
    HonestIsTruthful(api, chain);
    var s := Step(api, api, true, written);
    var next := Committed(cfg, st, s, maturity).value;
    if st.cursor.None? {
      assert Fresh(st) by { FaithfulHasCursor(st, l, maturity); }
      FirstCommit(cfg, st, s, chain, universe, maturity);
      var first := if next.window == [] then 1 else next.window[0].height;
      after := SliceLedger(first, chain, next.cursor.value.height, 0);
    } else {
      LaterCommit(cfg, st, l, s, chain, universe, maturity);
      after := SliceLedger(l.first, chain, next.cursor.value.height, l.peak);
      if OnChain(chain, st.cursor.value) {
        NormalAdvances(cfg, st, api, chain, written, maturity);
      }
    }
  }

  lemma FaithfulHasCursor(st: WalletState, l: Ledger, maturity: nat)
    ensures Faithful(st, l, maturity) ==> st.cursor.Some?
  {
    hide OwnedExact, Counted, ValidLedger;
  }

  lemma NormalAdvances(cfg: Config, st: WalletState, api: Api, chain: seq<Block>, written: bool, maturity: nat)
    requires Honest(api, chain) && st.cursor.Some? && OnChain(chain, st.cursor.value)
    requires Committed(cfg, st, Step(api, api, true, written), maturity).Some?
    ensures var next := Committed(cfg, st, Step(api, api, true, written), maturity).value;
            next.cursor.Some? && next.cursor.value.height > st.cursor.value.height && next.cursor.value.height < |chain|
  {
    hide ApplyBatch, Rewind, Validates, ScanNext, ReorgPlan, ValidateCursor, Truthful;
    var a := st.cursor.value;
    CursorOnChain(api, chain, a);
    HonestIsTruthful(api, chain);
    TruthfulScanNext(cfg, api, chain, a);
    var page := ScanNext(cfg, api, a).value;
    var blocks := page.batch.blocks;
    assert blocks[|blocks| - 1] == chain[a.height + |blocks|];
  }

  /** The state is one straight scan of the chain up to the cursor. */
  ghost predicate Scanned(st: WalletState, l: Ledger, chain: seq<Block>, maturity: nat) {
    && Faithful(st, l, maturity) && l.tip == |chain| - 1
    && st.cursor.Some? && l.first <= st.cursor.value.height + 1 <= |chain|
    && l.branch == chain[l.first..st.cursor.value.height + 1]
  }

  /** Nothing but a failing write can stop the loop: the chain can be recorded, and the cursor is absent, on it or
      within reach of its fork point. */
  ghost predicate Sure(cfg: Config, st: WalletState, l: Ledger, chain: seq<Block>, universe: set<Block>,
                       maturity: nat) {
    && Trusted(cfg, chain) && Recordable(chain, universe, maturity)
    && (Phase(st, chain) == 1 ==> Recoverable(cfg, st, l, chain))
  }

  datatype Turn = Reached(outcome: Outcome) | Advanced(reorg: bool)

  /** One turn of `reconcile_to_tip`: a step and the comparison with the tip. It ends at the tip or has committed, and
      a commit leaves the cursor on the chain, higher if it was on it before. */
  method ReconcileTurn(cfg: Config, sink: RestoreSink, api: Api, maturity: nat, storage: Storage, reloads: bool,
                       ghost chain: seq<Block>, ghost universe: set<Block>, ghost l: Ledger)
    returns (r: Result<Turn, ScanError>, ghost after: Ledger)
    requires sink.Consistent() && sink.state.Some? && Honest(api, chain) && ValidChain(chain, universe, maturity)
    requires Known(sink.durable, l, universe, maturity)
    modifies sink
    ensures sink.Consistent() && Known(sink.durable, after, universe, maturity)
    ensures r.Ok? ==> sink.state == Some(sink.durable)
    ensures sink.durable != old(sink.durable) ==> Scanned(sink.durable, after, chain, maturity)
    ensures sink.durable == old(sink.durable) ==> after == l
    ensures r.Ok? && r.value.Reached? ==> sink.durable.cursor == Some(TipOf(chain))
    ensures r.Ok? && r.value.Advanced? ==>
      && sink.durable != old(sink.durable) && Phase(sink.durable, chain) == 0
      && (Phase(old(sink.durable), chain) == 0 ==>
            !r.value.reorg && Remaining(sink.durable, chain) < Remaining(old(sink.durable), chain))
    ensures Sure(cfg, old(sink.durable), l, chain, universe, maturity) && storage.Written? ==>
      r.Ok? && Sure(cfg, sink.durable, after, chain, universe, maturity)
  {
    hide Honest, Known, Scanned, Sure, ValidChain, Committed, Decide, CurrentTip, ValidateCursor, Phase, Remaining,
         OnChain, Linked;
    ghost var st := sink.durable;
    after := l;
    TipAccepted(api, chain);
    var step := ReconcileOnce(cfg, sink, api, api, true, maturity, storage, reloads);
    if Sure(cfg, st, l, chain, universe, maturity) {
      SureStep(cfg, st, l, api, chain, universe, maturity);
    }
    if step.Err? {
      return Err(step.error), after;
    }
    if !step.value.NoChanges? {
      after := CommitAdvances(cfg, st, l, api, chain, universe, storage.Written?, maturity);
      SureStays(cfg, st, sink.durable, after, chain, universe, maturity);
      OnChainPhase(st, chain);
      CommitChanges(cfg, st, Step(api, api, true, storage.Written?), maturity);
      if step.value.ReorgCommitted? {
        CursorOnChain(api, chain, st.cursor.value);
      }
    }
    if sink.durable.cursor.None? {
      return Err(InvalidScan("SCAN_STALLED_WITHOUT_CURSOR")), after;
    }
    CursorOnChain(api, chain, sink.durable.cursor.value);
    var anchor := ValidateCursor(api, sink.durable.cursor.value);
    if anchor.Err? {
      return Err(anchor.error), after;
    }
    match CurrentTip(api) {
      case Err(e) =>
        return Err(e), after;
      case Ok(tip) =>
        if anchor.value == tip {
          return Ok(Reached(step.value)), after;
        }
    }
    if step.value.NoChanges? {
      return Err(InvalidScan("SCAN_STALLED_BEFORE_TARGET")), after;
    }
    r := Ok(Advanced(step.value.ReorgCommitted?));
  }

  /** A commit raises the generation. */
  lemma CommitChanges(cfg: Config, st: WalletState, s: Step, maturity: nat)
    requires Committed(cfg, st, s, maturity).Some?
    ensures Committed(cfg, st, s, maturity).value != st
  {
    hide Decide, PlannedState;
  }

  /** RECONCILE TO TIP. Against a fixed honest Core the loop terminates; success means the durable
      cursor is the tip and the state one straight scan of Core's chain up to it; at most one reorg is
      committed; and it succeeds whenever every write does and the starting cursor is absent, on the
      chain, or within reach of its fork point. A success that commits nothing keeps the maturity states
      of the tip seen with the last commit, which was higher if Core's chain has shrunk to the cursor. */
  method ReconcileToTip(cfg: Config, sink: RestoreSink, api: Api, maturity: nat, storage: nat -> Storage,
                        reloads: nat -> bool, ghost chain: seq<Block>, ghost universe: set<Block>, ghost start: Ledger)
    returns (r: Result<Outcome, ScanError>, reorgs: nat, ghost end: Ledger)
    requires sink.Consistent() && sink.state.Some? && Honest(api, chain) && ValidChain(chain, universe, maturity)
    requires Known(sink.durable, start, universe, maturity)
    modifies sink
    ensures r.Ok? ==> sink.durable.cursor == Some(TipOf(chain))
    ensures r.Ok? ==> Faithful(sink.durable, end, maturity) && end.first <= |chain| && end.branch == chain[end.first..]
    ensures r.Ok? ==> end.tip == |chain| - 1 || (sink.durable == old(sink.durable) && end == start)
    ensures reorgs <= 1
    ensures Sure(cfg, old(sink.durable), start, chain, universe, maturity) && (forall i :: storage(i).Written?)
      ==> r.Ok?
  {
    hide Honest, Known, Scanned, Sure, ValidChain, Phase, Remaining;
    HonestLinked(api, chain);
    var attempts := 0;
    reorgs, end := 0, start;
    ghost var able := Sure(cfg, sink.durable, start, chain, universe, maturity) && forall i :: storage(i).Written?;
    while true
      invariant sink.Consistent() && sink.state == Some(sink.durable)
      invariant Known(sink.durable, end, universe, maturity)
      invariant reorgs <= 1 && (reorgs == 1 ==> Phase(sink.durable, chain) == 0)
      invariant (sink.durable == old(sink.durable) && end == start) || Scanned(sink.durable, end, chain, maturity)
      invariant able ==> Sure(cfg, sink.durable, end, chain, universe, maturity)
      decreases Phase(sink.durable, chain), Remaining(sink.durable, chain)
    {
      var turn;
      turn, end := ReconcileTurn(cfg, sink, api, maturity, storage(attempts), reloads(attempts), chain, universe, end);
      match turn {
        case Err(e) =>
          return Err(e), reorgs, end;
        case Ok(Reached(outcome)) =>
          TipScanned(sink.durable, end, api, chain, universe, maturity);
          return Ok(outcome), reorgs, end;
        case Ok(Advanced(reorg)) =>
          reorgs := if reorg then reorgs + 1 else reorgs;
      }
      attempts := attempts + 1;
    }
  }

  /** A known state whose cursor is the tip has scanned the chain to its end. */
  lemma TipScanned(st: WalletState, l: Ledger, api: Api, chain: seq<Block>, universe: set<Block>, maturity: nat)
    requires Known(st, l, universe, maturity) && Honest(api, chain) && ValidChain(chain, universe, maturity)
    requires chain != [] && st.cursor == Some(TipOf(chain))
    ensures Faithful(st, l, maturity) && l.first <= |chain| && l.branch == chain[l.first..]
    ensures Scanned(st, l, chain, maturity) ==> l.tip == |chain| - 1
  {
    hide Honest, Faithful, Consistent, Representable, CollisionFree, InUniverse, Linked;
    HonestLinked(api, chain);
    TipAccepted(api, chain);
    FaithfulSlice(st, l, TipOf(chain), chain, universe, maturity);
  }

  lemma OnChainPhase(st: WalletState, chain: seq<Block>)
    ensures Phase(st, chain) == 0 <==> st.cursor.Some? && OnChain(chain, st.cursor.value)
  {
  }

  /** A sure step either finds nothing to do at the tip or commits, if it may write. */
  lemma SureStep(cfg: Config, st: WalletState, l: Ledger, api: Api, chain: seq<Block>, universe: set<Block>,
                 maturity: nat)
    requires Known(st, l, universe, maturity) && Honest(api, chain) && Sure(cfg, st, l, chain, universe, maturity)
    ensures if AtTip(st, chain) then Decide(cfg, st.window, st.cursor, api, api, true) == Ok(Nothing)
            else Committed(cfg, st, Step(api, api, true, true), maturity).Some?
  {
    hide Honest, Known, Committed, Decide, Recordable, Recoverable;
    TipIsQuiet(cfg, st, api, chain);
    StepSucceeds(cfg, st, l, api, chain, universe, maturity);
  }

  /** What made a run sure before a commit makes it sure after it. */
  lemma SureStays(cfg: Config, st: WalletState, next: WalletState, l: Ledger, chain: seq<Block>, universe: set<Block>,
                  maturity: nat)
    requires Phase(next, chain) == 0
    ensures forall k :: Sure(cfg, st, k, chain, universe, maturity) ==> Sure(cfg, next, l, chain, universe, maturity)
  {
    hide Recordable, Recoverable;
  }

  /** At the tip there is nothing to commit. */
  lemma TipIsQuiet(cfg: Config, st: WalletState, api: Api, chain: seq<Block>)
    requires Honest(api, chain)
    ensures LimitAllowed(cfg) && AtTip(st, chain) ==> Decide(cfg, st.window, st.cursor, api, api, true) == Ok(Nothing)
  {
    hide ScanNext, ValidateCursor, Linked, Truthful;
    if LimitAllowed(cfg) && AtTip(st, chain) {
      var a := st.cursor.value;
      TipAccepted(api, chain);
      CursorOnChain(api, chain, a);
      ScanNextAccepted(cfg, api, chain, a);
      HonestIsTruthful(api, chain);
      TruthfulScanNext(cfg, api, chain, a);
      HonestScanNext(cfg, api, chain, a);
    }
  }

  /** A step that is not at the tip commits, if it may write and can find its fork point. */
  lemma StepSucceeds(cfg: Config, st: WalletState, l: Ledger, api: Api, chain: seq<Block>, universe: set<Block>,
                     maturity: nat)
    requires Known(st, l, universe, maturity) && Honest(api, chain)
    ensures Trusted(cfg, chain) && Recordable(chain, universe, maturity) && !AtTip(st, chain)
            && (Phase(st, chain) == 1 ==> Recoverable(cfg, st, l, chain))
            ==> Committed(cfg, st, Step(api, api, true, true), maturity).Some?
  {
    hide Honest, Committed, Recordable, Recoverable, Faithful;
    FaithfulHasCursor(st, l, maturity);
    if Trusted(cfg, chain) && Recordable(chain, universe, maturity) && !AtTip(st, chain)
       && (Phase(st, chain) == 1 ==> Recoverable(cfg, st, l, chain)) {
      if st.cursor.None? {
        FirstStepCommits(cfg, st, api, chain, universe, maturity);
      } else if OnChain(chain, st.cursor.value) {
        NormalStepCommits(cfg, st, l, api, chain, universe, maturity);
      } else {
        ReorgStepCommits(cfg, st, l, api, chain, universe, maturity);
      }
    }
  }
}
