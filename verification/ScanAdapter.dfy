/** The wallet side of the canonical scan: checking the pages Core serves, finding
    a safe anchor after a reorganisation, and deciding what to commit.

    An `Api` value holds Core's answers during one phase of a reconcile step. It is
    an arbitrary record of functions: nothing is assumed about it unless a lemma
    says so. A step uses two of them, `search` for the cursor check and the anchor
    search and `page` for the page scan, so Core may change in between. */
module ScanAdapter {
  import opened Wrappers
  import opened Blocks
  import opened BranchFacts
  import opened RecoverySpec

  const MAX_BATCH_BLOCKS: nat := 1_024

  datatype ScanError =
    | InvalidIdentity
    | InvalidCursor
    | ReorgDetected
    | InvalidScan(code: string)
    | InvalidScanLimit
    | ReorgBeyondBound
    | CoreNotReady
    | Persistence(cause: RestoreError)

  /** A cursor as Core hands it out. */
  datatype Continuation = Continuation(next: nat, anchor: BlockRef)

  datatype ScanResult = ScanResult(tip: BlockRef, blocks: seq<Block>, continuation: Option<Continuation>)

  datatype Api = Api(
    tip: Result<BlockRef, ScanError>,
    hashAt: nat -> Result<Option<Hash>, ScanError>,
    validates: BlockRef -> Result<bool, ScanError>,
    scanFrom: (nat, nat) -> Result<ScanResult, ScanError>,
    scanNext: (BlockRef, nat) -> Result<ScanResult, ScanError>)

  datatype Config = Config(
    maximumBatch: nat,
    maximumDepth: nat,
    mainnet: bool,
    genesisHash: Hash)

  /** A validated page and the cursor that may be committed with it. The next height of a
      persisted cursor is always one above its anchor, so the anchor stands for the cursor. */
  datatype Page = Page(batch: Batch, cursor: Option<BlockRef>)

  /** What one reconcile step asks the sink to do. */
  datatype Plan =
    | Nothing
    | CommitPage(batch: Batch, cursor: BlockRef)
    | CommitReorg(anchor: BlockRef, batch: Batch, cursor: BlockRef)

  function RefOf(b: Block): BlockRef {
    BlockRef(b.height, b.hash)
  }

  // ----- Core identity and cursors

  function CurrentTip(api: Api): Result<BlockRef, ScanError> {
    var tip :- api.tip;
    if tip.hash == ZERO_HASH then Err(InvalidIdentity) else Ok(tip)
  }

  function ValidateCursor(api: Api, cursor: BlockRef): Result<BlockRef, ScanError> {
    if cursor.hash == ZERO_HASH then Err(InvalidCursor)
    else
      var valid :- api.validates(cursor);
      if valid then Ok(cursor) else Err(ReorgDetected)
  }

  // ----- page validation

  /** The block loop of `validate_and_map`: heights, predecessor hashes, canonical markers. */
  function CheckBlocks(blocks: seq<Block>, start: nat, previous: Hash): Result<(), ScanError> {
    if blocks == [] then Ok(())
    else
      var n := |blocks| - 1;
      var _ :- CheckBlocks(blocks[..n], start, previous);
      var b := blocks[n];
      if b.height != start + n then Err(InvalidScan("NONCONTIGUOUS_HEIGHT"))
      else if b.previous != (if n == 0 then previous else blocks[n - 1].hash)
          then Err(InvalidScan("PREVIOUS_HASH_MISMATCH"))
      else if b.hash == ZERO_HASH then Err(InvalidScan("NONCANONICAL_BLOCK"))
      else if start + n + 1 > U64_MAX then Err(InvalidScan("HEIGHT_OVERFLOW"))
      else Ok(())
  }

  lemma CheckLast(blocks: seq<Block>, k: nat, start: nat, previous: Hash)
    requires k < |blocks| && CheckBlocks(blocks[..k], start, previous).Ok?
    ensures CheckBlocks(blocks[..k + 1], start, previous) ==
      if blocks[k].height != start + k then Err(InvalidScan("NONCONTIGUOUS_HEIGHT"))
      else if blocks[k].previous != (if k == 0 then previous else blocks[k - 1].hash)
      then Err(InvalidScan("PREVIOUS_HASH_MISMATCH"))
      else if blocks[k].hash == ZERO_HASH then Err(InvalidScan("NONCANONICAL_BLOCK"))
      else if start + k + 1 > U64_MAX then Err(InvalidScan("HEIGHT_OVERFLOW"))
      else Ok(())
  {
    assert blocks[..k + 1][..k] == blocks[..k];
  }

  /** The same loop in place. */
  method CheckBlocksLoop(blocks: seq<Block>, start: nat, previous: Hash) returns (r: Result<(), ScanError>)
    ensures r == CheckBlocks(blocks, start, previous)
  {
    assert CheckBlocks(blocks[..0], start, previous).Ok?;
    hide CheckBlocks;
    var nextHeight, previousHash := start, previous;
    var k := 0;
    while k < |blocks|
      invariant 0 <= k <= |blocks|
      invariant CheckBlocks(blocks[..k], start, previous).Ok?
      invariant nextHeight == start + k
      invariant previousHash == if k == 0 then previous else blocks[k - 1].hash
    {
      CheckLast(blocks, k, start, previous);
      var b := blocks[k];
      var fault: Option<ScanError> := None;
      if b.height != nextHeight {
        fault := Some(InvalidScan("NONCONTIGUOUS_HEIGHT"));
      } else if b.previous != previousHash {
        fault := Some(InvalidScan("PREVIOUS_HASH_MISMATCH"));
      } else if b.hash == ZERO_HASH {
        fault := Some(InvalidScan("NONCANONICAL_BLOCK"));
      } else if nextHeight + 1 > U64_MAX {
        fault := Some(InvalidScan("HEIGHT_OVERFLOW"));
      }
      if fault.Some? {
        assert CheckBlocks(blocks[..k + 1], start, previous) == Err(fault.value);
        FailureStays(blocks, k + 1, start, previous);
        return Err(fault.value);
      }
      previousHash := b.hash;
      nextHeight := nextHeight + 1;
      k := k + 1;
    }
    assert blocks[..k] == blocks;
    r := Ok(());
  }

  lemma {:induction false} FailureStays(blocks: seq<Block>, k: nat, start: nat, previous: Hash)
    requires k <= |blocks| && CheckBlocks(blocks[..k], start, previous).Err?
    ensures CheckBlocks(blocks, start, previous) == CheckBlocks(blocks[..k], start, previous)
  {
    hide CheckBlocks;
    if k == |blocks| {
      assert blocks[..k] == blocks;
    } else {
      var n := |blocks| - 1;
      assert blocks[..n][..k] == blocks[..k];
      FailureStays(blocks[..n], k, start, previous);
      FailureFirst(blocks, start, previous);
    }
  }

  lemma FailureFirst(blocks: seq<Block>, start: nat, previous: Hash)
    requires blocks != [] && CheckBlocks(blocks[..|blocks| - 1], start, previous).Err?
    ensures CheckBlocks(blocks, start, previous) == CheckBlocks(blocks[..|blocks| - 1], start, previous)
  {
  }

  /** The blocks that pass are exactly the contiguous, hash-linked, canonical continuations. */
  lemma {:induction false} CheckBlocksIff(blocks: seq<Block>, start: nat, previous: Hash)
    ensures CheckBlocks(blocks, start, previous).Ok? <==>
            && Linked(blocks, start)
            && (blocks != [] ==> blocks[0].previous == previous && start + |blocks| <= U64_MAX)
  {
    if blocks != [] {
      var n := |blocks| - 1;
      CheckBlocksIff(blocks[..n], start, previous);
      if Linked(blocks, start) {
        LinkedPrefix(blocks, start, n);
        assert n > 0 ==> Joins(blocks, n);
      }
      if CheckBlocks(blocks, start, previous).Ok? {
        forall i | 0 < i < |blocks| ensures Joins(blocks, i) {
          assert i < n ==> Joins(blocks[..n], i);
        }
      }
    }
  }

  function CursorFor(result: ScanResult, start: nat, api: Api): Result<Option<BlockRef>, ScanError> {
    if result.blocks == [] then
      if result.continuation.Some? then Err(InvalidScan("CURSOR_WITHOUT_BLOCKS"))
      else if start == 0 && result.tip.height == 0 then
        var cursor :- ValidateCursor(api, BlockRef(0, result.tip.hash));
        Ok(Some(cursor))
      else Ok(None)
    else
      var last := result.blocks[|result.blocks| - 1];
      if result.continuation.Some? && last.height >= result.tip.height then Err(InvalidScan("CURSOR_PAST_TIP"))
      else if result.continuation.None? && last.height < result.tip.height then Err(InvalidScan("MISSING_CONTINUATION"))
      else if result.continuation.Some? && result.continuation.value != Continuation(last.height + 1, RefOf(last)) then
        Err(InvalidScan("CONTINUATION_REGRESSION"))
      else
        var cursor :- ValidateCursor(api, RefOf(last));
        Ok(Some(cursor))
  }

  /** `validate_and_map`. */
  function ValidatePage(cfg: Config, api: Api, result: ScanResult, start: nat, anchor: Option<BlockRef>)
    : Result<Page, ScanError> {
    if |result.blocks| > cfg.maximumBatch then Err(InvalidScan("BATCH_TOO_LARGE"))
    else if result.tip.hash == ZERO_HASH then Err(InvalidScan("ZERO_TIP_HASH"))
    else
      var canonical :- api.hashAt(result.tip.height);
      if canonical != Some(result.tip.hash) then Err(InvalidScan("TIP_HASH_DISAGREEMENT"))
      else
        var previous :-
          if start == 0 then Ok(ZERO_HASH)
          else if anchor.Some? then
            if anchor.value.height + 1 != start then Err(InvalidScan("START_ANCHOR_GAP")) else Ok(anchor.value.hash)
          else
            var below :- api.hashAt(start - 1);
            if below.None? then Err(InvalidScan("MISSING_PREVIOUS_HASH")) else Ok(below.value);
        var _ :- CheckBlocks(result.blocks, start, previous);
        var cursor :- CursorFor(result, start, api);
        Ok(Page(Batch(result.tip, result.blocks), cursor))
  }

  predicate LimitAllowed(cfg: Config) {
    0 < cfg.maximumBatch <= MAX_BATCH_BLOCKS
  }

  function ScanFrom(cfg: Config, api: Api, start: nat): Result<Page, ScanError> {
    if !LimitAllowed(cfg) then Err(InvalidScanLimit)
    else
      var _ :- CurrentTip(api);
      var result :- api.scanFrom(start, cfg.maximumBatch);
      ValidatePage(cfg, api, result, start, None)
  }

  function ScanNext(cfg: Config, api: Api, cursor: BlockRef): Result<Page, ScanError> {
    if !LimitAllowed(cfg) then Err(InvalidScanLimit)
    else
      var _ :- CurrentTip(api);
      var _ :- ValidateCursor(api, cursor);
      var result :- api.scanNext(cursor, cfg.maximumBatch);
      ValidatePage(cfg, api, result, cursor.height + 1, Some(cursor))
  }

  // ----- which pages are accepted, whatever Core answers

  lemma CursorValidIff(api: Api, cursor: BlockRef)
    ensures ValidateCursor(api, cursor).Ok? <==> cursor.hash != ZERO_HASH && api.validates(cursor) == Ok(true)
    ensures ValidateCursor(api, cursor).Ok? ==> ValidateCursor(api, cursor).value == cursor
    ensures cursor.hash != ZERO_HASH && api.validates(cursor) == Ok(false) ==>
      ValidateCursor(api, cursor) == Err(ReorgDetected)
    ensures cursor.hash == ZERO_HASH ==> ValidateCursor(api, cursor) == Err(InvalidCursor)
  {
  }

  /** The hash a page must continue from: none at genesis, the anchor's, or Core's own one height below. */
  ghost predicate ContinuesFrom(api: Api, start: nat, anchor: Option<BlockRef>, previous: Hash) {
    if start == 0 then previous == ZERO_HASH
    else if anchor.Some? then anchor.value.height + 1 == start && previous == anchor.value.hash
    else api.hashAt(start - 1) == Ok(Some(previous))
  }

  /** The cursor a page may be committed with. An empty page has one only at a lone genesis. */
  ghost predicate CursorOf(api: Api, result: ScanResult, start: nat, cursor: Option<BlockRef>) {
    if result.blocks == [] then
      && result.continuation.None?
      && cursor == (if start == 0 && result.tip.height == 0 then Some(BlockRef(0, result.tip.hash)) else None)
      && (cursor.Some? ==> api.validates(cursor.value) == Ok(true))
    else
      var last := result.blocks[|result.blocks| - 1];
      && cursor == Some(RefOf(last)) && api.validates(RefOf(last)) == Ok(true)
      && result.continuation ==
         (if last.height < result.tip.height then Some(Continuation(last.height + 1, RefOf(last))) else None)
  }

  lemma CursorForIff(api: Api, result: ScanResult, start: nat, cursor: Option<BlockRef>)
    requires result.tip.hash != ZERO_HASH && Linked(result.blocks, start)
    ensures CursorFor(result, start, api) == Ok(cursor) <==> CursorOf(api, result, start, cursor)
  {
    if result.blocks == [] {
      CursorValidIff(api, BlockRef(0, result.tip.hash));
    } else {
      CursorValidIff(api, RefOf(result.blocks[|result.blocks| - 1]));
    }
  }

  ghost predicate Acceptable(cfg: Config, api: Api, result: ScanResult, start: nat, anchor: Option<BlockRef>,
                             previous: Hash, cursor: Option<BlockRef>) {
    && |result.blocks| <= cfg.maximumBatch
    && result.tip.hash != ZERO_HASH && api.hashAt(result.tip.height) == Ok(Some(result.tip.hash))
    && ContinuesFrom(api, start, anchor, previous)
    && Linked(result.blocks, start)
    && (result.blocks != [] ==> result.blocks[0].previous == previous && start + |result.blocks| <= U64_MAX)
    && CursorOf(api, result, start, cursor)
  }

  /** A page is accepted if and only if it is small enough, Core has its tip, its blocks are linked to the right
      predecessor, its continuation is that of its last block exactly below the tip, and Core accepts its cursor; what
      is accepted is the page itself. */
  lemma PageAcceptedIff(cfg: Config, api: Api, result: ScanResult, start: nat, anchor: Option<BlockRef>, page: Page)
    ensures ValidatePage(cfg, api, result, start, anchor) == Ok(page) <==>
      && page.batch == Batch(result.tip, result.blocks)
      && exists previous :: Acceptable(cfg, api, result, start, anchor, previous, page.cursor)
  {
    hide CheckBlocks, Linked, CursorOf, CursorFor;
    if ValidatePage(cfg, api, result, start, anchor) == Ok(page) {
      var previous := if start == 0 then ZERO_HASH else if anchor.Some? then anchor.value.hash
                      else api.hashAt(start - 1).value.value;
      CheckBlocksIff(result.blocks, start, previous);
      CursorForIff(api, result, start, page.cursor);
      assert Acceptable(cfg, api, result, start, anchor, previous, page.cursor);
    } else if previous :| Acceptable(cfg, api, result, start, anchor, previous, page.cursor) {
      CheckBlocksIff(result.blocks, start, previous);
      CursorForIff(api, result, start, page.cursor);
    }
  }

  // ----- safe anchor

  function CommittedHash(window: seq<Anchor>, height: nat): Option<Hash> {
    match FindAnchor(window, height)
    case Some(i) => Some(window[i].hash)
    case None => None
  }

  /** Search downwards from below `upper` to `lowest` for a retained hash Core still has. */
  function SafeAnchor(window: seq<Anchor>, api: Api, lowest: nat, upper: nat): Result<BlockRef, ScanError>
    decreases upper
  {
    if upper <= lowest then Err(ReorgBeyondBound)
    else
      var height := upper - 1;
      var core :- api.hashAt(height);
      var local := CommittedHash(window, height);
      if local.Some? && core.Some? && local.value == core.value && core.value != ZERO_HASH
          then Ok(BlockRef(height, core.value))
      else SafeAnchor(window, api, lowest, height)
  }

  /** The retained hash at a height is Core's, and not zero. */
  ghost predicate Matches(window: seq<Anchor>, api: Api, h: nat) {
    && api.hashAt(h).Ok? && api.hashAt(h).value.Some? && api.hashAt(h).value.value != ZERO_HASH
    && CommittedHash(window, h) == api.hashAt(h).value
  }

  /** The heights from `from` up have been asked for and do not match. */
  ghost predicate Unmatched(window: seq<Anchor>, api: Api, from: nat, to: nat) {
    forall h :: from <= h < to ==> api.hashAt(h).Ok? && !Matches(window, api, h)
  }

  /** The search, for arbitrary Core answers: it returns the highest matching height in its range, the first error met
      on the way down, or that there is none. */
  lemma {:induction false} SafeAnchorExact(window: seq<Anchor>, api: Api, lowest: nat, upper: nat)
    ensures match SafeAnchor(window, api, lowest, upper)
      case Ok(r) =>
        && lowest <= r.height < upper && Matches(window, api, r.height) && CommittedHash(window, r.height)
          == Some(r.hash)
        && Unmatched(window, api, r.height + 1, upper)
      case Err(e) =>
        || (e == ReorgBeyondBound && Unmatched(window, api, lowest, upper))
        || exists h :: lowest <= h < upper && api.hashAt(h) == Err(e) && Unmatched(window, api, h + 1, upper)
    decreases upper
  {
    hide CommittedHash;
    if upper > lowest {
      var h := upper - 1;
      if api.hashAt(h).Err? {
        assert Unmatched(window, api, h + 1, upper);
      } else if !Matches(window, api, h) {
        SafeAnchorExact(window, api, lowest, h);
        if SafeAnchor(window, api, lowest, h).Err? && !Unmatched(window, api, lowest, h) {
          var k :| lowest <= k < h && api.hashAt(k) == Err(SafeAnchor(window, api, lowest, h).error)
            && Unmatched(window, api, k + 1, h);
          assert Unmatched(window, api, k + 1, upper);
        }
      }
    }
  }

  /** `find_safe_anchor`. */
  method FindSafeAnchor(cfg: Config, window: seq<Anchor>, api: Api, invalid: nat)
      returns (r: Result<BlockRef, ScanError>)
    ensures r == SafeAnchor(window, api, SaturatingSub(invalid, cfg.maximumDepth), invalid)
  {
    var lowest := SaturatingSub(invalid, cfg.maximumDepth);
    var upper: nat := invalid;
    while upper > lowest
      invariant upper <= invalid
      invariant SafeAnchor(window, api, lowest, invalid) == SafeAnchor(window, api, lowest, upper)
    {
      var height := upper - 1;
      var local := CommittedHash(window, height);
      var core :- api.hashAt(height);
      if local.Some? && core.Some? && local.value == core.value && core.value != ZERO_HASH {
        return Ok(BlockRef(height, core.value));
      }
      upper := height;
    }
    r := Err(ReorgBeyondBound);
  }

  // ----- deciding a step

  function NormalPlan(page: Page): Plan {
    match page.cursor
    case None => Nothing
    case Some(cursor) => CommitPage(page.batch, cursor)
  }

  /** `reconcile_reorg` up to the commit. */
  function ReorgPlan(cfg: Config, window: seq<Anchor>, cursor: BlockRef, search: Api, page: Api)
    : Result<Plan, ScanError> {
    var anchor :- SafeAnchor(window, search, SaturatingSub(cursor.height, cfg.maximumDepth), cursor.height);
    if anchor.height + 1 > U64_MAX then Err(InvalidCursor)
    else
      var replacement :- ScanFrom(cfg, page, anchor.height + 1);
      match replacement.cursor
      case Some(next) => Ok(CommitReorg(anchor, replacement.batch, next))
      case None =>
        if replacement.batch.tip != anchor then Err(InvalidScan("REORG_REPLACEMENT_EMPTY"))
        else
          var next :- ValidateCursor(page, anchor);
          Ok(CommitReorg(anchor, replacement.batch, next))
  }

  /** The bootstrap of `reconcile_wallet_once`: a missing cursor starts above genesis. */
  function BootstrapPlan(cfg: Config, api: Api): Result<Plan, ScanError> {
    var tip :- CurrentTip(api);
    var genesis :- api.hashAt(0);
    if genesis.None? then Err(InvalidScan("MISSING_CANONICAL_GENESIS"))
    else if cfg.mainnet && genesis.value != cfg.genesisHash then Err(InvalidScan("GENESIS_HASH_DISAGREEMENT"))
    else if tip.height == 0 then
      if genesis.value != tip.hash then Err(InvalidScan("TIP_GENESIS_DISAGREEMENT"))
      else
        var cursor :- ValidateCursor(api, tip);
        Ok(CommitPage(Batch(tip, []), cursor))
    else
      var page :- ScanFrom(cfg, api, 1);
      Ok(NormalPlan(page))
  }

  /** `reconcile_once`, or `reconcile_wallet_once` when `wallet` is set, up to the commit. */
  function Decide(cfg: Config, window: seq<Anchor>, cursor: Option<BlockRef>, search: Api, page: Api,
                  wallet: bool): Result<Plan, ScanError> {
    match cursor
    case None =>
      if wallet then BootstrapPlan(cfg, page)
      else
        var first :- ScanFrom(cfg, page, 0);
        Ok(NormalPlan(first))
    case Some(anchor) =>
      match ValidateCursor(search, anchor)
      case Ok(_) =>
        var next :- ScanNext(cfg, page, anchor);
        Ok(NormalPlan(next))
      case Err(ReorgDetected) => ReorgPlan(cfg, window, anchor, search, page)
      case Err(e) => Err(e)
  }

  // ----- one step against the durable state

  /** The state a plan asks the directory to write. */
  function PlannedState(st: WalletState, plan: Plan, maturity: nat): Result<WalletState, RestoreError> {
    match plan
    case Nothing => Ok(st)
    case CommitPage(batch, cursor) => Prepared(st, batch, cursor, None, maturity)
    case CommitReorg(anchor, batch, cursor) => Prepared(st, batch, cursor, Some(anchor), maturity)
  }

  datatype Step = Step(search: Api, page: Api, wallet: bool, written: bool)

  /** Whether a step changes the durable state, and into what: only a decided, prepared and
      written commit does. */
  function Committed(cfg: Config, st: WalletState, s: Step, maturity: nat): Option<WalletState> {
    match Decide(cfg, st.window, st.cursor, s.search, s.page, s.wallet)
    case Err(_) => None
    case Ok(Nothing) => None
    case Ok(plan) =>
      match PlannedState(st, plan, maturity)
      case Err(_) => None
      case Ok(next) => if s.written then Some(next.(generation := st.generation + 1)) else None
  }

  function After(cfg: Config, st: WalletState, s: Step, maturity: nat): WalletState {
    match Committed(cfg, st, s, maturity)
    case Some(next) => next
    case None => st
  }

  /** The durable state after every step of a run, in order. */
  function Run(cfg: Config, st: WalletState, steps: seq<Step>, maturity: nat): WalletState {
    if steps == [] then st
    else After(cfg, Run(cfg, st, steps[..|steps| - 1], maturity), steps[|steps| - 1], maturity)
  }
}
