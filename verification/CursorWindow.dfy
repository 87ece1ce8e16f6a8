/** What every durable state keeps no matter what Core answers: the retained window is
    contiguous and hash-linked and ends at the cursor anchor, and allocation floors never
    fall below an index once committed. */
module CursorWindow {
  import opened Wrappers
  import opened Blocks
  import opened BranchFacts
  import opened RecoverySpec
  import opened StraightScan
  import opened PageApplication
  import opened ScanAdapter

  // ----- allocation floors

  ghost predicate Rises(a: WalletState, b: WalletState) {
    && (forall d :: Floor(a.floors, d) <= Floor(b.floors, d))
    && a.nonReuseFloor <= b.nonReuseFloor
  }

  ghost predicate Covers(st: WalletState, r: Restored) {
    r.index <= Floor(st.floors, r.domain) && r.index <= st.nonReuseFloor
  }

  ghost predicate CoversAll(st: WalletState, list: seq<Restored>) {
    forall r :: r in list ==> Covers(st, r)
  }

  lemma MergeKeeps(st: WalletState, r: Restored, position: nat, spentAt: Option<nat>, tip: nat, maturity: nat)
    requires Merge(st, r, position, spentAt, tip, maturity).Ok?
    ensures var next := Merge(st, r, position, spentAt, tip, maturity).value;
            SameLedger(st, next) && Rises(st, next) && Covers(next, r)
  {
  }

  lemma {:induction false} MergeAllKeeps(st: WalletState, list: seq<Restored>, batch: Batch, reportSpends: bool,
                                         maturity: nat)
    requires MergeAll(st, list, batch, reportSpends, maturity).Ok?
    ensures var next := MergeAll(st, list, batch, reportSpends, maturity).value;
            SameLedger(st, next) && Rises(st, next) && CoversAll(next, list)
  {
    hide Merge, OutputAt, SpentAt, SameLedger, Rises, Covers, CoversAll;
    if list == [] {
      KeepsNothing(st);
    } else {
      var n := |list| - 1;
      MergeAllKeeps(st, list[..n], batch, reportSpends, maturity);
      var before := MergeAll(st, list[..n], batch, reportSpends, maturity).value;
      var site := OutputAt(batch.blocks, list[n].commitment).value;
      var spentAt := if reportSpends then SpentAt(batch.blocks, list[n].commitment) else None;
      MergeKeeps(before, list[n], site.output.position, spentAt, batch.tip.height, maturity);
      KeepsOneMore(st, before, MergeAll(st, list, batch, reportSpends, maturity).value, list);
    }
  }

  lemma KeepsNothing(st: WalletState)
    ensures SameLedger(st, st) && Rises(st, st) && CoversAll(st, [])
  {
  }

  lemma KeepsOneMore(a: WalletState, b: WalletState, c: WalletState, list: seq<Restored>)
    requires list != []
    requires SameLedger(a, b) && Rises(a, b) && CoversAll(b, list[..|list| - 1])
    requires SameLedger(b, c) && Rises(b, c) && Covers(c, list[|list| - 1])
    ensures SameLedger(a, c) && Rises(a, c) && CoversAll(c, list)
  {
    hide Floor;
    var n := |list| - 1;
    assert list == list[..n] + [list[n]];
    forall r | r in list ensures Covers(c, r) {
      assert r in list[..n] ==> Covers(b, r);
    }
  }

  lemma {:induction false} RecordBlocksKeeps(st: WalletState, page: seq<Block>)
    requires RecordBlocks(st, page).Ok?
    ensures var next := RecordBlocks(st, page).value;
            && next.floors == st.floors && next.nonReuseFloor == st.nonReuseFloor
            && next.cursor == st.cursor && next.generation == st.generation
  {
    if page != [] {
      RecordBlocksKeeps(st, page[..|page| - 1]);
    }
  }

  lemma RecordBlockWindow(before: WalletState, prior: seq<Commitment>, b: Block)
    requires AllBelow(before.window, b.height) && RecordBlock(before, prior, b).Ok?
    ensures RecordBlock(before, prior, b).value.window == before.window + [AnchorOf(b)]
  {
  }

  lemma {:induction false} RecordBlocksWindow(st: WalletState, page: seq<Block>, first: nat)
    requires Linked(page, first) && AllBelow(st.window, first) && RecordBlocks(st, page).Ok?
    ensures RecordBlocks(st, page).value.window == st.window + Anchors(page)
  {
    hide RecordBlock, ProofOnlyCount, SpentOn;
    if page == [] {
      assert st.window + Anchors(page) == st.window;
    } else {
      var n := |page| - 1;
      LinkedPrefix(page, first, n);
      RecordBlocksWindow(st, page[..n], first);
      var before := RecordBlocks(st, page[..n]).value;
      assert AllBelow(before.window, page[n].height);
      RecordBlockWindow(before, SpentOn(page[..n]), page[n]);
      assert Anchors(page) == Anchors(page[..n]) + [AnchorOf(page[n])];
      assert (st.window + Anchors(page[..n])) + [AnchorOf(page[n])] == st.window + Anchors(page);
    }
  }

  /** Whatever the page, a successful application keeps the cursor and covers every index it saw. */
  lemma ApplyBatchKeeps(st: WalletState, batch: Batch, maturity: nat)
    requires ApplyBatch(st, batch, maturity).Ok?
    ensures var next := ApplyBatch(st, batch, maturity).value;
            && next.cursor == st.cursor && next.generation == st.generation && Rises(st, next)
            && CoversAll(next, CapsulesOn(batch.blocks)) && CoversAll(next, LegacyOn(batch.blocks))
  {
    MergeAllKeeps(st, CapsulesOn(batch.blocks), batch, true, maturity);
    var capsules := MergeAll(st, CapsulesOn(batch.blocks), batch, true, maturity).value;
    MergeAllKeeps(capsules, LegacyOn(batch.blocks), batch, false, maturity);
    var merged := MergeAll(capsules, LegacyOn(batch.blocks), batch, false, maturity).value;
    RecordBlocksKeeps(Migrate(merged).value, batch.blocks);
  }

  lemma ApplyBatchSorts(st: WalletState, batch: Batch, first: nat, maturity: nat)
    requires ApplyBatch(st, batch, maturity).Ok? && Linked(batch.blocks, first) && AllBelow(st.window, first)
    ensures ApplyBatch(st, batch, maturity).value.window == Prune(SortWindow(st.window + Anchors(batch.blocks)))
  {
    MergeAllKeeps(st, CapsulesOn(batch.blocks), batch, true, maturity);
    var capsules := MergeAll(st, CapsulesOn(batch.blocks), batch, true, maturity).value;
    MergeAllKeeps(capsules, LegacyOn(batch.blocks), batch, false, maturity);
    var merged := MergeAll(capsules, LegacyOn(batch.blocks), batch, false, maturity).value;
    RecordBlocksWindow(Migrate(merged).value, batch.blocks, first);
  }

  lemma WindowContinues(window: seq<Anchor>, blocks: seq<Block>, first: nat, base: nat)
    requires Linked(blocks, first) && Ascending(window, base) && first == base + |window|
    ensures AllBelow(window, first) && Ascending(window + Anchors(blocks), base)
  {
    hide ProofOnlyCount;
  }

  lemma ApplyBatchWindow(st: WalletState, batch: Batch, first: nat, base: nat, maturity: nat)
    requires ApplyBatch(st, batch, maturity).Ok? && Linked(batch.blocks, first)
    requires Ascending(st.window, base) && first == base + |st.window|
    ensures var next := ApplyBatch(st, batch, maturity).value;
            var whole := st.window + Anchors(batch.blocks);
            next.window == whole[LowIndex(|whole|)..]
  {
    hide ApplyBatch, Linked, SortWindow, Prune, Ascending, Anchors, AllBelow;
    WindowContinues(st.window, batch.blocks, first, base);
    ApplyBatchSorts(st, batch, first, maturity);
    var whole := st.window + Anchors(batch.blocks);
    SortIdentity(whole, base);
    PruneSuffix(whole, base);
  }

  // ----- the cursor and the window

  ghost predicate EndsAt(window: seq<Anchor>, a: BlockRef) {
    window != [] && window[|window| - 1].height == a.height && window[|window| - 1].hash == a.hash
  }

  /** Contiguous, hash-linked, and ending at the cursor anchor, or empty below a genesis anchor. */
  ghost predicate Agrees(window: seq<Anchor>, cursor: Option<BlockRef>) {
    && WindowLinked(window)
    && match cursor
       case None => window == []
       case Some(a) => EndsAt(window, a) || (window == [] && a.height == 0)
  }

  ghost predicate CursorAgrees(st: WalletState) {
    Agrees(st.window, st.cursor)
  }

  lemma {:induction false} LinkedAscending(window: seq<Anchor>, i: nat)
    requires WindowLinked(window) && i < |window|
    ensures window[i].height == window[0].height + i
  {
    if i > 0 {
      assert Follows(window, i);
      LinkedAscending(window, i - 1);
    }
  }

  lemma WindowAscends(window: seq<Anchor>)
    requires WindowLinked(window) && window != []
    ensures Ascending(window, window[0].height)
  {
    forall i | 0 <= i < |window| ensures window[i].height == window[0].height + i {
      LinkedAscending(window, i);
    }
  }

  /** A page accepted above `start` is linked there, and its cursor is its last block. */
  lemma PageShape(cfg: Config, api: Api, result: ScanResult, start: nat, anchor: Option<BlockRef>)
    requires ValidatePage(cfg, api, result, start, anchor).Ok?
    ensures var page := ValidatePage(cfg, api, result, start, anchor).value;
            && Linked(page.batch.blocks, start) && |page.batch.blocks| <= cfg.maximumBatch
            && (page.batch.blocks != [] ==> page.cursor == Some(RefOf(page.batch.blocks[|page.batch.blocks| - 1])))
            && (page.batch.blocks == [] && page.cursor.Some? ==> start == 0 && page.cursor.value.height == 0)
  {
    var previous := if start == 0 then ZERO_HASH
                    else if anchor.Some? then anchor.value.hash
                    else if api.hashAt(start - 1).Ok? && api.hashAt(start - 1).value.Some?
                        then api.hashAt(start - 1).value.value
                    else ZERO_HASH;
    CheckBlocksIff(result.blocks, start, previous);
  }

  /** A found anchor is a retained block below the invalid height. */
  lemma {:induction false} SafeAnchorRetained(window: seq<Anchor>, api: Api, lowest: nat, upper: nat)
    requires SafeAnchor(window, api, lowest, upper).Ok?
    ensures var a := SafeAnchor(window, api, lowest, upper).value;
            lowest <= a.height < upper && CommittedHash(window, a.height) == Some(a.hash)
  {
    var height := upper - 1;
    var core := api.hashAt(height).value;
    var local := CommittedHash(window, height);
    if !(local.Some? && core.Some? && local.value == core.value && core.value != ZERO_HASH) {
      SafeAnchorRetained(window, api, lowest, height);
    }
  }

  /** A page on top of a window that ends where the page starts leaves a window ending at the cursor. */
  lemma WindowEnd(window: seq<Anchor>, blocks: seq<Block>, cursor: BlockRef)
    requires blocks != [] ==> cursor == RefOf(blocks[|blocks| - 1])
    requires blocks == [] ==> EndsAt(window, cursor) || (window == [] && cursor.height == 0)
    ensures var whole := window + Anchors(blocks);
            var w := whole[LowIndex(|whole|)..];
            EndsAt(w, cursor) || (w == [] && cursor.height == 0)
  {
    var whole := window + Anchors(blocks);
    if whole != [] {
      var w := whole[LowIndex(|whole|)..];
      assert w[|w| - 1] == whole[|whole| - 1];
    }
  }

  lemma WindowAfter(st: WalletState, batch: Batch, first: nat, cursor: BlockRef, maturity: nat)
    requires ApplyBatch(st, batch, maturity).Ok? && Linked(batch.blocks, first)
    requires WindowLinked(st.window)
    requires st.window != [] ==> first == st.window[|st.window| - 1].height + 1
    requires batch.blocks != [] ==> cursor == RefOf(batch.blocks[|batch.blocks| - 1])
    requires batch.blocks == [] ==> EndsAt(st.window, cursor) || (st.window == [] && cursor.height == 0)
    ensures var w := ApplyBatch(st, batch, maturity).value.window;
            EndsAt(w, cursor) || (w == [] && cursor.height == 0)
  {
    WindowEnd(st.window, batch.blocks, cursor);
    if st.window == [] {
      ApplyBatchWindow(st, batch, first, first, maturity);
    } else {
      WindowAscends(st.window);
      ApplyBatchWindow(st, batch, first, st.window[0].height, maturity);
    }
  }

  lemma RewindWindow(st: WalletState, anchor: BlockRef, tip: nat)
    requires WindowLinked(st.window) && CommittedHash(st.window, anchor.height) == Some(anchor.hash)
    requires Rewind(st, anchor.height, tip).Ok?
    ensures var next := Rewind(st, anchor.height, tip).value;
            && WindowLinked(next.window) && EndsAt(next.window, anchor)
            && next.floors == st.floors && next.nonReuseFloor == st.nonReuseFloor
            && next.cursor == st.cursor && next.generation == st.generation
  {
    WindowAscends(st.window);
    KeepUpToPrefix(st.window, anchor.height, st.window[0].height);
    var i := FindAnchor(st.window, anchor.height).value;
    var cut := Cut(st.window, anchor.height, st.window[0].height);
    assert cut == i + 1;
    forall j | 0 < j < cut ensures Follows(st.window[..cut], j) {
      assert Follows(st.window, j);
    }
    assert st.window[..cut][|st.window[..cut]| - 1] == st.window[i];
  }

  /** A normal page starts right above the window; an empty one only bootstraps at genesis. */
  ghost predicate PageAbove(window: seq<Anchor>, batch: Batch, cursor: BlockRef, first: nat) {
    && |batch.blocks| <= MAX_BATCH_BLOCKS
    && Linked(batch.blocks, first)
    && (window != [] ==> first == window[|window| - 1].height + 1)
    && (batch.blocks != [] ==> cursor == RefOf(batch.blocks[|batch.blocks| - 1]))
    && (batch.blocks == [] ==> window == [] && cursor.height == 0)
  }

  /** A replacement page starts right above a retained anchor. */
  ghost predicate PageReplaces(window: seq<Anchor>, anchor: BlockRef, batch: Batch, cursor: BlockRef) {
    && |batch.blocks| <= MAX_BATCH_BLOCKS
    && CommittedHash(window, anchor.height) == Some(anchor.hash)
    && Linked(batch.blocks, anchor.height + 1)
    && (batch.blocks != [] ==> cursor == RefOf(batch.blocks[|batch.blocks| - 1]))
    && (batch.blocks == [] ==> cursor == anchor)
  }

  lemma BootstrapShape(cfg: Config, api: Api)
    requires BootstrapPlan(cfg, api).Ok? && BootstrapPlan(cfg, api).value.CommitPage?
    ensures var plan := BootstrapPlan(cfg, api).value; PageAbove([], plan.batch, plan.cursor, 1)
  {
    if CurrentTip(api).value.height != 0 {
      PageShape(cfg, api, api.scanFrom(1, cfg.maximumBatch).value, 1, None);
    }
  }

  lemma NormalShape(cfg: Config, window: seq<Anchor>, a: BlockRef, api: Api)
    requires ScanNext(cfg, api, a).Ok? && ScanNext(cfg, api, a).value.cursor.Some?
    requires EndsAt(window, a) || (window == [] && a.height == 0)
    ensures var page := ScanNext(cfg, api, a).value; PageAbove(window, page.batch, page.cursor.value, a.height + 1)
  {
    PageShape(cfg, api, api.scanNext(a, cfg.maximumBatch).value, a.height + 1, Some(a));
  }

  lemma ReorgShape(cfg: Config, window: seq<Anchor>, a: BlockRef, search: Api, api: Api)
    requires ReorgPlan(cfg, window, a, search, api).Ok?
    ensures var plan := ReorgPlan(cfg, window, a, search, api).value;
            plan.CommitReorg? && PageReplaces(window, plan.anchor, plan.batch, plan.cursor)
  {
    hide ValidatePage, Linked, CommittedHash, SafeAnchor;
    var lowest := SaturatingSub(a.height, cfg.maximumDepth);
    SafeAnchorRetained(window, search, lowest, a.height);
    var anchor := SafeAnchor(window, search, lowest, a.height).value;
    PageShape(cfg, api, api.scanFrom(anchor.height + 1, cfg.maximumBatch).value, anchor.height + 1, None);
  }

  /** The height at which a decided normal page starts. */
  ghost function PageStart(st: WalletState, s: Step): nat {
    match st.cursor
    case None => if s.wallet then 1 else 0
    case Some(a) => a.height + 1
  }

  /** What is decided above an agreeing cursor and window: a page that continues the window, or one that replaces
      what follows a retained anchor. */
  lemma PlanShape(cfg: Config, st: WalletState, s: Step)
    requires CursorAgrees(st) && Decide(cfg, st.window, st.cursor, s.search, s.page, s.wallet).Ok?
    ensures match Decide(cfg, st.window, st.cursor, s.search, s.page, s.wallet).value
            case Nothing => true
            case CommitPage(batch, cursor) => PageAbove(st.window, batch, cursor, PageStart(st, s))
            case CommitReorg(anchor, batch, cursor) => PageReplaces(st.window, anchor, batch, cursor)
  {
    var plan := Decide(cfg, st.window, st.cursor, s.search, s.page, s.wallet).value;
    match st.cursor
    case None =>
      if plan.CommitPage? {
        if s.wallet {
          BootstrapShape(cfg, s.page);
        } else {
          PageShape(cfg, s.page, s.page.scanFrom(0, cfg.maximumBatch).value, 0, None);
        }
      }
    case Some(a) =>
      if ValidateCursor(s.search, a).Ok? {
        if plan.CommitPage? {
          NormalShape(cfg, st.window, a, s.page);
        }
      } else {
        ReorgShape(cfg, st.window, a, s.search, s.page);
      }
  }

  /** What a planned commit rests on: a tip and a cursor that Core has confirmed, and at most 1,024 blocks. */
  ghost predicate Confirmed(api: Api, batch: Batch, cursor: BlockRef) {
    && batch.tip.hash != ZERO_HASH && api.hashAt(batch.tip.height) == Ok(Some(batch.tip.hash))
    && cursor.hash != ZERO_HASH && api.validates(cursor) == Ok(true)
    && api.tip.Ok? && api.tip.value.hash != ZERO_HASH
    && |batch.blocks| <= 1_024
  }

  lemma ScanConfirmed(cfg: Config, api: Api, start: nat)
    requires ScanFrom(cfg, api, start).Ok?
    ensures var page := ScanFrom(cfg, api, start).value;
      && page.batch.tip.hash != ZERO_HASH && api.hashAt(page.batch.tip.height) == Ok(Some(page.batch.tip.hash))
      && api.tip.Ok? && api.tip.value.hash != ZERO_HASH
      && (page.cursor.Some? ==> Confirmed(api, page.batch, page.cursor.value))
      && (start > 0 ==> (page.cursor.None? <==> page.batch.blocks == []))
      && (page.batch.blocks != [] && start > 0 ==> api.hashAt(start - 1) == Ok(Some(page.batch.blocks[0].previous)))
  {
    hide ValidatePage, CheckBlocks;
    var result := api.scanFrom(start, cfg.maximumBatch).value;
    var page := ScanFrom(cfg, api, start).value;
    PageAcceptedIff(cfg, api, result, start, None, page);
  }

  lemma NextConfirmed(cfg: Config, api: Api, a: BlockRef)
    requires ScanNext(cfg, api, a).Ok? && ScanNext(cfg, api, a).value.cursor.Some?
    ensures var page := ScanNext(cfg, api, a).value;
      && Confirmed(api, page.batch, page.cursor.value) && api.validates(a) == Ok(true)
      && (page.batch.blocks != [] ==> page.batch.blocks[0].previous == a.hash)
  {
    hide ValidatePage, CheckBlocks;
    var result := api.scanNext(a, cfg.maximumBatch).value;
    var page := ScanNext(cfg, api, a).value;
    PageAcceptedIff(cfg, api, result, a.height + 1, Some(a), page);
  }

  /** Whatever Core answers, nothing is planned under a tip or a cursor Core has not confirmed; each page joins what
      Core, or the cursor, has below it; and on the main network a first page rests on the pinned genesis. */
  lemma PlanConfirmed(cfg: Config, window: seq<Anchor>, cursor: Option<BlockRef>, search: Api, page: Api, wallet: bool)
    requires Decide(cfg, window, cursor, search, page, wallet).Ok?
    ensures match Decide(cfg, window, cursor, search, page, wallet).value
      case Nothing => true
      case CommitPage(batch, next) =>
        && Confirmed(page, batch, next)
        && (cursor.Some? && batch.blocks != [] ==> batch.blocks[0].previous == cursor.value.hash)
        && (cursor.None? && wallet && cfg.mainnet ==>
              && page.hashAt(0) == Ok(Some(cfg.genesisHash))
              && (batch.blocks != [] ==> batch.blocks[0].previous == cfg.genesisHash))
      case CommitReorg(anchor, batch, next) =>
        && Confirmed(page, batch, next)
        && (batch.blocks != [] ==> page.hashAt(anchor.height) == Ok(Some(batch.blocks[0].previous)))
        && (batch.blocks == [] ==> next == anchor == batch.tip)
  {
    hide ScanFrom, ScanNext, SafeAnchor;
    match cursor
    case None =>
      if wallet {
        if CurrentTip(page).value.height != 0 {
          ScanConfirmed(cfg, page, 1);
        }
      } else {
        ScanConfirmed(cfg, page, 0);
      }
    case Some(a) =>
      if ValidateCursor(search, a).Ok? {
        if ScanNext(cfg, page, a).value.cursor.Some? {
          NextConfirmed(cfg, page, a);
        }
      } else {
        var anchor := SafeAnchor(window, search, SaturatingSub(a.height, cfg.maximumDepth), a.height).value;
        ScanConfirmed(cfg, page, anchor.height + 1);
      }
  }

  /** A cursor check that fails for any other reason than a reorg ends the step with that error. */
  lemma OtherErrorsPass(cfg: Config, window: seq<Anchor>, a: BlockRef, search: Api, page: Api, wallet: bool)
    requires ValidateCursor(search, a).Err? && ValidateCursor(search, a).error != ReorgDetected
    ensures Decide(cfg, window, Some(a), search, page, wallet) == Err(ValidateCursor(search, a).error)
  {
  }

  /** Every step, whatever Core answers and whether or not it commits, keeps cursor and window in agreement. */
  lemma StepAgrees(cfg: Config, st: WalletState, s: Step, maturity: nat)
    requires CursorAgrees(st)
    ensures CursorAgrees(After(cfg, st, s, maturity))
    ensures Rises(st, After(cfg, st, s, maturity))
  {
    hide ApplyBatch, Rewind, ScanFrom, ScanNext, ReorgPlan, BootstrapPlan, ValidateCursor, Linked, CommittedHash;
    if Committed(cfg, st, s, maturity).Some? {
      PlanShape(cfg, st, s);
      var plan := Decide(cfg, st.window, st.cursor, s.search, s.page, s.wallet).value;
      match plan
      case CommitPage(batch, cursor) =>
        ApplyBatchKeeps(st, batch, maturity);
        WindowAfter(st, batch, PageStart(st, s), cursor, maturity);
      case CommitReorg(anchor, batch, cursor) =>
        RewindWindow(st, anchor, batch.tip.height);
        var base := Rewind(st, anchor.height, batch.tip.height).value;
        ApplyBatchKeeps(base, batch, maturity);
        WindowAfter(base, batch, anchor.height + 1, cursor, maturity);
    }
  }

  // ----- over whole runs

  /** Cursor and window agree in every durable state of every run, against an arbitrary Core. */
  lemma {:induction false} RunAgrees(cfg: Config, st: WalletState, steps: seq<Step>, maturity: nat)
    requires CursorAgrees(st)
    ensures CursorAgrees(Run(cfg, st, steps, maturity))
  {
    if steps != [] {
      var n := |steps| - 1;
      RunAgrees(cfg, st, steps[..n], maturity);
      StepAgrees(cfg, Run(cfg, st, steps[..n], maturity), steps[n], maturity);
    }
  }

  /** The page a step commits, if it commits one. */
  function CommittedBlocks(cfg: Config, st: WalletState, s: Step, maturity: nat): seq<Block> {
    if Committed(cfg, st, s, maturity).None? then []
    else
      match Decide(cfg, st.window, st.cursor, s.search, s.page, s.wallet)
      case Ok(CommitPage(batch, _)) => batch.blocks
      case Ok(CommitReorg(_, batch, _)) => batch.blocks
      case _ => []
  }

  lemma StepCovers(cfg: Config, st: WalletState, s: Step, maturity: nat)
    requires CursorAgrees(st)
    ensures CoversAll(After(cfg, st, s, maturity), CapsulesOn(CommittedBlocks(cfg, st, s, maturity)))
    ensures CoversAll(After(cfg, st, s, maturity), LegacyOn(CommittedBlocks(cfg, st, s, maturity)))
  {
    hide ApplyBatch, Rewind, Decide, Validates, CoversAll, Rises, CapsulesOn, LegacyOn, CursorAgrees;
    if Committed(cfg, st, s, maturity).None? {
      CoversNothing(st);
    } else {
      var plan := Decide(cfg, st.window, st.cursor, s.search, s.page, s.wallet).value;
      match plan
      case CommitPage(batch, cursor) =>
        ApplyBatchKeeps(st, batch, maturity);
        CoversRelabelled(ApplyBatch(st, batch, maturity).value, After(cfg, st, s, maturity), batch.blocks);
      case CommitReorg(anchor, batch, cursor) =>
        var base := Rewind(st, anchor.height, batch.tip.height).value;
        ApplyBatchKeeps(base, batch, maturity);
        CoversRelabelled(ApplyBatch(base, batch, maturity).value, After(cfg, st, s, maturity), batch.blocks);
    }
  }

  lemma CoversNothing(st: WalletState)
    ensures CoversAll(st, CapsulesOn([])) && CoversAll(st, LegacyOn([]))
  {
  }

  /** Only the floors matter. */
  lemma CoversRelabelled(a: WalletState, b: WalletState, blocks: seq<Block>)
    requires a.floors == b.floors && a.nonReuseFloor == b.nonReuseFloor
    requires CoversAll(a, CapsulesOn(blocks)) && CoversAll(a, LegacyOn(blocks))
    ensures CoversAll(b, CapsulesOn(blocks)) && CoversAll(b, LegacyOn(blocks))
  {
    hide CapsulesOn, LegacyOn, Floor;
  }

  lemma CoversRise(a: WalletState, b: WalletState, list: seq<Restored>)
    requires Rises(a, b) && CoversAll(a, list)
    ensures CoversAll(b, list)
  {
    forall r | r in list ensures Covers(b, r) {
      assert Floor(a.floors, r.domain) <= Floor(b.floors, r.domain);
    }
  }

  /** Allocation floors never forget: at the end of a run every floor is at least what it was after
      any earlier step, and at least every index that step committed, rewound since or not. */
  lemma {:induction false} FloorsNeverForget(cfg: Config, st: WalletState, steps: seq<Step>, k: nat, maturity: nat)
    requires CursorAgrees(st) && k < |steps|
    ensures Rises(Run(cfg, st, steps[..k], maturity), Run(cfg, st, steps, maturity))
    ensures var blocks := CommittedBlocks(cfg, Run(cfg, st, steps[..k], maturity), steps[k], maturity);
            && CoversAll(Run(cfg, st, steps, maturity), CapsulesOn(blocks))
            && CoversAll(Run(cfg, st, steps, maturity), LegacyOn(blocks))
  {
    hide After, CommittedBlocks, CoversAll, Rises, CursorAgrees, CapsulesOn, LegacyOn;
    var n := |steps| - 1;
    var before := Run(cfg, st, steps[..n], maturity);
    var after := After(cfg, before, steps[n], maturity);
    assert after == Run(cfg, st, steps, maturity);
    RunAgrees(cfg, st, steps[..n], maturity);
    StepAgrees(cfg, before, steps[n], maturity);
    if k == n {
      StepCovers(cfg, before, steps[n], maturity);
    } else {
      assert steps[..n][..k] == steps[..k] && steps[..n][k] == steps[k];
      FloorsNeverForget(cfg, st, steps[..n], k, maturity);
      var early := Run(cfg, st, steps[..k], maturity);
      RisesTransitive(early, before, after);
      var blocks := CommittedBlocks(cfg, early, steps[k], maturity);
      CoversRise(before, after, CapsulesOn(blocks));
      CoversRise(before, after, LegacyOn(blocks));
    }
  }

  lemma RisesTransitive(a: WalletState, b: WalletState, c: WalletState)
    requires Rises(a, b) && Rises(b, c)
    ensures Rises(a, c)
  {
    hide Floor;
    forall d ensures Floor(a.floors, d) <= Floor(c.floors, d) {
      assert Floor(a.floors, d) <= Floor(b.floors, d) <= Floor(c.floors, d);
    }
  }
}
