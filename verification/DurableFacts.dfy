/** What holds of every durable state and every page whatever Core serves: validated shapes, exact allocation floors,
    refused double spends and conflicting blocks. */
module DurableFacts {
  import opened Wrappers
  import opened Blocks
  import opened BranchFacts
  import opened RecoverySpec
  import opened PageApplication
  import opened ScanAdapter
  import opened CursorWindow

  // ----- validated shapes

  lemma StepValidates(cfg: Config, st: WalletState, s: Step, maturity: nat)
    requires Validates(st)
    ensures Validates(After(cfg, st, s, maturity))
  {
    hide ApplyBatch, Rewind, Decide, WindowLinked;
  }

  lemma Owners(st: WalletState)
    requires Validates(st)
    ensures forall k :: 0 <= k < |st.secrets| ==> Owned(st, st.secrets[k].outputId)
    ensures forall k :: 0 <= k < |st.metadata| ==> Owned(st, st.metadata[k].outputId)
  {
    forall k | 0 <= k < |st.secrets| ensures Owned(st, st.secrets[k].outputId) {
      assert HasOutput(st.outputs, st.secrets[k].outputId);
    }
    forall k | 0 <= k < |st.metadata| ensures Owned(st, st.metadata[k].outputId) {
      assert HasOutput(st.outputs, st.metadata[k].outputId);
    }
  }

  /** Some record has this id. */
  ghost predicate Owned(st: WalletState, id: nat) {
    exists i :: 0 <= i < |st.outputs| && st.outputs[i].id == id
  }

  /** In every durable state of every run, against an arbitrary Core: no commitment is held twice, secrets and metadata
      belong to records and metadata to one each, coinbase metadata is that of the coinbase domain, no block hash is
      missing, the window is linked, and the counters cover it. */
  lemma {:induction false} RunValidates(cfg: Config, st: WalletState, steps: seq<Step>, maturity: nat)
    requires Validates(st)
    ensures Validates(Run(cfg, st, steps, maturity))
    ensures var end := Run(cfg, st, steps, maturity);
      && (forall i, j :: 0 <= i < j < |end.outputs| && end.outputs[i].commitment.Some? ==>
            end.outputs[i].commitment != end.outputs[j].commitment)
      && (forall k :: 0 <= k < |end.secrets| ==> Owned(end, end.secrets[k].outputId))
      && (forall k :: 0 <= k < |end.metadata| ==> Owned(end, end.metadata[k].outputId))
      && (forall i, j :: 0 <= i < j < |end.metadata| ==> end.metadata[i].outputId != end.metadata[j].outputId)
      && (forall k :: 0 <= k < |end.metadata| ==>
            (end.metadata[k].isCoinbase <==> end.metadata[k].domain == Coinbase)
                && end.metadata[k].blockHash != ZERO_HASH)
      && (forall i :: 0 < i < |end.window| ==> Follows(end.window, i))
      && (end.scannedBlocks != 0 ==> |end.window| <= end.scannedBlocks)
      && |end.outputs| <= 100_000 && |end.window| <= 100_000
  {
    hide After, Owned;
    if steps != [] {
      var n := |steps| - 1;
      RunValidates(cfg, st, steps[..n], maturity);
      StepValidates(cfg, Run(cfg, st, steps[..n], maturity), steps[n], maturity);
    }
    Owners(Run(cfg, st, steps, maturity));
  }

  // ----- exact floors

  /** The greater of a floor and the greatest index of a domain in a list. */
  function Highest(floor: nat, list: seq<Restored>, d: Domain): nat {
    if list == [] then floor
    else
      var n := |list| - 1;
      var rest := Highest(floor, list[..n], d);
      if list[n].domain == d then Max(rest, list[n].index) else rest
  }

  function HighestOfAll(floor: nat, list: seq<Restored>): nat {
    if list == [] then floor else Max(HighestOfAll(floor, list[..|list| - 1]), list[|list| - 1].index)
  }

  /** That it is the greatest: at least everything, and attained. */
  lemma {:induction false} HighestIsMaximum(floor: nat, list: seq<Restored>, d: Domain)
    ensures Highest(floor, list, d) >= floor
    ensures forall r :: r in list && r.domain == d ==> r.index <= Highest(floor, list, d)
    ensures Highest(floor, list, d) != floor ==>
      exists r :: r in list && r.domain == d && r.index == Highest(floor, list, d)
  {
    if list != [] {
      var n := |list| - 1;
      HighestIsMaximum(floor, list[..n], d);
      assert list == list[..n] + [list[n]];
      if Highest(floor, list, d) != floor && Highest(floor, list, d) == Highest(floor, list[..n], d) {
        var r :| r in list[..n] && r.domain == d && r.index == Highest(floor, list, d);
        assert r in list;
      } else if list[n].domain == d {
        assert list[n] in list;
      }
    }
  }

  lemma {:induction false} HighestAppend(floor: nat, a: seq<Restored>, b: seq<Restored>, d: Domain)
    ensures Highest(floor, a + b, d) == Highest(Highest(floor, a, d), b, d)
    ensures HighestOfAll(floor, a + b) == HighestOfAll(HighestOfAll(floor, a), b)
  {
    if b == [] {
      assert a + b == a;
    } else {
      var n := |b| - 1;
      HighestAppend(floor, a, b[..n], d);
      assert (a + b)[..|a + b| - 1] == a + b[..n];
    }
  }

  /** The floors of `next` are those of `st` raised to the indices of the list, and no further. */
  ghost predicate RaisedBy(st: WalletState, next: WalletState, list: seq<Restored>) {
    && (forall d :: Floor(next.floors, d) == Highest(Floor(st.floors, d), list, d))
    && next.nonReuseFloor == HighestOfAll(st.nonReuseFloor, list)
  }

  lemma RaisedNothing(st: WalletState, next: WalletState)
    requires st.floors == next.floors && st.nonReuseFloor == next.nonReuseFloor
    ensures RaisedBy(st, next, [])
  {
  }

  lemma RaisedAppend(a: WalletState, b: WalletState, c: WalletState, x: seq<Restored>, y: seq<Restored>)
    requires RaisedBy(a, b, x) && RaisedBy(b, c, y)
    ensures RaisedBy(a, c, x + y)
  {
    hide Floor, Highest, HighestOfAll;
    forall d ensures Floor(c.floors, d) == Highest(Floor(a.floors, d), x + y, d) {
      HighestAppend(Floor(a.floors, d), x, y, d);
    }
    HighestAppend(a.nonReuseFloor, x, y, Change);
  }

  lemma RaisedOnce(st: WalletState, r: Restored, position: nat, spentAt: Option<nat>, tip: nat, maturity: nat)
    requires Merge(st, r, position, spentAt, tip, maturity).Ok?
    ensures RaisedBy(st, Merge(st, r, position, spentAt, tip, maturity).value, [r])
  {
    hide FindOutput, FindSecret, FindMetadata, RecoveredState;
    var next := Merge(st, r, position, spentAt, tip, maturity).value;
    assert next.floors == RaiseFloor(st.floors, r.domain, r.index) && next.nonReuseFloor
        == Max(st.nonReuseFloor, r.index);
    assert [r][..0] == [];
    forall d ensures Floor(next.floors, d) == Highest(Floor(st.floors, d), [r], d) {
      assert Highest(Floor(st.floors, d), [], d) == Floor(st.floors, d);
    }
    assert HighestOfAll(st.nonReuseFloor, []) == st.nonReuseFloor;
  }

  lemma {:induction false} MergeAllRaises(st: WalletState, list: seq<Restored>, batch: Batch, reportSpends: bool,
                                          maturity: nat)
    requires MergeAll(st, list, batch, reportSpends, maturity).Ok?
    ensures RaisedBy(st, MergeAll(st, list, batch, reportSpends, maturity).value, list)
  {
    hide Merge, OutputAt, SpentAt, RaisedBy;
    if list == [] {
      RaisedNothing(st, st);
    } else {
      var n := |list| - 1;
      MergeAllRaises(st, list[..n], batch, reportSpends, maturity);
      var before := MergeAll(st, list[..n], batch, reportSpends, maturity).value;
      var site := OutputAt(batch.blocks, list[n].commitment).value;
      var spentAt := if reportSpends then SpentAt(batch.blocks, list[n].commitment) else None;
      RaisedOnce(before, list[n], site.output.position, spentAt, batch.tip.height, maturity);
      RaisedAppend(st, before, MergeAll(st, list, batch, reportSpends, maturity).value, list[..n], [list[n]]);
      assert list == list[..n] + [list[n]];
    }
  }

  /** Everything a page makes known to the wallet. */
  function FoundOn(blocks: seq<Block>): seq<Restored> {
    CapsulesOn(blocks) + LegacyOn(blocks)
  }

  lemma ApplyBatchRaises(st: WalletState, batch: Batch, maturity: nat)
    requires ApplyBatch(st, batch, maturity).Ok?
    ensures RaisedBy(st, ApplyBatch(st, batch, maturity).value, FoundOn(batch.blocks))
  {
    hide MergeAll, RecordBlocks, Refresh, RaisedBy, CapsulesOn, LegacyOn;
    var capsules := MergeAll(st, CapsulesOn(batch.blocks), batch, true, maturity).value;
    var merged := MergeAll(capsules, LegacyOn(batch.blocks), batch, false, maturity).value;
    var next := ApplyBatch(st, batch, maturity).value;
    MergeAllRaises(st, CapsulesOn(batch.blocks), batch, true, maturity);
    MergeAllRaises(capsules, LegacyOn(batch.blocks), batch, false, maturity);
    RecordBlocksKeeps(Migrate(merged).value, batch.blocks);
    RaisedAppend(st, capsules, merged, CapsulesOn(batch.blocks), LegacyOn(batch.blocks));
    RaisedNothing(merged, next);
    RaisedAppend(st, merged, next, FoundOn(batch.blocks), []);
    assert FoundOn(batch.blocks) + [] == FoundOn(batch.blocks);
  }

  lemma StepRaises(cfg: Config, st: WalletState, s: Step, maturity: nat)
    ensures RaisedBy(st, After(cfg, st, s, maturity), FoundOn(CommittedBlocks(cfg, st, s, maturity)))
  {
    hide ApplyBatch, Decide, Validates, RaisedBy, CapsulesOn, LegacyOn;
    if Committed(cfg, st, s, maturity).None? {
      RaisedNothing(st, st);
      assert FoundOn([]) == [] by { NothingFoundOn(); }
    } else {
      var next := After(cfg, st, s, maturity);
      match Decide(cfg, st.window, st.cursor, s.search, s.page, s.wallet).value
      case CommitPage(batch, _) =>
        ApplyBatchRaises(st, batch, maturity);
        SameFloors(st, st, ApplyBatch(st, batch, maturity).value, next, FoundOn(batch.blocks));
      case CommitReorg(anchor, batch, _) =>
        var base := Rewind(st, anchor.height, batch.tip.height).value;
        ApplyBatchRaises(base, batch, maturity);
        SameFloors(st, base, ApplyBatch(base, batch, maturity).value, next, FoundOn(batch.blocks));
    }
  }

  lemma NothingFoundOn()
    ensures FoundOn([]) == []
  {
  }

  lemma SameFloors(st: WalletState, base: WalletState, applied: WalletState, next: WalletState, list: seq<Restored>)
    requires base.floors == st.floors && base.nonReuseFloor == st.nonReuseFloor
    requires applied.floors == next.floors && applied.nonReuseFloor == next.nonReuseFloor
      && RaisedBy(base, applied, list)
    ensures RaisedBy(st, next, list)
  {
  }

  /** Everything the steps of a run have committed, in order, rewound since or not. */
  function EverCommitted(cfg: Config, st: WalletState, steps: seq<Step>, maturity: nat): seq<Restored> {
    if steps == [] then []
    else
      var n := |steps| - 1;
      var before := Run(cfg, st, steps[..n], maturity);
      EverCommitted(cfg, st, steps[..n], maturity) + FoundOn(CommittedBlocks(cfg, before, steps[n], maturity))
  }

  /** EXACT FLOORS. At the end of every run, against an arbitrary Core, each domain floor is exactly the greatest of
      what
      it was and the indices of that domain ever committed, and the non-reuse floor that of all indices. */
  lemma {:induction false} FloorsExact(cfg: Config, st: WalletState, steps: seq<Step>, maturity: nat)
    ensures RaisedBy(st, Run(cfg, st, steps, maturity), EverCommitted(cfg, st, steps, maturity))
  {
    hide After, CommittedBlocks, RaisedBy, FoundOn;
    if steps == [] {
      RaisedNothing(st, st);
    } else {
      var n := |steps| - 1;
      var before := Run(cfg, st, steps[..n], maturity);
      FloorsExact(cfg, st, steps[..n], maturity);
      StepRaises(cfg, before, steps[n], maturity);
      RaisedAppend(st, before, Run(cfg, st, steps, maturity), EverCommitted(cfg, st, steps[..n], maturity),
                   FoundOn(CommittedBlocks(cfg, before, steps[n], maturity)));
    }
  }

  // ----- blocks and spends of any page

  /** Recording a block once: a new height adds its anchor and its totals, within 64 bits; the same block again changes
      nothing; another block at the same height is a conflict. */
  lemma AnchorOnce(st: WalletState, b: Block, other: Block)
    requires RecordAnchor(st, b).Ok?
    ensures var next := RecordAnchor(st, b).value;
      && FindAnchor(next.window, b.height).Some?
      && next.window[FindAnchor(next.window, b.height).value].hash == b.hash
      && RecordAnchor(next, b) == Ok(next)
      && (FindAnchor(st.window, b.height).None? ==>
            && next.window == st.window + [AnchorOf(b)]
            && next.scannedBlocks == st.scannedBlocks + 1 <= U64_MAX
            && next.scannedOutputs == st.scannedOutputs + |b.outputs| <= U64_MAX
            && next.legacyOutputs == st.legacyOutputs + ProofOnlyCount(b.outputs) <= U64_MAX)
      && (other.height == b.height && other.hash != b.hash && ProofOnlyCount(other.outputs) <= U32_MAX ==>
            RecordAnchor(next, other) == Err(ConflictingOutput))
  {
    hide ProofOnlyCount;
    if FindAnchor(st.window, b.height).None? {
      assert (st.window + [AnchorOf(b)])[..|st.window|] == st.window;
    }
  }

  lemma {:induction false} SpendsDistinct(outputs: seq<OutputRecord>, prior: seq<Commitment>, inputs: seq<Commitment>,
                                          height: nat)
    requires SpendInputs(outputs, prior, inputs, height).Ok?
    ensures NoRepeat(inputs) && forall c :: c in inputs ==> c !in prior
  {
    hide SpendOne;
    if inputs != [] {
      SpendsDistinct(outputs, prior, inputs[..|inputs| - 1], height);
    }
  }

  lemma NoRepeatAppend(a: seq<Commitment>, b: seq<Commitment>)
    requires NoRepeat(a) && NoRepeat(b) && forall c :: c in b ==> c !in a
    ensures NoRepeat(a + b)
  {
    forall i, j | 0 <= i < j < |a + b| ensures (a + b)[i] != (a + b)[j] {
      if i < |a| <= j {
        assert a[i] in a && b[j - |a|] in b;
      }
    }
  }

  /** A page that spends the same commitment twice is refused, whoever owns it. */
  lemma {:induction false} DoubleSpendRefused(st: WalletState, page: seq<Block>)
    requires RecordBlocks(st, page).Ok?
    ensures NoRepeat(SpentOn(page))
  {
    hide RecordAnchor, SpendInputs;
    if page != [] {
      var n := |page| - 1;
      DoubleSpendRefused(st, page[..n]);
      var before := RecordBlocks(st, page[..n]).value;
      var anchored := RecordAnchor(before, page[n]).value;
      SpendsDistinct(anchored.outputs, SpentOn(page[..n]), page[n].inputs, page[n].height);
      assert SpentOn(page) == SpentOn(page[..n]) + page[n].inputs;
      NoRepeatAppend(SpentOn(page[..n]), page[n].inputs);
    }
  }

  /** An output spent at one height is not spent again at another. */
  lemma SpentStays(outputs: seq<OutputRecord>, c: Commitment, height: nat)
    ensures SpendOne(outputs, c, height).Err? <==>
      var i := FindOutput(outputs, c);
      i.Some? && outputs[i.value].state.Spent? && outputs[i.value].state.height != height
    ensures SpendOne(outputs, c, height).Ok? ==>
      var next := SpendOne(outputs, c, height).value;
      && |next| == |outputs|
      && forall k :: 0 <= k < |outputs| ==>
           next[k] == if FindOutput(outputs, c) == Some(k) then MarkSpent(outputs[k], Some(height)) else outputs[k]
  {
    hide FindOutput;
  }
}
