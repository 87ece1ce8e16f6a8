/** The recovery state updated in place, operation by operation, and the restore sink
    that commits it. Every method is proved against `RecoverySpec`. */
module RecoveryWallet {
  import opened Wrappers
  import opened Blocks
  import opened RecoverySpec
  import opened SinkMemory

  // ----- a failed prefix is a failed whole

  lemma {:induction false} MergeAllFails(st: WalletState, list: seq<Restored>, k: nat, batch: Batch,
                                         reportSpends: bool, maturity: nat)
    requires k <= |list| && MergeAll(st, list[..k], batch, reportSpends, maturity).Err?
    ensures MergeAll(st, list, batch, reportSpends, maturity) == MergeAll(st, list[..k], batch, reportSpends, maturity)
  {
    if k == |list| {
      assert list[..k] == list;
    } else {
      assert list[..|list| - 1][..k] == list[..k];
      MergeAllFails(st, list[..|list| - 1], k, batch, reportSpends, maturity);
    }
  }

  lemma {:induction false} RefreshFails(outputs: seq<OutputRecord>, k: nat, metadata: seq<OutputMetadata>, tip: nat,
                                        maturity: nat)
    requires k <= |outputs| && Refresh(outputs[..k], metadata, tip, maturity).Err?
    ensures Refresh(outputs, metadata, tip, maturity) == Err(Refresh(outputs[..k], metadata, tip, maturity).error)
  {
    if k == |outputs| {
      assert outputs[..k] == outputs;
    } else {
      assert outputs[..|outputs| - 1][..k] == outputs[..k];
      RefreshFails(outputs[..|outputs| - 1], k, metadata, tip, maturity);
    }
  }

  lemma {:induction false} SpendInputsFails(outputs: seq<OutputRecord>, prior: seq<Commitment>,
                                            inputs: seq<Commitment>, k: nat, height: nat)
    requires k <= |inputs| && SpendInputs(outputs, prior, inputs[..k], height).Err?
    ensures SpendInputs(outputs, prior, inputs, height) == SpendInputs(outputs, prior, inputs[..k], height)
  {
    if k == |inputs| {
      assert inputs[..k] == inputs;
    } else {
      assert inputs[..|inputs| - 1][..k] == inputs[..k];
      SpendInputsFails(outputs, prior, inputs[..|inputs| - 1], k, height);
    }
  }

  lemma {:induction false} RecordBlocksFails(st: WalletState, blocks: seq<Block>, k: nat)
    requires k <= |blocks| && RecordBlocks(st, blocks[..k]).Err?
    ensures RecordBlocks(st, blocks) == RecordBlocks(st, blocks[..k])
  {
    if k == |blocks| {
      assert blocks[..k] == blocks;
    } else {
      assert blocks[..|blocks| - 1][..k] == blocks[..k];
      RecordBlocksFails(st, blocks[..|blocks| - 1], k);
    }
  }

  lemma {:induction false} SumOutputsGrows(window: seq<Anchor>, k: nat)
    requires k <= |window|
    ensures SumOutputs(window[..k]) <= SumOutputs(window)
  {
    if k == |window| {
      assert window[..k] == window;
    } else {
      assert window[..|window| - 1][..k] == window[..k];
      SumOutputsGrows(window[..|window| - 1], k);
    }
  }

  class WalletRecord {
    var outputs: seq<OutputRecord>
    var secrets: seq<OutputSecret>
    var metadata: seq<OutputMetadata>
    var nextId: nat
    var window: seq<Anchor>
    var scannedBlocks: nat
    var scannedOutputs: nat
    var legacyOutputs: nat
    var floors: Floors
    var nonReuseFloor: nat
    var cursor: Option<BlockRef>
    var generation: nat

    function Snapshot(): WalletState
      reads this
    {
      WalletState(outputs, secrets, metadata, nextId, window, scannedBlocks, scannedOutputs, legacyOutputs,
                  floors, nonReuseFloor, cursor, generation)
    }

    constructor (st: WalletState)
      ensures Snapshot() == st
    {
      outputs, secrets, metadata, nextId := st.outputs, st.secrets, st.metadata, st.nextId;
      window, scannedBlocks, scannedOutputs, legacyOutputs := st.window, st.scannedBlocks, st.scannedOutputs,
          st.legacyOutputs;
      floors, nonReuseFloor, cursor, generation := st.floors, st.nonReuseFloor, st.cursor, st.generation;
    }

    method MergeRestoredOutput(r: Restored, position: nat, spentAt: Option<nat>, tip: nat, maturity: nat)
      returns (res: Result<(), RestoreError>)
      modifies this
      ensures res.Ok? ==> Merge(old(Snapshot()), r, position, spentAt, tip, maturity) == Ok(Snapshot())
      ensures res.Err? ==> Merge(old(Snapshot()), r, position, spentAt, tip, maturity) == Err(res.error)
    {
      hide FindOutput, RaiseFloor, MergeExisting, MergeNew, RecoveredState;
      floors := RaiseFloor(floors, r.domain, r.index);
      nonReuseFloor := Max(nonReuseFloor, r.index);
      var existing := FindOutput(outputs, r.commitment);
      if existing.Some? {
        res := MergeKnown(existing.value, r, position, spentAt, tip, maturity);
        return;
      }
      var state := RecoveredState(r, spentAt, tip, maturity);
      if state.Err? {
        return Err(state.error);
      }
      AddOutput(r, position, state.value);
      res := Ok(());
    }

    /** A record with this commitment: the same recovery again, or a pending record to adopt. */
    method MergeKnown(i: nat, r: Restored, position: nat, spentAt: Option<nat>, tip: nat, maturity: nat)
      returns (res: Result<(), RestoreError>)
      requires i < |outputs|
      modifies this
      ensures res.Ok? ==> MergeExisting(old(Snapshot()), i, r, position, spentAt, tip, maturity) == Ok(Snapshot())
      ensures res.Err? ==> MergeExisting(old(Snapshot()), i, r, position, spentAt, tip, maturity) == Err(res.error)
    {
      hide FindSecret, FindMetadata, RecoveredState;
      var record := outputs[i];
      var secret := FindSecret(secrets, record.id);
      if secret.None? {
        return Err(ConflictingOutput);
      }
      var blinding := secrets[secret.value].blinding;
      var known := FindMetadata(metadata, record.id);
      if known.Some? {
        var m := metadata[known.value];
        if || record.value != r.value || record.discovered != r.height || m.account != r.account || m.index != r.index
           || m.domain != r.domain || m.blockHash != r.blockHash || m.position != position || blinding != r.blinding
        {
          return Err(ConflictingOutput);
        }
        return Ok(());
      }
      if || record.value != r.value || record.account != r.account || record.discovered != 0
         || record.reservedBy.Some? || record.state != PendingIncoming || blinding != r.blinding
      {
        return Err(ConflictingOutput);
      }
      var confirmed := RecoveredState(r, spentAt, tip, maturity);
      if confirmed.Err? {
        return Err(confirmed.error);
      }
      outputs := outputs[i := record.(discovered := r.height, state := confirmed.value)];
      metadata := metadata + [MetadataFor(record.id, r, position)];
      res := Ok(());
    }

    /** A new record under a fresh id. */
    method AddOutput(r: Restored, position: nat, state: OutputState)
      modifies this
      ensures Snapshot() == MergeNew(old(Snapshot()), r, position, state)
    {
      hide RememberSecret;
      var id := nextId;
      nextId := nextId + 1;
      outputs := outputs + [OutputRecord(id, r.account, Some(r.commitment), r.value, state, r.height, None)];
      secrets := RememberSecret(secrets, id, r.blinding);
      metadata := metadata + [MetadataFor(id, r, position)];
    }

    method MergeList(list: seq<Restored>, batch: Batch, reportSpends: bool, maturity: nat)
        returns (res: Result<(), RestoreError>)
      modifies this
      ensures res.Ok? ==> MergeAll(old(Snapshot()), list, batch, reportSpends, maturity) == Ok(Snapshot())
      ensures res.Err? ==> MergeAll(old(Snapshot()), list, batch, reportSpends, maturity) == Err(res.error)
    {
      for k := 0 to |list|
        invariant MergeAll(old(Snapshot()), list[..k], batch, reportSpends, maturity) == Ok(Snapshot())
      {
        assert list[..k + 1][..k] == list[..k];
        var site := OutputAt(batch.blocks, list[k].commitment);
        if site.None? {
          MergeAllFails(old(Snapshot()), list, k + 1, batch, reportSpends, maturity);
          return Err(MalformedRecovery);
        }
        var spentAt := if reportSpends then SpentAt(batch.blocks, list[k].commitment) else None;
        var merged := MergeRestoredOutput(list[k], site.value.output.position, spentAt, batch.tip.height, maturity);
        if merged.Err? {
          MergeAllFails(old(Snapshot()), list, k + 1, batch, reportSpends, maturity);
          return merged;
        }
      }
      assert list[..|list|] == list;
      res := Ok(());
    }

    method MigrateCounters() returns (res: Result<(), RestoreError>)
      modifies this
      ensures res.Ok? ==> Migrate(old(Snapshot())) == Ok(Snapshot())
      ensures res.Err? ==> Migrate(old(Snapshot())) == Err(res.error)
    {
      if scannedBlocks != 0 || window == [] {
        return Ok(());
      }
      var total := 0;
      for k := 0 to |window|
        invariant total == SumOutputs(window[..k]) <= U64_MAX
        invariant Snapshot() == old(Snapshot())
      {
        assert window[..k + 1][..k] == window[..k];
        if total + window[k].outputCount > U64_MAX {
          SumOutputsGrows(window, k + 1);
          return Err(CoordinateOverflow);
        }
        total := total + window[k].outputCount;
      }
      assert window[..|window|] == window;
      scannedBlocks := |window|;
      scannedOutputs := total;
      res := Ok(());
    }

    method RecordOne(b: Block) returns (res: Result<(), RestoreError>)
      modifies this
      ensures res.Ok? ==> RecordAnchor(old(Snapshot()), b) == Ok(Snapshot())
      ensures res.Err? ==> RecordAnchor(old(Snapshot()), b) == Err(res.error)
    {
      var legacy := ProofOnlyCount(b.outputs);
      if legacy > U32_MAX {
        return Err(MalformedRecovery);
      }
      var existing := FindAnchor(window, b.height);
      if existing.Some? {
        if window[existing.value].hash != b.hash {
          return Err(ConflictingOutput);
        }
        return Ok(());
      }
      if |b.outputs| > U32_MAX {
        return Err(MalformedRecovery);
      }
      window := window + [Anchor(b.height, b.hash, b.previous, |b.outputs|, legacy)];
      if scannedBlocks + 1 > U64_MAX || scannedOutputs + |b.outputs| > U64_MAX || legacyOutputs + legacy > U64_MAX {
        return Err(CoordinateOverflow);
      }
      scannedBlocks := scannedBlocks + 1;
      scannedOutputs := scannedOutputs + |b.outputs|;
      legacyOutputs := legacyOutputs + legacy;
      res := Ok(());
    }

    method MarkInputs(prior: seq<Commitment>, inputs: seq<Commitment>, height: nat)
        returns (res: Result<(), RestoreError>)
      modifies this`outputs
      ensures res.Ok? ==> SpendInputs(old(outputs), prior, inputs, height) == Ok(outputs)
      ensures res.Err? ==> SpendInputs(old(outputs), prior, inputs, height) == Err(res.error)
    {
      for k := 0 to |inputs|
        invariant SpendInputs(old(outputs), prior, inputs[..k], height) == Ok(outputs)
      {
        assert inputs[..k + 1][..k] == inputs[..k];
        var c := inputs[k];
        var found := FindOutput(outputs, c);
        if c in prior || c in inputs[..k]
           || (found.Some? && outputs[found.value].state.Spent? && outputs[found.value].state.height != height)
        {
          SpendInputsFails(old(outputs), prior, inputs, k + 1, height);
          return Err(ConflictingOutput);
        }
        if found.Some? {
          outputs := outputs[found.value := outputs[found.value].(state := Spent(height), reservedBy := None)];
        }
      }
      assert inputs[..|inputs|] == inputs;
      res := Ok(());
    }

    method RecordPage(blocks: seq<Block>) returns (res: Result<(), RestoreError>)
      modifies this
      ensures res.Ok? ==> RecordBlocks(old(Snapshot()), blocks) == Ok(Snapshot())
      ensures res.Err? ==> RecordBlocks(old(Snapshot()), blocks) == Err(res.error)
    {
      hide RecordAnchor, SpendInputs;
      var pageInputs: seq<Commitment> := [];
      for k := 0 to |blocks|
        invariant RecordBlocks(old(Snapshot()), blocks[..k]) == Ok(Snapshot())
        invariant pageInputs == SpentOn(blocks[..k])
      {
        assert blocks[..k + 1][..k] == blocks[..k];
        var anchored := RecordOne(blocks[k]);
        if anchored.Err? {
          RecordBlocksFails(old(Snapshot()), blocks, k + 1);
          return anchored;
        }
        var spent := MarkInputs(pageInputs, blocks[k].inputs, blocks[k].height);
        if spent.Err? {
          RecordBlocksFails(old(Snapshot()), blocks, k + 1);
          return spent;
        }
        pageInputs := pageInputs + blocks[k].inputs;
      }
      assert blocks[..|blocks|] == blocks;
      res := Ok(());
    }

    method PruneWindow()
      modifies this`window
      ensures window == Prune(old(window))
    {
      if window == [] {
        return;
      }
      var minimum := WindowMinimum(window[|window| - 1].height);
      if window[0].height < minimum {
        var kept: seq<Anchor> := [];
        for k := 0 to |window|
          invariant kept == KeepFrom(window[..k], minimum)
        {
          assert window[..k + 1][..k] == window[..k];
          if window[k].height >= minimum {
            kept := kept + [window[k]];
          }
        }
        assert window[..|window|] == window;
        window := kept;
      }
    }

    method RefreshMaturity(tip: nat, maturity: nat) returns (res: Result<(), RestoreError>)
      modifies this`outputs
      ensures res.Ok? ==> Refresh(old(outputs), metadata, tip, maturity) == Ok(outputs)
      ensures res.Err? ==> Refresh(old(outputs), metadata, tip, maturity) == Err(res.error)
    {
      ghost var start := outputs;
      for k := 0 to |outputs|
        invariant |outputs| == |start| && outputs[k..] == start[k..]
        invariant Refresh(start[..k], metadata, tip, maturity) == Ok(outputs[..k])
      {
        assert start[..k + 1][..k] == start[..k];
        assert outputs[k] == outputs[k..][0] == start[k..][0] == start[k];
        var o := outputs[k];
        var known := FindMetadata(metadata, o.id);
        if !o.state.Spent? && known.Some? {
          if metadata[known.value].isCoinbase {
            if o.discovered + maturity > U64_MAX {
              RefreshFails(start, k + 1, metadata, tip, maturity);
              return Err(CoordinateOverflow);
            }
            var required := o.discovered + maturity;
            outputs := outputs[k := o.(state := if tip < required then Immature(required) else Confirmed)];
          } else {
            outputs := outputs[k := o.(state := Confirmed)];
          }
        }
        assert outputs[..k + 1] == outputs[..k] + [outputs[k]];
        assert start[k..][1..] == start[k + 1..];
      }
      assert start[..|start|] == start && outputs[..|outputs|] == outputs;
      res := Ok(());
    }

    method ApplyPage(batch: Batch, maturity: nat) returns (res: Result<(), RestoreError>)
      modifies this
      ensures res.Ok? ==> ApplyBatch(old(Snapshot()), batch, maturity) == Ok(Snapshot())
      ensures res.Err? ==> ApplyBatch(old(Snapshot()), batch, maturity) == Err(res.error)
    {
      hide MergeAll, RecordBlocks, Migrate, Prune, SortWindow, Refresh, CapsulesOn, LegacyOn;
      var capsules := MergeList(CapsulesOn(batch.blocks), batch, true, maturity);
      if capsules.Err? {
        return capsules;
      }
      var legacy := MergeList(LegacyOn(batch.blocks), batch, false, maturity);
      if legacy.Err? {
        return legacy;
      }
      var migrated := MigrateCounters();
      if migrated.Err? {
        return migrated;
      }
      var recorded := RecordPage(batch.blocks);
      if recorded.Err? {
        return recorded;
      }
      window := SortWindow(window);
      PruneWindow();
      res := RefreshMaturity(batch.tip.height, maturity);
    }

    method RewindCountersAndWindow(safe: nat)
      modifies this`window, this`scannedBlocks, this`scannedOutputs, this`legacyOutputs
      ensures window == KeepUpTo(old(window), safe)
      ensures var gone := Above(old(window), safe);
              && scannedBlocks == SaturatingSub(old(scannedBlocks), Min(|gone|, U64_MAX))
              && scannedOutputs == SaturatingSub(old(scannedOutputs), Min(SumOutputs(gone), U64_MAX))
              && legacyOutputs == SaturatingSub(old(legacyOutputs), Min(SumLegacy(gone), U64_MAX))
    {
      var blocks: nat, produced: nat, legacy: nat := 0, 0, 0;
      var kept: seq<Anchor> := [];
      for k := 0 to |window|
        invariant kept == KeepUpTo(window[..k], safe)
        invariant var gone := Above(window[..k], safe);
                  blocks == Min(|gone|, U64_MAX) && produced == Min(SumOutputs(gone), U64_MAX) && legacy
                      == Min(SumLegacy(gone), U64_MAX)
      {
        assert window[..k + 1][..k] == window[..k];
        ghost var gone := Above(window[..k], safe);
        if window[k].height > safe {
          blocks := Min(blocks + 1, U64_MAX);
          produced := Min(produced + window[k].outputCount, U64_MAX);
          legacy := Min(legacy + window[k].legacyCount, U64_MAX);
          assert (gone + [window[k]])[..|gone|] == gone;
        } else {
          kept := kept + [window[k]];
          assert gone + [] == gone;
        }
      }
      assert window[..|window|] == window;
      window := kept;
      scannedBlocks := SaturatingSub(scannedBlocks, blocks);
      scannedOutputs := SaturatingSub(scannedOutputs, produced);
      legacyOutputs := SaturatingSub(legacyOutputs, legacy);
    }

    method DropRewoundOutputs(safe: nat)
      modifies this`outputs, this`secrets, this`metadata
      ensures outputs == Unspend(KeepOutputs(old(outputs), safe), safe)
      ensures secrets == DropSecrets(old(secrets), RemovedIds(old(outputs), safe))
      ensures metadata == DropMetadata(old(metadata), RemovedIds(old(outputs), safe))
    {
      var removed: set<nat> := {};
      var keptOutputs: seq<OutputRecord> := [];
      for k := 0 to |outputs|
        invariant removed == RemovedIds(outputs[..k], safe)
        invariant keptOutputs == KeepOutputs(outputs[..k], safe)
      {
        assert outputs[..k + 1][..k] == outputs[..k];
        assert outputs[..k + 1] == outputs[..k] + [outputs[k]];
        if outputs[k].discovered > safe {
          removed := removed + {outputs[k].id};
        } else {
          keptOutputs := keptOutputs + [outputs[k]];
        }
      }
      assert outputs[..|outputs|] == outputs;
      var keptSecrets: seq<OutputSecret> := [];
      for k := 0 to |secrets|
        invariant keptSecrets == DropSecrets(secrets[..k], removed)
      {
        assert secrets[..k + 1][..k] == secrets[..k];
        if secrets[k].outputId !in removed {
          keptSecrets := keptSecrets + [secrets[k]];
        }
      }
      assert secrets[..|secrets|] == secrets;
      var keptMetadata: seq<OutputMetadata> := [];
      for k := 0 to |metadata|
        invariant keptMetadata == DropMetadata(metadata[..k], removed)
      {
        assert metadata[..k + 1][..k] == metadata[..k];
        if metadata[k].outputId !in removed {
          keptMetadata := keptMetadata + [metadata[k]];
        }
      }
      assert metadata[..|metadata|] == metadata;
      outputs, secrets, metadata := Unspend(keptOutputs, safe), keptSecrets, keptMetadata;
    }

    method RewindTo(safe: nat, tip: nat) returns (res: Result<(), RestoreError>)
      modifies this
      ensures res.Ok? ==> Rewind(old(Snapshot()), safe, tip) == Ok(Snapshot())
      ensures res.Err? ==> Rewind(old(Snapshot()), safe, tip) == Err(res.error)
    {
      hide KeepOutputs, DropSecrets, DropMetadata, Above, KeepUpTo, SumOutputs, SumLegacy, Refresh, RemovedIds, Unspend;
      DropRewoundOutputs(safe);
      RewindCountersAndWindow(safe);
      res := RefreshMaturity(tip, 0);
    }
  }

  /** The in-memory state of the restore sink beside what the directory holds. */
  class RestoreSink {
    var state: Option<WalletState>
    var durable: WalletState

    predicate Consistent()
      reads this
    {
      state == None || state == Some(durable)
    }

    constructor (st: WalletState)
      ensures Consistent() && durable == st && state == Some(st)
    {
      state, durable := Some(st), st;
    }

    /** Atomic: success writes the prepared state under the next generation; failure leaves the
        directory untouched, and memory either agrees with it again or is lost. */
    method Commit(batch: Batch, cursor: BlockRef, reorg: Option<BlockRef>, maturity: nat, storage: Storage,
                  reloads: bool)
      returns (res: Result<(), RestoreError>)
      requires Consistent()
      modifies this
      ensures Consistent()
      ensures res.Ok? <==>
        old(state).Some? && Prepared(old(durable), batch, cursor, reorg, maturity).Ok? && storage.Written?
      ensures res.Ok? ==>
        var next := Prepared(old(durable), batch, cursor, reorg, maturity).value;
        durable == next.(generation := old(durable).generation + 1)
      ensures res.Ok? ==> state == Some(durable)
      ensures res.Err? ==> durable == old(durable)
      ensures res.Err? && old(state).Some? ==> state == if reloads then Some(durable) else None
      ensures var q := Request(batch, cursor, reorg, maturity, storage, reloads);
        && res == Answer(Memory(old(state), old(durable)), q)
        && Memory(state, durable) == Next(Memory(old(state), old(durable)), q)
    {
      hide ApplyBatch, Rewind, Validates;
      if state.None? {
        return Err(StorageFailure);
      }
      var record := new WalletRecord(state.value);
      var failed: Option<RestoreError> := None;
      if reorg.Some? {
        var rewound := record.RewindTo(reorg.value.height, batch.tip.height);
        if rewound.Err? {
          failed := Some(rewound.error);
        }
      }
      if failed.None? {
        var applied := record.ApplyPage(batch, maturity);
        if applied.Err? {
          failed := Some(applied.error);
        }
      }
      if failed.None? {
        record.cursor := Some(cursor);
        if !Validates(record.Snapshot()) {
          failed := Some(MalformedRecovery);
        } else if storage.Refused? {
          failed := Some(if storage.tooLarge then StateStorageLimitExceeded else StorageFailure);
        }
      }
      if failed.Some? {
        state := if reloads then Some(durable) else None;
        return Err(failed.value);
      }
      durable := record.Snapshot().(generation := durable.generation + 1);
      state := Some(durable);
      res := Ok(());
    }
  }
}
