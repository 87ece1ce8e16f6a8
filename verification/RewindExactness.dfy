/** Rewinding to a retained block leaves the state of the shorter branch: outputs,
    counters and window, whatever has been pruned before. */
module RewindExactness {
  import opened Wrappers
  import opened Blocks
  import opened BranchFacts
  import opened RecoverySpec
  import opened StraightScan
  import opened PageApplication
  import opened PageExactness

  // ----- filtering the three aligned lists

  ghost predicate Selects(outputs: seq<OutputRecord>, ids: set<nat>, safe: nat) {
    forall i :: 0 <= i < |outputs| ==> (outputs[i].id in ids <==> outputs[i].discovered > safe)
  }

  ghost predicate Kept(outputs: seq<OutputRecord>, secrets: seq<OutputSecret>, metadata: seq<OutputMetadata>,
                       outputs': seq<OutputRecord>, secrets': seq<OutputSecret>, metadata': seq<OutputMetadata>,
                       safe: nat, c: Commitment)
    requires AlignedParts(outputs, secrets, metadata) && AlignedParts(outputs', secrets', metadata')
  {
    var e := EntryIn(outputs, secrets, metadata, c);
    EntryIn(outputs', secrets', metadata', c) == if e.Some? && e.value.found.restored.height <= safe then e else None
  }

  lemma {:induction false} FilterSubset(outputs: seq<OutputRecord>, safe: nat)
    ensures forall o :: o in KeepOutputs(outputs, safe) ==> o in outputs && o.discovered <= safe
  {
    if outputs != [] {
      FilterSubset(outputs[..|outputs| - 1], safe);
    }
  }

  lemma PushAligned(outputs: seq<OutputRecord>, secrets: seq<OutputSecret>, metadata: seq<OutputMetadata>,
                    o: OutputRecord, s: OutputSecret, m: OutputMetadata, c: Commitment)
    requires AlignedParts(outputs, secrets, metadata)
    requires s.outputId == o.id == m.outputId && o.commitment.Some? && o.reservedBy.None? && m.account == o.account
    requires forall x :: x in outputs ==> x.id < o.id && x.commitment != o.commitment
    ensures AlignedParts(outputs + [o], secrets + [s], metadata + [m])
    ensures EntryIn(outputs + [o], secrets + [s], metadata + [m], c) ==
            if o.commitment == Some(c) then Some(EntryOf(o, s, m)) else EntryIn(outputs, secrets, metadata, c)
  {
    var next := outputs + [o];
    assert next[..|outputs|] == outputs;
    if o.commitment == Some(c) {
      assert FindOutput(outputs, c).None?;
    }
  }

  lemma {:induction false} FilterParts(outputs: seq<OutputRecord>, secrets: seq<OutputSecret>,
                                       metadata: seq<OutputMetadata>, ids: set<nat>, safe: nat)
    requires AlignedParts(outputs, secrets, metadata) && Selects(outputs, ids, safe)
    ensures AlignedParts(KeepOutputs(outputs, safe), DropSecrets(secrets, ids), DropMetadata(metadata, ids))
    ensures forall c :: Kept(outputs, secrets, metadata, KeepOutputs(outputs, safe), DropSecrets(secrets, ids),
                             DropMetadata(metadata, ids), safe, c)
  {
    if outputs != [] {
      hide AlignedParts, Selects, KeepOutputs, DropSecrets, DropMetadata, EntryIn, Kept;
      var n := |outputs| - 1;
      var fo, fs, fm := outputs[..n], secrets[..n], metadata[..n];
      FilterUnfold(outputs, secrets, metadata, ids, safe);
      FilterParts(fo, fs, fm, ids, safe);
      var ko, ks, km := KeepOutputs(fo, safe), DropSecrets(fs, ids), DropMetadata(fm, ids);
      forall c
        ensures AlignedParts(KeepOutputs(outputs, safe), DropSecrets(secrets, ids), DropMetadata(metadata, ids))
        ensures Kept(outputs, secrets, metadata, KeepOutputs(outputs, safe), DropSecrets(secrets, ids),
                     DropMetadata(metadata, ids), safe, c)
      {
        assert Kept(fo, fs, fm, ko, ks, km, safe, c);
        FilterStep(outputs, secrets, metadata, ids, safe, ko, ks, km, c);
      }
      FilterStep(outputs, secrets, metadata, ids, safe, ko, ks, km, 0);
    }
  }

  lemma FilterUnfold(outputs: seq<OutputRecord>, secrets: seq<OutputSecret>, metadata: seq<OutputMetadata>,
                     ids: set<nat>, safe: nat)
    requires outputs != [] && AlignedParts(outputs, secrets, metadata) && Selects(outputs, ids, safe)
    ensures |secrets| == |metadata| == |outputs|
    ensures var n := |outputs| - 1;
            var keep := outputs[n].discovered <= safe;
            && AlignedParts(outputs[..n], secrets[..n], metadata[..n]) && Selects(outputs[..n], ids, safe)
            && KeepOutputs(outputs, safe) == KeepOutputs(outputs[..n], safe) + (if keep then [outputs[n]] else [])
            && DropSecrets(secrets, ids) == DropSecrets(secrets[..n], ids) + (if keep then [secrets[n]] else [])
            && DropMetadata(metadata, ids) == DropMetadata(metadata[..n], ids) + (if keep then [metadata[n]] else [])
            && forall x :: x in KeepOutputs(outputs[..n], safe) ==>
                 x.id < outputs[n].id && x.commitment != outputs[n].commitment
  {
    var n := |outputs| - 1;
    LastEntry(outputs, secrets, metadata, 0);
    FilterSubset(outputs[..n], safe);
    forall x | x in outputs[..n] ensures x.id < outputs[n].id && x.commitment != outputs[n].commitment {
      var i :| 0 <= i < n && outputs[i] == x;
    }
  }

  lemma FilterStep(outputs: seq<OutputRecord>, secrets: seq<OutputSecret>, metadata: seq<OutputMetadata>,
                   ids: set<nat>, safe: nat,
                   ko: seq<OutputRecord>, ks: seq<OutputSecret>, km: seq<OutputMetadata>, c: Commitment)
    requires outputs != [] && AlignedParts(outputs, secrets, metadata) && Selects(outputs, ids, safe)
    requires AlignedParts(ko, ks, km)
    requires var n := |outputs| - 1;
             && (forall x :: x in ko ==> x.id < outputs[n].id && x.commitment != outputs[n].commitment)
             && Kept(outputs[..n], secrets[..n], metadata[..n], ko, ks, km, safe, c)
    ensures var n := |outputs| - 1;
            var keep := outputs[n].discovered <= safe;
            var ko' := ko + (if keep then [outputs[n]] else []);
            var ks' := ks + (if keep then [secrets[n]] else []);
            var km' := km + (if keep then [metadata[n]] else []);
            AlignedParts(ko', ks', km') && Kept(outputs, secrets, metadata, ko', ks', km', safe, c)
  {
    var n := |outputs| - 1;
    var o, s, m := outputs[n], secrets[n], metadata[n];
    LastEntry(outputs, secrets, metadata, c);
    if o.discovered <= safe {
      PushAligned(ko, ks, km, o, s, m, c);
    } else {
      assert ko + [] == ko && ks + [] == ks && km + [] == km;
    }
  }

  lemma LastEntry(outputs: seq<OutputRecord>, secrets: seq<OutputSecret>, metadata: seq<OutputMetadata>, c: Commitment)
    requires outputs != [] && AlignedParts(outputs, secrets, metadata)
    ensures var n := |outputs| - 1;
            && AlignedParts(outputs[..n], secrets[..n], metadata[..n])
            && (outputs[n].commitment == Some(c) ==> EntryIn(outputs[..n], secrets[..n], metadata[..n], c).None?)
            && EntryIn(outputs, secrets, metadata, c) ==
               if outputs[n].commitment == Some(c) then Some(EntryOf(outputs[n], secrets[n], metadata[n]))
               else EntryIn(outputs[..n], secrets[..n], metadata[..n], c)
  {
  }

  // ----- counters

  lemma {:induction false} SumsOfAnchors(blocks: seq<Block>)
    ensures SumOutputs(Anchors(blocks)) == OutputTotal(blocks)
    ensures SumLegacy(Anchors(blocks)) == ProofOnlyTotal(blocks)
  {
    if blocks != [] {
      var n := |blocks| - 1;
      SumsOfAnchors(blocks[..n]);
      assert Anchors(blocks)[..n] == Anchors(blocks[..n]);
    }
  }

  /** The rewound counters are exact: no `saturating_sub` clips. */
  lemma RewindCounters(st: WalletState, branch: seq<Block>, first: nat, low: nat, safe: nat, maturity: nat)
    requires Linked(branch, first) && Representable(branch, maturity) && Counted(st, branch, low)
    requires first + low <= safe < first + |branch|
    ensures var k := safe + 1 - first;
            var gone := Above(st.window, safe);
            && gone == Anchors(branch[k..])
            && KeepUpTo(st.window, safe) == Anchors(branch[..k][low..])
            && |gone| <= st.scannedBlocks && SumOutputs(gone) <= st.scannedOutputs
              && SumLegacy(gone) <= st.legacyOutputs
            && st.scannedBlocks - |gone| == k
            && st.scannedOutputs - SumOutputs(gone) == OutputTotal(branch[..k])
            && st.legacyOutputs - SumLegacy(gone) == ProofOnlyTotal(branch[..k])
  {
    hide KeepUpTo, Above, AnchorOf, Representable, SumOutputs, SumLegacy, OutputTotal, ProofOnlyTotal, Linked,
         Ascending;
    var k := safe + 1 - first;
    AnchorsAscend(branch, first, low);
    KeepUpToPrefix(st.window, safe, first + low);
    AboveSuffix(st.window, safe, first + low);
    AnchorsDrop(branch, low, k - low);
    assert Anchors(branch[low..])[..k - low] == Anchors(branch[..k][low..]);
    SumsOfAnchors(branch[k..]);
    assert branch == branch[..k] + branch[k..];
    TotalsAppend(branch[..k], branch[k..]);
  }

  // ----- outputs

  lemma PrefixAt(branch: seq<Block>, first: nat, k: nat, c: Commitment)
    requires Linked(branch, first) && Consistent(branch) && k <= |branch|
    ensures OwnedAt(branch[..k], c) ==
            if OwnedAt(branch, c).Some? && OwnedAt(branch, c).value.restored.height < first + k then OwnedAt(branch, c)
                else None
    ensures SpentAt(branch[..k], c) ==
            if SpentAt(branch, c).Some? && SpentAt(branch, c).value < first + k then SpentAt(branch, c) else None
  {
    hide OutputAt, SpentAt, CreatedOn, SpentOn, Linked, LegacyOutput;
    var a, b := branch[..k], branch[k..];
    assert branch == a + b;
    assert ConsistentAt(branch, c);
    OwnedAppend(a, b, c);
    SiteAppend(a, b, c);
    ConsistentSplit(a, b, c);
    LinkedParts(a, b, first);
    SiteHeights(a, first, c);
    SiteHeights(b, first + k, c);
    OutputAtIff(a, c);
    OutputAtIff(b, c);
  }

  lemma RewindOutputs(st: WalletState, branch: seq<Block>, first: nat, safe: nat, tip: nat, maturity: nat)
    requires Tracks(st, branch) && Linked(branch, first) && Consistent(branch) && Representable(branch, maturity)
    requires first <= safe < first + |branch|
    ensures Rewind(st, safe, tip).Ok? && Tracks(Rewind(st, safe, tip).value, branch[..safe + 1 - first])
  {
    hide Linked, Consistent, Representable, KeepOutputs, DropSecrets, DropMetadata, Refresh, Unspend, RemovedIds,
         Selects, Kept, TracksAt, UnspentRecord;
    var ids := RemovedIds(st.outputs, safe);
    RemovedSelects(st, safe);
    FilterParts(st.outputs, st.secrets, st.metadata, ids, safe);
    FilterSubset(st.outputs, safe);
    var ko, ks, km := KeepOutputs(st.outputs, safe), DropSecrets(st.secrets, ids), DropMetadata(st.metadata, ids);
    UnspentRefresh(ko, ks, km, safe, tip, branch, first, maturity);
    var next := Rewind(st, safe, tip).value;
    RewoundAligned(st, next, ko, safe);
    var shorter := branch[..safe + 1 - first];
    forall c ensures TracksAt(next, shorter, c) {
      assert Kept(st.outputs, st.secrets, st.metadata, ko, ks, km, safe, c);
      RewoundAt(st, next, ko, branch, first, safe, c);
    }
  }

  lemma RemovedSelects(st: WalletState, safe: nat)
    requires Aligned(st)
    ensures Selects(st.outputs, RemovedIds(st.outputs, safe), safe)
  {
    var ids := RemovedIds(st.outputs, safe);
    forall i | 0 <= i < |st.outputs| ensures st.outputs[i].id in ids <==> st.outputs[i].discovered > safe {
      if st.outputs[i].id in ids {
        var o :| o in st.outputs && o.discovered > safe && o.id == st.outputs[i].id;
        var j :| 0 <= j < |st.outputs| && st.outputs[j] == o;
      }
    }
  }

  lemma RewoundAligned(st: WalletState, next: WalletState, ko: seq<OutputRecord>, safe: nat)
    requires Aligned(st) && (forall o :: o in ko ==> o in st.outputs) && next.nextId == st.nextId
    requires AlignedParts(ko, next.secrets, next.metadata)
    requires |next.outputs| == |ko| && forall i :: 0 <= i < |ko| ==> UnspentRecord(ko[i], next.outputs[i], safe)
    ensures Aligned(next)
  {
    forall i | 0 <= i < |ko| ensures ko[i].id < st.nextId {
      assert ko[i] in ko;
    }
  }

  lemma RewoundAt(st: WalletState, next: WalletState, ko: seq<OutputRecord>, branch: seq<Block>, first: nat, safe: nat,
                  c: Commitment)
    requires Tracks(st, branch) && Linked(branch, first) && Consistent(branch) && first <= safe < first + |branch|
    requires Aligned(next) && AlignedParts(ko, next.secrets, next.metadata)
    requires Kept(st.outputs, st.secrets, st.metadata, ko, next.secrets, next.metadata, safe, c)
    requires |next.outputs| == |ko| && forall i :: 0 <= i < |ko| ==> UnspentRecord(ko[i], next.outputs[i], safe)
    ensures TracksAt(next, branch[..safe + 1 - first], c)
  {
    assert TracksAt(st, branch, c);
    SameLookup(next.outputs, ko, c);
    PrefixAt(branch, first, safe + 1 - first, c);
  }

  ghost predicate UnspentRecord(o: OutputRecord, next: OutputRecord, safe: nat) {
    && next == o.(state := next.state)
    && SpendOf(next.state) == if o.state.Spent? && o.state.height <= safe then Some(o.state.height) else None
  }

  lemma UnspentRefresh(ko: seq<OutputRecord>, ks: seq<OutputSecret>, km: seq<OutputMetadata>, safe: nat, tip: nat,
                       branch: seq<Block>, first: nat, maturity: nat)
    requires AlignedParts(ko, ks, km) && Linked(branch, first) && Representable(branch, maturity)
    requires first <= safe < first + |branch| && forall o :: o in ko ==> o.discovered <= safe
    ensures var r := Refresh(Unspend(ko, safe), km, tip, 0);
            && r.Ok? && |r.value| == |ko|
            && forall i :: 0 <= i < |ko| ==> UnspentRecord(ko[i], r.value[i], safe)
  {
    var unspent := Unspend(ko, safe);
    assert branch[safe - first].height == safe <= U64_MAX;
    forall i | 0 <= i < |unspent|
      ensures RefreshOne(unspent[i], km, tip, 0).Ok? && UnspentRecord(ko[i], RefreshOne(unspent[i], km, tip, 0).value,
                                                                      safe)
    {
      assert ko[i] in ko;
      UnspentOne(ko[i], unspent[i], km, safe, tip);
    }
    RefreshEffect(unspent, km, tip, 0);
  }

  lemma UnspentOne(o: OutputRecord, u: OutputRecord, metadata: seq<OutputMetadata>, safe: nat, tip: nat)
    requires u == if o.state.Spent? && o.state.height > safe then o.(state := Confirmed) else o
    requires o.discovered <= U64_MAX
    ensures RefreshOne(u, metadata, tip, 0).Ok? && UnspentRecord(o, RefreshOne(u, metadata, tip, 0).value, safe)
  {
  }

  /** Rewinding to a retained block is exact. */
  lemma RewindExact(st: WalletState, branch: seq<Block>, first: nat, low: nat, safe: nat, tip: nat, maturity: nat)
    requires Tracks(st, branch) && Counted(st, branch, low)
    requires Linked(branch, first) && Consistent(branch) && Representable(branch, maturity)
    requires first + low <= safe < first + |branch|
    ensures var r := Rewind(st, safe, tip);
            && r.Ok?
            && Tracks(r.value, branch[..safe + 1 - first])
            && Counted(r.value, branch[..safe + 1 - first], low)
            && r.value.cursor == st.cursor && r.value.generation == st.generation
  {
    hide Tracks, Linked, Consistent, KeepOutputs, DropSecrets, DropMetadata, Refresh, Unspend, RemovedIds,
         Above, KeepUpTo, SumOutputs, SumLegacy, OutputTotal, ProofOnlyTotal, Anchors;
    RewindOutputs(st, branch, first, safe, tip, maturity);
    RewindCounters(st, branch, first, low, safe, maturity);
  }

  /** What is not spent is confirmed, or immature below its own height. */
  ghost predicate Refreshed(st: WalletState, tip: nat) {
    && |st.metadata| == |st.outputs|
    && forall i :: 0 <= i < |st.outputs| ==> RipenedRecord(st.outputs[i], st.metadata[i], tip)
  }

  /** The state a record has after its refresh under maturity zero. */
  ghost predicate RipenedRecord(o: OutputRecord, m: OutputMetadata, tip: nat) {
    !o.state.Spent? ==> o.state == if m.isCoinbase && tip < o.discovered then Immature(o.discovered) else Confirmed
  }

  lemma RefreshedLists(ko: seq<OutputRecord>, ks: seq<OutputSecret>, km: seq<OutputMetadata>, safe: nat, tip: nat)
    requires AlignedParts(ko, ks, km) && forall i :: 0 <= i < |ko| ==> ko[i].discovered <= U64_MAX
    ensures var r := Refresh(Unspend(ko, safe), km, tip, 0);
      && r.Ok? && |r.value| == |ko| == |km|
      && forall i :: 0 <= i < |ko| ==> RipenedRecord(r.value[i], km[i], tip)
  {
    hide FindMetadata, Refresh;
    var unspent := Unspend(ko, safe);
    forall i | 0 <= i < |unspent|
      ensures RefreshOne(unspent[i], km, tip, 0).Ok? && RipenedRecord(RefreshOne(unspent[i], km, tip, 0).value, km[i],
                                                                      tip)
    {
      MetadataAt(ko, ks, km, i);
      RefreshedOne(unspent[i], km, i, tip);
    }
    hide AlignedParts, RefreshOne, RipenedRecord, Unspend;
    RefreshEffect(unspent, km, tip, 0);
  }

  lemma RefreshedOne(o: OutputRecord, km: seq<OutputMetadata>, i: nat, tip: nat)
    requires i < |km| && FindMetadata(km, o.id) == Some(i) && o.discovered <= U64_MAX
    ensures RefreshOne(o, km, tip, 0).Ok? && RipenedRecord(RefreshOne(o, km, tip, 0).value, km[i], tip)
  {
    hide FindMetadata;
  }

  lemma RewoundRefreshed(st: WalletState, branch: seq<Block>, first: nat, safe: nat, tip: nat, maturity: nat)
    requires Tracks(st, branch) && Linked(branch, first) && Consistent(branch) && Representable(branch, maturity)
    requires first <= safe < first + |branch| && Rewind(st, safe, tip).Ok?
    ensures Refreshed(Rewind(st, safe, tip).value, tip)
  {
    hide Linked, Consistent, Representable, KeepOutputs, DropSecrets, DropMetadata, Refresh, RemovedIds, Selects, Kept,
         TracksAt, Unspend, AlignedParts;
    var ids := RemovedIds(st.outputs, safe);
    RemovedSelects(st, safe);
    FilterParts(st.outputs, st.secrets, st.metadata, ids, safe);
    FilterSubset(st.outputs, safe);
    var ko, ks, km := KeepOutputs(st.outputs, safe), DropSecrets(st.secrets, ids), DropMetadata(st.metadata, ids);
    HeightFits(branch, first, safe, maturity);
    forall i | 0 <= i < |ko| ensures ko[i].discovered <= U64_MAX {
      assert ko[i] in ko;
    }
    RefreshedLists(ko, ks, km, safe, tip);
  }

  lemma HeightFits(branch: seq<Block>, first: nat, h: nat, maturity: nat)
    requires Linked(branch, first) && Representable(branch, maturity) && first <= h < first + |branch|
    ensures h <= U64_MAX
  {
    assert branch[h - first].height == h;
  }

  /** A rewind alone already leaves one straight scan of the shorter branch at the new tip, with coinbase outputs mature
      as soon as their own height; the page that follows refreshes them under the real maturity. */
  lemma RewindOwned(st: WalletState, branch: seq<Block>, first: nat, safe: nat, tip: nat, maturity: nat)
    requires Tracks(st, branch) && Linked(branch, first) && Consistent(branch) && Representable(branch, maturity)
    requires first <= safe < first + |branch|
    ensures Rewind(st, safe, tip).Ok? && OwnedExact(Rewind(st, safe, tip).value, branch[..safe + 1 - first], tip, 0)
  {
    hide Linked, Consistent, Representable, Rewind;
    RewindOutputs(st, branch, first, safe, tip, maturity);
    RewoundRefreshed(st, branch, first, safe, tip, maturity);
    var next, shorter := Rewind(st, safe, tip).value, branch[..safe + 1 - first];
    forall c ensures EntryFor(next, c) == Scan(shorter, tip, 0, c) {
      assert TracksAt(next, shorter, c);
    }
  }

  // ----- migration of a pre-window state

  lemma {:induction false} SplitSums(window: seq<Anchor>, safe: nat)
    ensures |window| == |KeepUpTo(window, safe)| + |Above(window, safe)|
    ensures SumOutputs(window) == SumOutputs(KeepUpTo(window, safe)) + SumOutputs(Above(window, safe))
  {
    if window != [] {
      var n := |window| - 1;
      SplitSums(window[..n], safe);
      var keep, gone := KeepUpTo(window[..n], safe), Above(window[..n], safe);
      if window[n].height <= safe {
        assert (keep + [window[n]])[..|keep|] == keep;
        assert gone + [] == gone;
      } else {
        assert (gone + [window[n]])[..|gone|] == gone;
        assert keep + [] == keep;
      }
    }
  }

  /** A state from before the durable counters may be migrated before or after a rewind. */
  lemma MigrateRewindCommute(st: WalletState, safe: nat, tip: nat)
    requires st.scannedBlocks == 0 && st.scannedOutputs == 0
    requires |st.window| <= U64_MAX && SumOutputs(st.window) <= U64_MAX
    requires Rewind(st, safe, tip).Ok?
    ensures Migrate(st).Ok? && Rewind(Migrate(st).value, safe, tip).Ok?
    ensures Migrate(Rewind(st, safe, tip).value) == Ok(Rewind(Migrate(st).value, safe, tip).value)
  {
    hide SumOutputs, Rewind, Above, KeepUpTo, Migrate, WithCounts;
    var base := Rewind(st, safe, tip).value;
    SplitSums(st.window, safe);
    RewindCounts(st, 0, 0, safe, tip);
    RewindCounts(st, |st.window|, SumOutputs(st.window), safe, tip);
    Unmigrated(st);
    Counts(base, 0, 0);
    Unmigrated(base);
  }

  function WithCounts(st: WalletState, blocks: nat, outputs: nat): WalletState {
    st.(scannedBlocks := blocks, scannedOutputs := outputs)
  }

  lemma Counts(st: WalletState, blocks: nat, outputs: nat)
    ensures var next := WithCounts(st, blocks, outputs); next.scannedBlocks == blocks && next.scannedOutputs == outputs
  {
  }

  /** Migrating a state without counters sets them to the totals of its window. */
  lemma Unmigrated(st: WalletState)
    requires st.scannedBlocks == 0 && st.scannedOutputs == 0 && SumOutputs(st.window) <= U64_MAX
    ensures WithCounts(st, 0, 0) == st
    ensures Migrate(st) == Ok(WithCounts(st, |st.window|, SumOutputs(st.window)))
  {
    assert SumOutputs([]) == 0;
  }

  /** A rewind treats the scan counters apart from everything else. */
  lemma RewindCounts(st: WalletState, blocks: nat, outputs: nat, safe: nat, tip: nat)
    requires Rewind(st, safe, tip).Ok?
    ensures var gone := Above(st.window, safe);
      Rewind(WithCounts(st, blocks, outputs), safe, tip) ==
      Ok(WithCounts(Rewind(st, safe, tip).value, SaturatingSub(blocks, Min(|gone|, U64_MAX)),
                    SaturatingSub(outputs, Min(SumOutputs(gone), U64_MAX))))
    ensures Rewind(st, safe, tip).value.window == KeepUpTo(st.window, safe)
    ensures WithCounts(Rewind(st, safe, tip).value, 0, 0).window == KeepUpTo(st.window, safe)
  {
    hide SumOutputs, SumLegacy, Above, KeepUpTo, KeepOutputs, DropSecrets, DropMetadata, RemovedIds, Refresh, Unspend;
  }
}
