/** Value-level semantics of the seed-restore state: what each operation of
    crates/dom-wallet-core-restore does to a wallet state, errors included. The
    class in `RecoveryWallet` performs the same operations in place and is proved
    to agree with these functions; the theorems are about these functions. */
module RecoverySpec {
  import opened Wrappers
  import opened Blocks

  const WINDOW_BLOCKS: nat := 2_048
  const MAX_OUTPUTS: nat := 100_000

  datatype OutputState =
    | Confirmed
    | Immature(required: nat)
    | PendingIncoming
    | PendingOutgoing
    | Locked
    | Spent(height: nat)

  /** Account ids are named by the recovery account they map to; record ids are fresh numbers. */
  datatype OutputRecord = OutputRecord(
    id: nat,
    account: nat,
    commitment: Option<Commitment>,
    value: nat,
    state: OutputState,
    discovered: nat,
    reservedBy: Option<nat>)

  datatype OutputSecret = OutputSecret(outputId: nat, blinding: nat)

  datatype OutputMetadata = OutputMetadata(
    outputId: nat,
    account: nat,
    index: nat,
    domain: Domain,
    isCoinbase: bool,
    blockHash: Hash,
    position: nat)

  datatype Anchor = Anchor(height: nat, hash: Hash, previous: Hash, outputCount: nat, legacyCount: nat)

  datatype Floors = Floors(received: nat, change: nat, selfTransfer: nat, coinbase: nat)

  /** The part of the wallet state that seed restore reads or writes. */
  datatype WalletState = WalletState(
    outputs: seq<OutputRecord>,
    secrets: seq<OutputSecret>,
    metadata: seq<OutputMetadata>,
    nextId: nat,
    window: seq<Anchor>,
    scannedBlocks: nat,
    scannedOutputs: nat,
    legacyOutputs: nat,
    floors: Floors,
    nonReuseFloor: nat,
    cursor: Option<BlockRef>,
    generation: nat)

  /** A validated page: the tip Core reported with it and its blocks. */
  datatype Batch = Batch(tip: BlockRef, blocks: seq<Block>)

  datatype RestoreError =
    | MalformedRecovery
    | ConflictingOutput
    | CoordinateOverflow
    | StorageFailure
    | StateStorageLimitExceeded

  const EMPTY_STATE: WalletState :=
    WalletState([], [], [], 0, [], 0, 0, 0, Floors(0, 0, 0, 0), 0, None, 0)

  // ----- lookups

  function FindOutput(outputs: seq<OutputRecord>, c: Commitment): (r: Option<nat>)
    ensures r.Some? ==> r.value < |outputs| && outputs[r.value].commitment == Some(c)
    ensures r.Some? ==> forall i :: 0 <= i < r.value ==> outputs[i].commitment != Some(c)
    ensures r.None? ==> forall i :: 0 <= i < |outputs| ==> outputs[i].commitment != Some(c)
  {
    if outputs == [] then None
    else
      var n := |outputs| - 1;
      match FindOutput(outputs[..n], c)
      case Some(i) => Some(i)
      case None => if outputs[n].commitment == Some(c) then Some(n) else None
  }

  function FindSecret(secrets: seq<OutputSecret>, id: nat): (r: Option<nat>)
    ensures r.Some? ==> r.value < |secrets| && secrets[r.value].outputId == id
    ensures r.Some? ==> forall i :: 0 <= i < r.value ==> secrets[i].outputId != id
    ensures r.None? ==> forall i :: 0 <= i < |secrets| ==> secrets[i].outputId != id
  {
    if secrets == [] then None
    else
      var n := |secrets| - 1;
      match FindSecret(secrets[..n], id)
      case Some(i) => Some(i)
      case None => if secrets[n].outputId == id then Some(n) else None
  }

  function FindMetadata(metadata: seq<OutputMetadata>, id: nat): (r: Option<nat>)
    ensures r.Some? ==> r.value < |metadata| && metadata[r.value].outputId == id
    ensures r.Some? ==> forall i :: 0 <= i < r.value ==> metadata[i].outputId != id
    ensures r.None? ==> forall i :: 0 <= i < |metadata| ==> metadata[i].outputId != id
  {
    if metadata == [] then None
    else
      var n := |metadata| - 1;
      match FindMetadata(metadata[..n], id)
      case Some(i) => Some(i)
      case None => if metadata[n].outputId == id then Some(n) else None
  }

  function FindAnchor(window: seq<Anchor>, height: nat): (r: Option<nat>)
    ensures r.Some? ==> r.value < |window| && window[r.value].height == height
    ensures r.Some? ==> forall i :: 0 <= i < r.value ==> window[i].height != height
    ensures r.None? ==> forall i :: 0 <= i < |window| ==> window[i].height != height
  {
    if window == [] then None
    else
      var n := |window| - 1;
      match FindAnchor(window[..n], height)
      case Some(i) => Some(i)
      case None => if window[n].height == height then Some(n) else None
  }

  // ----- allocation floors

  function Floor(floors: Floors, domain: Domain): nat {
    match domain
    case Received => floors.received
    case Change => floors.change
    case SelfTransfer => floors.selfTransfer
    case Coinbase => floors.coinbase
  }

  function RaiseFloor(floors: Floors, domain: Domain, index: nat): (r: Floors)
    ensures Floor(r, domain) == Max(Floor(floors, domain), index)
    ensures forall d :: d != domain ==> Floor(r, d) == Floor(floors, d)
  {
    match domain
    case Received => floors.(received := Max(floors.received, index))
    case Change => floors.(change := Max(floors.change, index))
    case SelfTransfer => floors.(selfTransfer := Max(floors.selfTransfer, index))
    case Coinbase => floors.(coinbase := Max(floors.coinbase, index))
  }

  // ----- merging one recognised output

  function RecoveredState(r: Restored, spentAt: Option<nat>, tip: nat, maturity: nat)
    : Result<OutputState, RestoreError> {
    if spentAt.Some? then Ok(Spent(spentAt.value))
    else if r.isCoinbase && r.height + maturity > U64_MAX then Err(CoordinateOverflow)
    else if r.isCoinbase && tip < r.height + maturity then Ok(Immature(r.height + maturity))
    else Ok(Confirmed)
  }

  function MetadataFor(id: nat, r: Restored, position: nat): OutputMetadata {
    OutputMetadata(id, r.account, r.index, r.domain, r.isCoinbase, r.blockHash, position)
  }

  function RememberSecret(secrets: seq<OutputSecret>, id: nat, blinding: nat): seq<OutputSecret> {
    match FindSecret(secrets, id)
    case Some(i) => secrets[i := OutputSecret(id, blinding)]
    case None => secrets + [OutputSecret(id, blinding)]
  }

  function RaiseFloors(st: WalletState, r: Restored): WalletState {
    st.(floors := RaiseFloor(st.floors, r.domain, r.index), nonReuseFloor := Max(st.nonReuseFloor, r.index))
  }

  /** A record already carrying this commitment: the same recovery again, or a pending record to adopt. */
  function MergeExisting(st: WalletState, i: nat, r: Restored, position: nat, spentAt: Option<nat>,
                         tip: nat, maturity: nat): Result<WalletState, RestoreError>
    requires i < |st.outputs|
  {
    var record := st.outputs[i];
    match FindSecret(st.secrets, record.id)
    case None => Err(ConflictingOutput)
    case Some(k) =>
      var blinding := st.secrets[k].blinding;
      match FindMetadata(st.metadata, record.id)
      case Some(j) =>
        if && record.value == r.value && record.discovered == r.height && blinding == r.blinding
           && st.metadata[j].(isCoinbase := r.isCoinbase) == MetadataFor(record.id, r, position)
        then Ok(st)
        else Err(ConflictingOutput)
      case None =>
        if && record.value == r.value && record.account == r.account && record.discovered == 0
           && record.reservedBy.None? && record.state == PendingIncoming && blinding == r.blinding
        then
          var state :- RecoveredState(r, spentAt, tip, maturity);
          Ok(st.(outputs := st.outputs[i := record.(discovered := r.height, state := state)],
                 metadata := st.metadata + [MetadataFor(record.id, r, position)]))
        else Err(ConflictingOutput)
  }

  function MergeNew(st: WalletState, r: Restored, position: nat, state: OutputState): WalletState {
    var id := st.nextId;
    st.(outputs := st.outputs + [OutputRecord(id, r.account, Some(r.commitment), r.value, state, r.height, None)],
        secrets := RememberSecret(st.secrets, id, r.blinding),
        metadata := st.metadata + [MetadataFor(id, r, position)],
        nextId := id + 1)
  }

  function Merge(st: WalletState, r: Restored, position: nat, spentAt: Option<nat>,
                 tip: nat, maturity: nat): Result<WalletState, RestoreError> {
    var raised := RaiseFloors(st, r);
    match FindOutput(raised.outputs, r.commitment)
    case Some(i) => MergeExisting(raised, i, r, position, spentAt, tip, maturity)
    case None =>
      var state :- RecoveredState(r, spentAt, tip, maturity);
      Ok(MergeNew(raised, r, position, state))
  }

  /** The capsule scan reports in-page spends; the legacy recogniser does not. */
  function MergeAll(st: WalletState, list: seq<Restored>, batch: Batch, reportSpends: bool,
                    maturity: nat): Result<WalletState, RestoreError> {
    if list == [] then Ok(st)
    else
      var n := |list| - 1;
      var before :- MergeAll(st, list[..n], batch, reportSpends, maturity);
      match OutputAt(batch.blocks, list[n].commitment)
      case None => Err(MalformedRecovery)
      case Some(site) =>
        Merge(before, list[n], site.output.position,
              if reportSpends then SpentAt(batch.blocks, list[n].commitment) else None,
              batch.tip.height, maturity)
  }

  // ----- durable counters and the anchor window

  function SumOutputs(window: seq<Anchor>): nat {
    if window == [] then 0 else SumOutputs(window[..|window| - 1]) + window[|window| - 1].outputCount
  }

  function SumLegacy(window: seq<Anchor>): nat {
    if window == [] then 0 else SumLegacy(window[..|window| - 1]) + window[|window| - 1].legacyCount
  }

  /** `migrate_durable_scan_counters`: seed the counters of a pre-window state once. */
  function Migrate(st: WalletState): Result<WalletState, RestoreError> {
    if st.scannedBlocks != 0 || st.window == [] then Ok(st)
    else if SumOutputs(st.window) > U64_MAX then Err(CoordinateOverflow)
    else Ok(st.(scannedBlocks := |st.window|, scannedOutputs := SumOutputs(st.window)))
  }

  function AnchorOf(b: Block): Anchor {
    Anchor(b.height, b.hash, b.previous, |b.outputs|, ProofOnlyCount(b.outputs))
  }

  function RecordAnchor(st: WalletState, b: Block): Result<WalletState, RestoreError> {
    if ProofOnlyCount(b.outputs) > U32_MAX then Err(MalformedRecovery)
    else
      match FindAnchor(st.window, b.height)
      case Some(i) => if st.window[i].hash != b.hash then Err(ConflictingOutput) else Ok(st)
      case None =>
        if |b.outputs| > U32_MAX then Err(MalformedRecovery)
        else if st.scannedBlocks + 1 > U64_MAX then Err(CoordinateOverflow)
        else if st.scannedOutputs + |b.outputs| > U64_MAX then Err(CoordinateOverflow)
        else if st.legacyOutputs + ProofOnlyCount(b.outputs) > U64_MAX then Err(CoordinateOverflow)
        else Ok(st.(window := st.window + [AnchorOf(b)],
                    scannedBlocks := st.scannedBlocks + 1,
                    scannedOutputs := st.scannedOutputs + |b.outputs|,
                    legacyOutputs := st.legacyOutputs + ProofOnlyCount(b.outputs)))
  }

  function SpendOne(outputs: seq<OutputRecord>, c: Commitment, height: nat): Result<seq<OutputRecord>, RestoreError> {
    match FindOutput(outputs, c)
    case None => Ok(outputs)
    case Some(i) =>
      if outputs[i].state.Spent? && outputs[i].state.height != height then Err(ConflictingOutput)
      else Ok(outputs[i := outputs[i].(state := Spent(height), reservedBy := None)])
  }

  /** `prior` holds the inputs of the page's earlier blocks: an input may occur once per page. */
  function SpendInputs(outputs: seq<OutputRecord>, prior: seq<Commitment>, inputs: seq<Commitment>,
                       height: nat): Result<seq<OutputRecord>, RestoreError> {
    if inputs == [] then Ok(outputs)
    else
      var n := |inputs| - 1;
      var before :- SpendInputs(outputs, prior, inputs[..n], height);
      if inputs[n] in prior || inputs[n] in inputs[..n] then Err(ConflictingOutput)
      else SpendOne(before, inputs[n], height)
  }

  function RecordBlock(st: WalletState, prior: seq<Commitment>, b: Block): Result<WalletState, RestoreError> {
    var anchored :- RecordAnchor(st, b);
    var outputs :- SpendInputs(anchored.outputs, prior, b.inputs, b.height);
    Ok(anchored.(outputs := outputs))
  }

  function RecordBlocks(st: WalletState, blocks: seq<Block>): Result<WalletState, RestoreError> {
    if blocks == [] then Ok(st)
    else
      var n := |blocks| - 1;
      var before :- RecordBlocks(st, blocks[..n]);
      RecordBlock(before, SpentOn(blocks[..n]), blocks[n])
  }

  /** Stable insertion by height. */
  function InsertAnchor(window: seq<Anchor>, a: Anchor): (r: seq<Anchor>)
    ensures multiset(r) == multiset(window) + multiset{a}
  {
    if window == [] || window[|window| - 1].height <= a.height then window + [a]
    else
      var n := |window| - 1;
      assert window == window[..n] + [window[n]];
      InsertAnchor(window[..n], a) + [window[n]]
  }

  /** `sort_by_key(height)`. */
  function SortWindow(window: seq<Anchor>): (r: seq<Anchor>)
    ensures multiset(r) == multiset(window)
  {
    if window == [] then []
    else
      var n := |window| - 1;
      assert window == window[..n] + [window[n]];
      InsertAnchor(SortWindow(window[..n]), window[n])
  }

  function KeepFrom(window: seq<Anchor>, minimum: nat): seq<Anchor> {
    if window == [] then []
    else
      var n := |window| - 1;
      KeepFrom(window[..n], minimum) + (if window[n].height >= minimum then [window[n]] else [])
  }

  function KeepUpTo(window: seq<Anchor>, safe: nat): seq<Anchor> {
    if window == [] then []
    else
      var n := |window| - 1;
      KeepUpTo(window[..n], safe) + (if window[n].height <= safe then [window[n]] else [])
  }

  function WindowMinimum(last: nat): nat {
    SaturatingSub(last, WINDOW_BLOCKS - 1)
  }

  /** `prune_recovery_canonical_window`. */
  function Prune(window: seq<Anchor>): seq<Anchor> {
    if window == [] then []
    else
      var minimum := WindowMinimum(window[|window| - 1].height);
      if window[0].height < minimum then KeepFrom(window, minimum) else window
  }

  // ----- maturity

  function RefreshOne(o: OutputRecord, metadata: seq<OutputMetadata>, tip: nat, maturity: nat)
    : Result<OutputRecord, RestoreError> {
    if o.state.Spent? then Ok(o)
    else
      match FindMetadata(metadata, o.id)
      case None => Ok(o)
      case Some(j) =>
        if !metadata[j].isCoinbase then Ok(o.(state := Confirmed))
        else if o.discovered + maturity > U64_MAX then Err(CoordinateOverflow)
        else if tip < o.discovered + maturity then Ok(o.(state := Immature(o.discovered + maturity)))
        else Ok(o.(state := Confirmed))
  }

  /** `refresh_maturity`. */
  function Refresh(outputs: seq<OutputRecord>, metadata: seq<OutputMetadata>, tip: nat,
                   maturity: nat): Result<seq<OutputRecord>, RestoreError> {
    if outputs == [] then Ok([])
    else
      var n := |outputs| - 1;
      var before :- Refresh(outputs[..n], metadata, tip, maturity);
      var last :- RefreshOne(outputs[n], metadata, tip, maturity);
      Ok(before + [last])
  }

  // ----- one page

  /** `apply_recovery_batch`. */
  function ApplyBatch(st: WalletState, batch: Batch, maturity: nat): Result<WalletState, RestoreError> {
    var capsules :- MergeAll(st, CapsulesOn(batch.blocks), batch, true, maturity);
    var merged :- MergeAll(capsules, LegacyOn(batch.blocks), batch, false, maturity);
    var migrated :- Migrate(merged);
    var recorded :- RecordBlocks(migrated, batch.blocks);
    var outputs :- Refresh(recorded.outputs, recorded.metadata, batch.tip.height, maturity);
    Ok(recorded.(window := Prune(SortWindow(recorded.window)), outputs := outputs))
  }

  // ----- rewind

  function RemovedIds(outputs: seq<OutputRecord>, safe: nat): set<nat> {
    set o | o in outputs && o.discovered > safe :: o.id
  }

  function KeepOutputs(outputs: seq<OutputRecord>, safe: nat): seq<OutputRecord> {
    if outputs == [] then []
    else
      var n := |outputs| - 1;
      KeepOutputs(outputs[..n], safe) + (if outputs[n].discovered <= safe then [outputs[n]] else [])
  }

  function DropSecrets(secrets: seq<OutputSecret>, ids: set<nat>): seq<OutputSecret> {
    if secrets == [] then []
    else
      var n := |secrets| - 1;
      DropSecrets(secrets[..n], ids) + (if secrets[n].outputId !in ids then [secrets[n]] else [])
  }

  function DropMetadata(metadata: seq<OutputMetadata>, ids: set<nat>): seq<OutputMetadata> {
    if metadata == [] then []
    else
      var n := |metadata| - 1;
      DropMetadata(metadata[..n], ids) + (if metadata[n].outputId !in ids then [metadata[n]] else [])
  }

  function Above(window: seq<Anchor>, safe: nat): seq<Anchor> {
    if window == [] then []
    else
      var n := |window| - 1;
      Above(window[..n], safe) + (if window[n].height > safe then [window[n]] else [])
  }

  function Unspend(outputs: seq<OutputRecord>, safe: nat): (r: seq<OutputRecord>)
    ensures |r| == |outputs|
  {
    seq(|outputs|, i requires 0 <= i < |outputs| =>
      if outputs[i].state.Spent? && outputs[i].state.height > safe
      then outputs[i].(state := Confirmed) else outputs[i])
  }

  /** `rewind_recovery_state`; sums of u64 terms saturate at the width. */
  function Rewind(st: WalletState, safe: nat, tip: nat): Result<WalletState, RestoreError> {
    var ids := RemovedIds(st.outputs, safe);
    var metadata := DropMetadata(st.metadata, ids);
    var gone := Above(st.window, safe);
    var outputs :- Refresh(Unspend(KeepOutputs(st.outputs, safe), safe), metadata, tip, 0);
    Ok(st.(outputs := outputs,
           secrets := DropSecrets(st.secrets, ids),
           metadata := metadata,
           scannedBlocks := SaturatingSub(st.scannedBlocks, Min(|gone|, U64_MAX)),
           scannedOutputs := SaturatingSub(st.scannedOutputs, Min(SumOutputs(gone), U64_MAX)),
           legacyOutputs := SaturatingSub(st.legacyOutputs, Min(SumLegacy(gone), U64_MAX)),
           window := KeepUpTo(st.window, safe)))
  }

  // ----- one durable commit

  predicate WindowLinked(window: seq<Anchor>) {
    forall i :: 0 < i < |window| ==> Follows(window, i)
  }

  predicate Follows(window: seq<Anchor>, i: int)
    requires 0 < i < |window|
  {
    window[i].height == window[i - 1].height + 1 && window[i].previous == window[i - 1].hash
  }

  predicate HasOutput(outputs: seq<OutputRecord>, id: nat) {
    exists i :: 0 <= i < |outputs| && outputs[i].id == id
  }

  /** The clauses of `WalletState::validate` over the modelled fields. */
  predicate Validates(st: WalletState) {
    && |st.outputs| <= MAX_OUTPUTS
    && |st.window| <= MAX_OUTPUTS
    && WindowLinked(st.window)
    && (st.scannedBlocks != 0 ==> st.scannedBlocks >= |st.window|)
    && (forall k :: 0 <= k < |st.secrets| ==> HasOutput(st.outputs, st.secrets[k].outputId))
    && (forall i, j :: 0 <= i < j < |st.outputs| && st.outputs[i].commitment.Some? ==>
          st.outputs[i].commitment != st.outputs[j].commitment)
    && (forall i, j :: 0 <= i < j < |st.metadata| ==> st.metadata[i].outputId != st.metadata[j].outputId)
    && (forall k :: 0 <= k < |st.metadata| ==>
          && HasOutput(st.outputs, st.metadata[k].outputId)
          && (st.metadata[k].isCoinbase <==> st.metadata[k].domain == Coinbase)
          && st.metadata[k].blockHash != ZERO_HASH)
  }

  /** `RestoreSink::commit` up to the storage call: the state it asks the directory to write. */
  function Prepared(st: WalletState, batch: Batch, cursor: BlockRef, reorg: Option<BlockRef>,
                          maturity: nat): Result<WalletState, RestoreError> {
    var base :- if reorg.Some? then Rewind(st, reorg.value.height, batch.tip.height) else Ok(st);
    var applied :- ApplyBatch(base, batch, maturity);
    var next := applied.(cursor := Some(cursor));
    if Validates(next) then Ok(next) else Err(MalformedRecovery)
  }
}
