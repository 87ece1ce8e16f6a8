/** The reference the recovery state must agree with: one straight scan of a
    branch, and the relation between a wallet state and that scan. */
module StraightScan {
  import opened Wrappers
  import opened Blocks
  import opened RecoverySpec

  /** One owned output as a reader of the wallet sees it: ids and list order forgotten. */
  datatype Entry = Entry(found: Found, state: OutputState)

  function ScanState(r: Restored, spentAt: Option<nat>, tip: nat, maturity: nat): OutputState {
    if spentAt.Some? then Spent(spentAt.value)
    else if r.isCoinbase && tip < r.height + maturity then Immature(r.height + maturity)
    else Confirmed
  }

  /** What one straight scan of `branch`, observed at `tip`, says about commitment `c`. */
  function Scan(branch: seq<Block>, tip: nat, maturity: nat, c: Commitment): Option<Entry> {
    match OwnedAt(branch, c)
    case None => None
    case Some(f) => Some(Entry(f, ScanState(f.restored, SpentAt(branch, c), tip, maturity)))
  }

  // ----- reading a wallet state

  /** Record, secret and metadata of every output stand at the same place, under fresh
      ascending ids; commitments are present and distinct; nothing is reserved. */
  ghost predicate AlignedParts(outputs: seq<OutputRecord>, secrets: seq<OutputSecret>, metadata: seq<OutputMetadata>) {
    && |outputs| == |secrets| == |metadata|
    && (forall i :: 0 <= i < |outputs| ==>
          && secrets[i].outputId == outputs[i].id == metadata[i].outputId
          && outputs[i].commitment.Some? && outputs[i].reservedBy.None? && metadata[i].account == outputs[i].account)
    && (forall i, j :: 0 <= i < j < |outputs| ==>
          outputs[i].id < outputs[j].id && outputs[i].commitment != outputs[j].commitment)
  }

  ghost predicate Aligned(st: WalletState) {
    && AlignedParts(st.outputs, st.secrets, st.metadata)
    && forall i :: 0 <= i < |st.outputs| ==> st.outputs[i].id < st.nextId
  }

  function EntryOf(o: OutputRecord, s: OutputSecret, m: OutputMetadata): Entry
    requires o.commitment.Some?
  {
    Entry(Found(Restored(o.commitment.value, o.value, s.blinding, m.account, m.index, m.domain, o.discovered,
                         m.blockHash, m.isCoinbase), m.position), o.state)
  }

  ghost function EntryIn(outputs: seq<OutputRecord>, secrets: seq<OutputSecret>, metadata: seq<OutputMetadata>,
                         c: Commitment): Option<Entry>
    requires AlignedParts(outputs, secrets, metadata)
  {
    match FindOutput(outputs, c)
    case None => None
    case Some(i) => Some(EntryOf(outputs[i], secrets[i], metadata[i]))
  }

  ghost function EntryFor(st: WalletState, c: Commitment): Option<Entry>
    requires Aligned(st)
  {
    EntryIn(st.outputs, st.secrets, st.metadata, c)
  }

  lemma EntryAt(st: WalletState, i: nat)
    requires Aligned(st) && i < |st.outputs|
    ensures FindOutput(st.outputs, st.outputs[i].commitment.value) == Some(i)
    ensures EntryFor(st, st.outputs[i].commitment.value) ==
            Some(EntryOf(st.outputs[i], st.secrets[i], st.metadata[i]))
  {
  }

  lemma MetadataAt(outputs: seq<OutputRecord>, secrets: seq<OutputSecret>, metadata: seq<OutputMetadata>, i: nat)
    requires AlignedParts(outputs, secrets, metadata) && i < |outputs|
    ensures FindMetadata(metadata, outputs[i].id) == Some(i)
    ensures FindSecret(secrets, outputs[i].id) == Some(i)
  {
  }

  // ----- agreement with a branch

  /** Owned outputs agree with the branch in every respect but maturity. */
  ghost predicate Tracks(st: WalletState, branch: seq<Block>) {
    Aligned(st) && forall c :: TracksAt(st, branch, c)
  }

  function SpendOf(state: OutputState): Option<nat> {
    if state.Spent? then Some(state.height) else None
  }

  ghost predicate TracksAt(st: WalletState, branch: seq<Block>, c: Commitment)
    requires Aligned(st)
  {
    match OwnedAt(branch, c)
    case None => EntryFor(st, c).None?
    case Some(f) =>
      && EntryFor(st, c).Some? && EntryFor(st, c).value.found == f
      && SpendOf(EntryFor(st, c).value.state) == SpentAt(branch, c)
  }

  /** The owned outputs are exactly those of one straight scan. */
  ghost predicate OwnedExact(st: WalletState, branch: seq<Block>, tip: nat, maturity: nat) {
    Aligned(st) && forall c :: EntryFor(st, c) == Scan(branch, tip, maturity, c)
  }

  lemma ExactTracks(st: WalletState, branch: seq<Block>, tip: nat, maturity: nat)
    requires OwnedExact(st, branch, tip, maturity)
    ensures Tracks(st, branch)
  {
    forall c ensures TracksAt(st, branch, c) {
      assert EntryFor(st, c) == Scan(branch, tip, maturity, c);
    }
  }

  function Anchors(blocks: seq<Block>): (r: seq<Anchor>)
    ensures |r| == |blocks|
    ensures forall i :: 0 <= i < |r| ==> r[i] == AnchorOf(blocks[i])
  {
    seq(|blocks|, i requires 0 <= i < |blocks| => AnchorOf(blocks[i]))
  }

  /** Counters are whole-branch totals; the window holds the branch from index `low` up. */
  ghost predicate Counted(st: WalletState, branch: seq<Block>, low: nat) {
    && low <= |branch|
    && st.window == Anchors(branch[low..])
    && st.scannedBlocks == |branch|
    && st.scannedOutputs == OutputTotal(branch)
    && st.legacyOutputs == ProofOnlyTotal(branch)
  }

  /** Everything on the branch fits the machine integers of the wallet state. */
  ghost predicate Representable(branch: seq<Block>, maturity: nat) {
    && |branch| <= U64_MAX && OutputTotal(branch) <= U64_MAX && ProofOnlyTotal(branch) <= U64_MAX
    && forall i :: 0 <= i < |branch| ==>
         |branch[i].outputs| <= U32_MAX && branch[i].height + maturity <= U64_MAX
  }
}
