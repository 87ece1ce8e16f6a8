/** What merging one recovered output does to any wallet state, known, pending or new, and what undoes it. */
module Merging {
  import opened Wrappers
  import opened Blocks
  import opened RecoverySpec
  import opened RewindExactness

  /** Ids still to be given out are unused. */
  ghost predicate FreshIds(st: WalletState) {
    && (forall i :: 0 <= i < |st.outputs| ==> st.outputs[i].id < st.nextId)
    && (forall i :: 0 <= i < |st.secrets| ==> st.secrets[i].outputId < st.nextId)
    && (forall i :: 0 <= i < |st.metadata| ==> st.metadata[i].outputId < st.nextId)
  }

  ghost predicate HasSecret(st: WalletState, id: nat, blinding: nat) {
    FindSecret(st.secrets, id).Some? && st.secrets[FindSecret(st.secrets, id).value].blinding == blinding
  }

  /** Record `i` is this very recovery: public value and height, private blinding, and where it was found. */
  ghost predicate RecordedAs(st: WalletState, i: nat, r: Restored, position: nat) {
    && i < |st.outputs| && st.outputs[i].commitment == Some(r.commitment)
    && st.outputs[i].value == r.value && st.outputs[i].discovered == r.height
    && HasSecret(st, st.outputs[i].id, r.blinding)
    && var j := FindMetadata(st.metadata, st.outputs[i].id);
       && j.Some?
       && var m := st.metadata[j.value];
          && m.account == r.account && m.index == r.index && m.domain == r.domain
          && m.blockHash == r.blockHash && m.position == position
  }

  /** A locally created record the chain has not shown before, with the same private and public bindings. */
  ghost predicate Adoptable(st: WalletState, i: nat, r: Restored) {
    && i < |st.outputs| && st.outputs[i].commitment == Some(r.commitment)
    && st.outputs[i].state == PendingIncoming && st.outputs[i].reservedBy.None? && st.outputs[i].discovered == 0
    && st.outputs[i].value == r.value && st.outputs[i].account == r.account
    && HasSecret(st, st.outputs[i].id, r.blinding)
    && FindMetadata(st.metadata, st.outputs[i].id).None?
  }

  /** The place of an output in the outcome: where its commitment is, or at the end. */
  function PlaceOf(st: WalletState, c: Commitment): nat {
    match FindOutput(st.outputs, c)
    case Some(i) => i
    case None => |st.outputs|
  }

  /** Only the record at `i` is touched, and only secrets and metadata of that record are added. */
  ghost predicate OnlyTouches(st: WalletState, next: WalletState, i: nat) {
    && i <= |st.outputs| && |next.outputs| == Max(|st.outputs|, i + 1)
    && (forall j :: 0 <= j < |st.outputs| && j != i ==> next.outputs[j] == st.outputs[j])
    && st.secrets <= next.secrets && st.metadata <= next.metadata
    && (forall k :: |st.secrets| <= k < |next.secrets| ==> next.secrets[k].outputId == next.outputs[i].id)
    && (forall k :: |st.metadata| <= k < |next.metadata| ==> next.metadata[k].outputId == next.outputs[i].id)
    && next.window == st.window && next.cursor == st.cursor && next.generation == st.generation
    && next.scannedBlocks == st.scannedBlocks && next.scannedOutputs == st.scannedOutputs
    && next.legacyOutputs == st.legacyOutputs
  }

  lemma FoundSecret(secrets: seq<OutputSecret>, id: nat, blinding: nat)
    requires FindSecret(secrets, id).None?
    ensures FindSecret(secrets + [OutputSecret(id, blinding)], id) == Some(|secrets|)
  {
    hide FindSecret;
    assert (secrets + [OutputSecret(id, blinding)])[|secrets|].outputId == id;
  }

  lemma FoundMetadata(metadata: seq<OutputMetadata>, m: OutputMetadata)
    requires FindMetadata(metadata, m.outputId).None?
    ensures FindMetadata(metadata + [m], m.outputId) == Some(|metadata|)
  {
    hide FindMetadata;
    assert (metadata + [m])[|metadata|] == m;
  }

  lemma FoundOutput(outputs: seq<OutputRecord>, o: OutputRecord, c: Commitment)
    requires FindOutput(outputs, c).None? && o.commitment == Some(c)
    ensures FindOutput(outputs + [o], c) == Some(|outputs|)
  {
    hide FindOutput;
    assert (outputs + [o])[|outputs|] == o;
  }

  /** A merge into a record that is neither the same recovery nor an identical pending record is refused, and no other
      merge is: exactly the conflicts are conflicts. */
  lemma RefusedIff(st: WalletState, r: Restored, position: nat, spentAt: Option<nat>, tip: nat, maturity: nat)
    ensures Merge(st, r, position, spentAt, tip, maturity) == Err(ConflictingOutput) <==>
      && FindOutput(st.outputs, r.commitment).Some?
      && !RecordedAs(st, PlaceOf(st, r.commitment), r, position) && !Adoptable(st, PlaceOf(st, r.commitment), r)
    ensures Merge(st, r, position, spentAt, tip, maturity).Err? ==>
      || Merge(st, r, position, spentAt, tip, maturity) == Err(ConflictingOutput)
      || (spentAt.None? && r.isCoinbase && r.height + maturity > U64_MAX)
  {
    hide FindOutput, FindSecret, FindMetadata, RaiseFloor;
  }

  /** Merging the same recovery again changes nothing but the floors. */
  lemma MergedAgain(st: WalletState, r: Restored, position: nat, spentAt: Option<nat>, tip: nat, maturity: nat)
    requires FindOutput(st.outputs, r.commitment).Some? && RecordedAs(st, PlaceOf(st, r.commitment), r, position)
    ensures Merge(st, r, position, spentAt, tip, maturity) == Ok(RaiseFloors(st, r))
  {
    hide FindOutput, FindSecret, FindMetadata, RaiseFloor;
  }

  /** A pending record is adopted: it gets the height and the state of the recovery and keeps everything else. */
  lemma Adopted(st: WalletState, r: Restored, position: nat, spentAt: Option<nat>, tip: nat, maturity: nat)
    requires FindOutput(st.outputs, r.commitment).Some? && Adoptable(st, PlaceOf(st, r.commitment), r)
    requires Merge(st, r, position, spentAt, tip, maturity).Ok?
    ensures var i := PlaceOf(st, r.commitment);
      var next := Merge(st, r, position, spentAt, tip, maturity).value;
      && RecordedAs(next, i, r, position) && OnlyTouches(st, next, i)
      && PlaceOf(next, r.commitment) == i && FindOutput(next.outputs, r.commitment).Some?
      && RecoveredState(r, spentAt, tip, maturity) == Ok(next.outputs[i].state)
      && next.outputs[i] == st.outputs[i].(discovered := r.height, state := next.outputs[i].state)
  {
    hide FindOutput, FindSecret, FindMetadata, RaiseFloor, Merge, RecoveredState, RecordedAs, OnlyTouches;
    var next := Merge(st, r, position, spentAt, tip, maturity).value;
    AdoptedFields(st, r, position, spentAt, tip, maturity);
    AdoptedRecord(st, next, r, position);
  }

  /** The fields of a state after an adoption. */
  ghost predicate AdoptedFrom(st: WalletState, next: WalletState, i: nat, r: Restored, position: nat) {
    && i < |st.outputs| && |next.outputs| == |st.outputs|
    && next.outputs == st.outputs[i := st.outputs[i].(discovered := r.height, state := next.outputs[i].state)]
    && next.metadata == st.metadata + [MetadataFor(st.outputs[i].id, r, position)] && next.secrets == st.secrets
    && next.window == st.window && next.cursor == st.cursor && next.generation == st.generation
    && next.scannedBlocks == st.scannedBlocks && next.scannedOutputs == st.scannedOutputs
    && next.legacyOutputs == st.legacyOutputs
  }

  lemma AdoptedFields(st: WalletState, r: Restored, position: nat, spentAt: Option<nat>, tip: nat, maturity: nat)
    requires FindOutput(st.outputs, r.commitment).Some? && Adoptable(st, PlaceOf(st, r.commitment), r)
    requires Merge(st, r, position, spentAt, tip, maturity).Ok?
    ensures var next := Merge(st, r, position, spentAt, tip, maturity).value;
      && AdoptedFrom(st, next, PlaceOf(st, r.commitment), r, position)
      && RecoveredState(r, spentAt, tip, maturity) == Ok(next.outputs[PlaceOf(st, r.commitment)].state)
  {
    hide FindOutput, FindSecret, FindMetadata, RaiseFloor, RecoveredState;
  }

  lemma AdoptedRecord(st: WalletState, next: WalletState, r: Restored, position: nat)
    requires FindOutput(st.outputs, r.commitment).Some? && Adoptable(st, PlaceOf(st, r.commitment), r)
    requires AdoptedFrom(st, next, PlaceOf(st, r.commitment), r, position)
    ensures var i := PlaceOf(st, r.commitment);
      && RecordedAs(next, i, r, position) && OnlyTouches(st, next, i)
      && PlaceOf(next, r.commitment) == i && FindOutput(next.outputs, r.commitment).Some?
      && next.outputs[i] == st.outputs[i].(discovered := r.height, state := next.outputs[i].state)
  {
    hide FindOutput, FindSecret, FindMetadata;
    var i := PlaceOf(st, r.commitment);
    FoundMetadata(st.metadata, MetadataFor(st.outputs[i].id, r, position));
    KeepsPlace(st.outputs, next.outputs, r.commitment);
  }

  lemma {:induction false} KeepsPlace(a: seq<OutputRecord>, b: seq<OutputRecord>, c: Commitment)
    requires |a| == |b| && forall i :: 0 <= i < |a| ==> a[i].commitment == b[i].commitment
    ensures FindOutput(a, c) == FindOutput(b, c)
  {
    if a != [] {
      KeepsPlace(a[..|a| - 1], b[..|b| - 1], c);
    }
  }

  /** An unknown commitment becomes a new record under a fresh id. */
  lemma Added(st: WalletState, r: Restored, position: nat, spentAt: Option<nat>, tip: nat, maturity: nat)
    requires FreshIds(st) && FindOutput(st.outputs, r.commitment).None?
    requires Merge(st, r, position, spentAt, tip, maturity).Ok?
    ensures var i := |st.outputs|;
      var next := Merge(st, r, position, spentAt, tip, maturity).value;
      && RecordedAs(next, i, r, position) && OnlyTouches(st, next, i)
      && FindOutput(next.outputs, r.commitment) == Some(i)
      && RecoveredState(r, spentAt, tip, maturity) == Ok(next.outputs[i].state)
      && next.outputs[i].account == r.account && next.outputs[i].reservedBy.None?
      && (forall j :: 0 <= j < i ==> next.outputs[j].id != next.outputs[i].id)
  {
    hide FindOutput, FindSecret, FindMetadata, RaiseFloor;
    var next := Merge(st, r, position, spentAt, tip, maturity).value;
    FoundSecret(st.secrets, st.nextId, r.blinding);
    FoundMetadata(st.metadata, MetadataFor(st.nextId, r, position));
    FoundOutput(st.outputs, next.outputs[|st.outputs|], r.commitment);
  }

  /** MERGING. In any state with unused ids, a successful merge leaves a record of exactly this recovery, touches no
      other record, and raises the floors to the recovered index; repeating it, at any tip, changes nothing. */
  lemma MergeRecords(st: WalletState, r: Restored, position: nat, spentAt: Option<nat>, tip: nat, maturity: nat)
    requires FreshIds(st) && Merge(st, r, position, spentAt, tip, maturity).Ok?
    ensures var i := PlaceOf(st, r.commitment);
      var next := Merge(st, r, position, spentAt, tip, maturity).value;
      && RecordedAs(next, i, r, position) && OnlyTouches(st, next, i)
      && next.floors == RaiseFloor(st.floors, r.domain, r.index) && next.nonReuseFloor == Max(st.nonReuseFloor, r.index)
    ensures forall spentAt', tip', maturity' ::
      Merge(Merge(st, r, position, spentAt, tip, maturity).value, r, position, spentAt', tip', maturity') ==
      Ok(Merge(st, r, position, spentAt, tip, maturity).value)
  {
    hide FindOutput, FindSecret, FindMetadata, RecordedAs, Adoptable, OnlyTouches, RecoveredState, FreshIds;
    var next := Merge(st, r, position, spentAt, tip, maturity).value;
    RefusedIff(st, r, position, spentAt, tip, maturity);
    assert next.floors == RaiseFloor(st.floors, r.domain, r.index) && next.nonReuseFloor
        == Max(st.nonReuseFloor, r.index);
    MergeLeaves(st, r, position, spentAt, tip, maturity);
    forall spentAt', tip', maturity' ensures Merge(next, r, position, spentAt', tip', maturity') == Ok(next) {
      MergedAgain(next, r, position, spentAt', tip', maturity');
      RaisedTwice(st, next, r);
    }
  }

  lemma RaisedTwice(st: WalletState, next: WalletState, r: Restored)
    requires next.floors == RaiseFloor(st.floors, r.domain, r.index) && next.nonReuseFloor
      == Max(st.nonReuseFloor, r.index)
    ensures RaiseFloors(next, r) == next
  {
  }

  lemma MergeLeaves(st: WalletState, r: Restored, position: nat, spentAt: Option<nat>, tip: nat, maturity: nat)
    requires FreshIds(st) && Merge(st, r, position, spentAt, tip, maturity).Ok?
    ensures var i := PlaceOf(st, r.commitment);
      var next := Merge(st, r, position, spentAt, tip, maturity).value;
      && RecordedAs(next, i, r, position) && OnlyTouches(st, next, i)
      && FindOutput(next.outputs, r.commitment).Some? && PlaceOf(next, r.commitment) == i
  {
    hide FindOutput, FindSecret, FindMetadata, Merge, FreshIds, RecoveredState, Adoptable, RaiseFloor;
    var i := PlaceOf(st, r.commitment);
    RefusedIff(st, r, position, spentAt, tip, maturity);
    if FindOutput(st.outputs, r.commitment).None? {
      Added(st, r, position, spentAt, tip, maturity);
    } else if RecordedAs(st, i, r, position) {
      MergedAgain(st, r, position, spentAt, tip, maturity);
    } else {
      Adopted(st, r, position, spentAt, tip, maturity);
    }
  }

  // ----- and a rewind takes it away

  lemma {:induction false} RefreshKeepsCommitments(outputs: seq<OutputRecord>, metadata: seq<OutputMetadata>, tip: nat,
                                                   maturity: nat)
    requires Refresh(outputs, metadata, tip, maturity).Ok?
    ensures var r := Refresh(outputs, metadata, tip, maturity).value;
      |r| == |outputs| && forall i :: 0 <= i < |r| ==> r[i].commitment == outputs[i].commitment
  {
    if outputs != [] {
      RefreshKeepsCommitments(outputs[..|outputs| - 1], metadata, tip, maturity);
    }
  }

  /** A rewind below its height removes a merged output altogether, also one that was adopted: it does not become
      pending again. */
  lemma MergedThenRewound(st: WalletState, r: Restored, position: nat, spentAt: Option<nat>, tip: nat, maturity: nat,
                          safe: nat, newTip: nat)
    requires FreshIds(st) && Merge(st, r, position, spentAt, tip, maturity).Ok? && safe < r.height
    requires forall i, j :: 0 <= i < j < |st.outputs| && st.outputs[i].commitment.Some? ==>
      st.outputs[i].commitment != st.outputs[j].commitment
    requires Rewind(Merge(st, r, position, spentAt, tip, maturity).value, safe, newTip).Ok?
    ensures FindOutput(Rewind(Merge(st, r, position, spentAt, tip, maturity).value, safe, newTip).value.outputs,
                       r.commitment)
         == None
  {
    hide FindSecret, FindMetadata, Merge, RaiseFloor, FreshIds, KeepOutputs, DropSecrets, DropMetadata, Refresh,
         HasSecret;
    var next := Merge(st, r, position, spentAt, tip, maturity).value;
    MergeLeaves(st, r, position, spentAt, tip, maturity);
    OneRecord(st, next, r.commitment);
    var kept := KeepOutputs(next.outputs, safe);
    FilterSubset(next.outputs, safe);
    var ids := RemovedIds(next.outputs, safe);
    RefreshKeepsCommitments(Unspend(kept, safe), DropMetadata(next.metadata, ids), newTip, 0);
    var end := Rewind(next, safe, newTip).value.outputs;
    forall k | 0 <= k < |end| ensures end[k].commitment != Some(r.commitment) {
      assert kept[k] in kept;
    }
  }

  /** The place of the commitment is its only one. */
  lemma OneRecord(st: WalletState, next: WalletState, c: Commitment)
    requires OnlyTouches(st, next, PlaceOf(st, c)) && next.outputs[PlaceOf(st, c)].commitment == Some(c)
    requires forall i, j :: 0 <= i < j < |st.outputs| && st.outputs[i].commitment.Some? ==>
      st.outputs[i].commitment != st.outputs[j].commitment
    ensures forall o :: o in next.outputs && o.commitment == Some(c) ==> o == next.outputs[PlaceOf(st, c)]
  {
    var i := PlaceOf(st, c);
    forall j | 0 <= j < |next.outputs| && next.outputs[j].commitment == Some(c) ensures j == i {
    }
  }
}
