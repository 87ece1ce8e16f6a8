/** Canonical blocks as the wallet sees them, and what a branch of them means.

    Hashes and commitments are opaque values; zero stands for the all-zero hash.
    What the wallet seed can prove about an output (capsule decryption or the
    legacy coinbase derivation) is carried by the output itself as `owned`: the
    two foreign recognisers are functions of the output, so recording their
    answer next to it loses nothing. */
module Blocks {
  import opened Wrappers

  type Hash = nat
  type Commitment = nat
  const ZERO_HASH: Hash := 0

  datatype BlockRef = BlockRef(height: nat, hash: Hash)

  datatype Domain = Received | Change | SelfTransfer | Coinbase

  datatype Ownership = Ownership(value: nat, blinding: nat, account: nat, index: nat, domain: Domain)

  /** `proofOnly`: recovery version zero and an empty recovery capsule. */
  datatype ScanOutput = ScanOutput(
    commitment: Commitment,
    position: nat,
    isCoinbase: bool,
    proofOnly: bool,
    owned: Option<Ownership>)

  datatype Block = Block(
    height: nat,
    hash: Hash,
    previous: Hash,
    outputs: seq<ScanOutput>,
    inputs: seq<Commitment>,
    coinbaseCommitment: Commitment,
    coinbaseValue: nat)

  /** An output the wallet recognises as its own, as the recognisers report it. */
  datatype Restored = Restored(
    commitment: Commitment,
    value: nat,
    blinding: nat,
    account: nat,
    index: nat,
    domain: Domain,
    height: nat,
    blockHash: Hash,
    isCoinbase: bool)

  // ----- shape of a branch

  /** Blocks at consecutive heights from `first`, each naming its predecessor's hash. */
  ghost predicate Linked(blocks: seq<Block>, first: nat) {
    && (forall i :: 0 <= i < |blocks| ==> blocks[i].height == first + i && blocks[i].hash != ZERO_HASH)
    && (forall i :: 0 < i < |blocks| ==> Joins(blocks, i))
  }

  predicate Joins(blocks: seq<Block>, i: int)
    requires 0 < i < |blocks|
  {
    blocks[i].previous == blocks[i - 1].hash
  }

  /** A hash identifies a block: no two different blocks of `universe` share one. */
  ghost predicate CollisionFree(universe: set<Block>) {
    forall a, b :: a in universe && b in universe && a.hash == b.hash ==> a == b
  }

  // ----- created and spent commitments

  function Created(outputs: seq<ScanOutput>): (r: seq<Commitment>)
    ensures |r| == |outputs|
    ensures forall i :: 0 <= i < |r| ==> r[i] == outputs[i].commitment
  {
    seq(|outputs|, i requires 0 <= i < |outputs| => outputs[i].commitment)
  }

  function CreatedOn(blocks: seq<Block>): seq<Commitment> {
    if blocks == [] then [] else CreatedOn(blocks[..|blocks| - 1]) + Created(blocks[|blocks| - 1].outputs)
  }

  function SpentOn(blocks: seq<Block>): seq<Commitment> {
    if blocks == [] then [] else SpentOn(blocks[..|blocks| - 1]) + blocks[|blocks| - 1].inputs
  }

  lemma {:induction false} FlattenAppend(a: seq<Block>, b: seq<Block>)
    ensures CreatedOn(a + b) == CreatedOn(a) + CreatedOn(b)
    ensures SpentOn(a + b) == SpentOn(a) + SpentOn(b)
  {
    if b == [] {
      assert a + b == a;
    } else {
      var n := |b| - 1;
      FlattenAppend(a, b[..n]);
      assert (a + b)[..|a + b| - 1] == a + b[..n];
      assert (a + b)[|a + b| - 1] == b[n];
      var x, y, z := CreatedOn(a), CreatedOn(b[..n]), Created(b[n].outputs);
      assert (x + y) + z == x + (y + z);
      var u, v, w := SpentOn(a), SpentOn(b[..n]), b[n].inputs;
      assert (u + v) + w == u + (v + w);
    }
  }

  // ----- what the wallet owns on a branch

  predicate IsLegacyCoinbase(b: Block, o: ScanOutput) {
    o.isCoinbase && o.proofOnly && o.commitment == b.coinbaseCommitment
  }

  /** The output `restore_legacy_coinbase` looks at: the first that qualifies. */
  function LegacyOutput(b: Block, outputs: seq<ScanOutput>): (r: Option<ScanOutput>)
    ensures r.Some? ==> r.value in outputs && IsLegacyCoinbase(b, r.value)
    ensures r.None? ==> forall o :: o in outputs ==> !IsLegacyCoinbase(b, o)
  {
    if outputs == [] then None
    else if IsLegacyCoinbase(b, outputs[0]) then Some(outputs[0])
    else LegacyOutput(b, outputs[1..])
  }

  function CapsuleRestored(b: Block, o: ScanOutput): Restored
    requires o.owned.Some?
  {
    var w := o.owned.value;
    Restored(o.commitment, w.value, w.blinding, w.account, w.index, w.domain, b.height, b.hash, o.isCoinbase)
  }

  function LegacyRestored(b: Block, o: ScanOutput): Restored
    requires o.owned.Some?
  {
    Restored(o.commitment, b.coinbaseValue, o.owned.value.blinding, 0, b.height, Coinbase, b.height, b.hash, true)
  }

  /** The outputs `restore_canonical_scan` reports for one block. */
  function Capsules(b: Block, outputs: seq<ScanOutput>): seq<Restored> {
    if outputs == [] then []
    else
      var n := |outputs| - 1;
      var o := outputs[n];
      Capsules(b, outputs[..n]) + (if !o.proofOnly && o.owned.Some? then [CapsuleRestored(b, o)] else [])
  }

  function CapsulesOn(blocks: seq<Block>): seq<Restored> {
    if blocks == [] then []
    else CapsulesOn(blocks[..|blocks| - 1]) + Capsules(blocks[|blocks| - 1], blocks[|blocks| - 1].outputs)
  }

  function Legacy(b: Block): seq<Restored> {
    match LegacyOutput(b, b.outputs)
    case Some(o) => if o.owned.Some? then [LegacyRestored(b, o)] else []
    case None => []
  }

  function LegacyOn(blocks: seq<Block>): seq<Restored> {
    if blocks == [] then [] else LegacyOn(blocks[..|blocks| - 1]) + Legacy(blocks[|blocks| - 1])
  }

  /** The height at which a branch spends a commitment, if it does. */
  function SpentAt(blocks: seq<Block>, c: Commitment): Option<nat> {
    if blocks == [] then None
    else
      var last := blocks[|blocks| - 1];
      if c in last.inputs then Some(last.height) else SpentAt(blocks[..|blocks| - 1], c)
  }

  /** Where a branch creates a commitment (the last place, should there be several). */
  datatype Site = Site(block: Block, output: ScanOutput)

  function OutputIn(outputs: seq<ScanOutput>, c: Commitment): Option<ScanOutput> {
    if outputs == [] then None
    else if outputs[|outputs| - 1].commitment == c then Some(outputs[|outputs| - 1])
    else OutputIn(outputs[..|outputs| - 1], c)
  }

  function OutputAt(blocks: seq<Block>, c: Commitment): Option<Site> {
    if blocks == [] then None
    else
      var last := blocks[|blocks| - 1];
      match OutputIn(last.outputs, c)
      case Some(o) => Some(Site(last, o))
      case None => OutputAt(blocks[..|blocks| - 1], c)
  }

  /** Whether, and as what, the wallet recognises the output at a site. */
  function Recognised(s: Site): Option<Restored> {
    if s.output.owned.None? then None
    else if !s.output.proofOnly then Some(CapsuleRestored(s.block, s.output))
    else if LegacyOutput(s.block, s.block.outputs) == Some(s.output) then Some(LegacyRestored(s.block, s.output))
    else None
  }

  /** An owned output together with its recorded position. */
  datatype Found = Found(restored: Restored, position: nat)

  function OwnedAt(blocks: seq<Block>, c: Commitment): Option<Found> {
    match OutputAt(blocks, c)
    case None => None
    case Some(s) =>
      match Recognised(s)
      case None => None
      case Some(r) => Some(Found(r, s.output.position))
  }

  // ----- whole-branch totals

  function ProofOnlyCount(outputs: seq<ScanOutput>): nat {
    if outputs == [] then 0
    else ProofOnlyCount(outputs[..|outputs| - 1]) + (if outputs[|outputs| - 1].proofOnly then 1 else 0)
  }

  function OutputTotal(blocks: seq<Block>): nat {
    if blocks == [] then 0 else OutputTotal(blocks[..|blocks| - 1]) + |blocks[|blocks| - 1].outputs|
  }

  function ProofOnlyTotal(blocks: seq<Block>): nat {
    if blocks == [] then 0
    else ProofOnlyTotal(blocks[..|blocks| - 1]) + ProofOnlyCount(blocks[|blocks| - 1].outputs)
  }
}
