/** Cores whose answers during one phase describe a single hash-linked chain: truthful ones, which may fail or
    serve too little at any time, and honest ones, which also answer. */
module HonestCore {
  import opened Wrappers
  import opened Blocks
  import opened BranchFacts
  import opened RecoverySpec
  import opened StraightScan
  import opened PageApplication
  import opened ScanAdapter

  function TipOf(chain: seq<Block>): BlockRef
    requires chain != []
  {
    RefOf(chain[|chain| - 1])
  }

  function HashOn(chain: seq<Block>, height: nat): Option<Hash> {
    if height < |chain| then Some(chain[height].hash) else None
  }

  predicate OnChain(chain: seq<Block>, r: BlockRef) {
    r.height < |chain| && chain[r.height].hash == r.hash
  }

  /** A served page: some blocks of the chain from `start`, at least one if there is any left
      (a chain of nothing but genesis may be served empty), with a continuation below the tip. */
  ghost predicate Served(chain: seq<Block>, start: nat, limit: nat, r: ScanResult)
    requires chain != []
  {
    && r.tip == TipOf(chain)
    && |r.blocks| <= limit && start + |r.blocks| <= |chain|
    && r.blocks == chain[start..start + |r.blocks|]
    && (r.blocks == [] ==> start == |chain| || (start == 0 && |chain| == 1))
    && r.continuation == (if r.blocks != [] && start + |r.blocks| < |chain|
                          then Some(Continuation(start + |r.blocks|, RefOf(r.blocks[|r.blocks| - 1]))) else None)
  }

  ghost predicate Honest(api: Api, chain: seq<Block>) {
    && chain != [] && Linked(chain, 0) && chain[0].previous == ZERO_HASH && |chain| <= U64_MAX
    && api.tip == Ok(TipOf(chain))
    && (forall h :: api.hashAt(h) == Ok(HashOn(chain, h)))
    && (forall r :: api.validates(r) == Ok(OnChain(chain, r)))
    && (forall start: nat, limit: nat :: start <= |chain| && limit > 0 ==>
          api.scanFrom(start, limit).Ok? && Served(chain, start, limit, api.scanFrom(start, limit).value))
    && (forall r, limit: nat :: OnChain(chain, r) && limit > 0 ==>
          api.scanNext(r, limit).Ok? && Served(chain, r.height + 1, limit, api.scanNext(r, limit).value))
  }

  /** The answers a truthful Core does give agree with the chain. It may fail any call, serve an empty page or a
      wrong continuation; a page it serves holds blocks of the chain and the chain's tip. */
  ghost predicate Truthful(api: Api, chain: seq<Block>) {
    && chain != [] && Linked(chain, 0)
    && (api.tip.Ok? ==> api.tip.value == TipOf(chain))
    && (forall h :: api.hashAt(h).Ok? ==> api.hashAt(h).value == HashOn(chain, h))
    && (forall r :: api.validates(r).Ok? ==> api.validates(r).value == OnChain(chain, r))
    && (forall start: nat, limit: nat :: start <= |chain| && limit > 0 && api.scanFrom(start, limit).Ok? ==>
          Holds(chain, start, api.scanFrom(start, limit).value))
    && (forall r, limit: nat :: OnChain(chain, r) && limit > 0 && api.scanNext(r, limit).Ok? ==>
          Holds(chain, r.height + 1, api.scanNext(r, limit).value))
  }

  ghost predicate Holds(chain: seq<Block>, start: nat, r: ScanResult)
    requires chain != []
  {
    r.tip == TipOf(chain) && start + |r.blocks| <= |chain| && r.blocks == chain[start..start + |r.blocks|]
  }

  ghost predicate InUniverse(blocks: seq<Block>, universe: set<Block>) {
    forall i :: 0 <= i < |blocks| ==> blocks[i] in universe
  }

  lemma HeightAt(chain: seq<Block>, i: nat)
    requires Linked(chain, 0) && i < |chain|
    ensures chain[i].height == i && chain[i].hash != ZERO_HASH
  {
  }

  /** A branch whose last hash is on the chain lies on the chain: hashes bind all the way down. */
  lemma {:induction false} BranchOnChain(branch: seq<Block>, first: nat, chain: seq<Block>, universe: set<Block>,
                                         i: nat)
    requires CollisionFree(universe) && InUniverse(branch, universe) && InUniverse(chain, universe)
    requires Linked(branch, first) && Linked(chain, 0)
    requires i < |branch| && first + |branch| <= |chain|
    requires chain[first + |branch| - 1].hash == branch[|branch| - 1].hash
    ensures branch[i] == chain[first + i]
    decreases |branch| - i
  {
    if i + 1 < |branch| {
      BranchOnChain(branch, first, chain, universe, i + 1);
      assert Joins(branch, i + 1) && Joins(chain, first + i + 1);
    }
  }

  lemma BranchIsSlice(branch: seq<Block>, first: nat, chain: seq<Block>, universe: set<Block>)
    requires CollisionFree(universe) && InUniverse(branch, universe) && InUniverse(chain, universe)
    requires Linked(branch, first) && Linked(chain, 0)
    requires branch != [] && first + |branch| <= |chain|
    requires chain[first + |branch| - 1].hash == branch[|branch| - 1].hash
    ensures branch == chain[first..first + |branch|]
  {
    forall i | 0 <= i < |branch| ensures branch[i] == chain[first + i] {
      BranchOnChain(branch, first, chain, universe, i);
    }
  }

  /** Parts of a valid chain are valid. */
  lemma SliceValid(chain: seq<Block>, i: nat, j: nat, maturity: nat)
    requires i <= j <= |chain|
    requires Linked(chain, 0) && Consistent(chain) && Representable(chain, maturity)
    ensures Linked(chain[i..j], i) && Consistent(chain[i..j]) && Representable(chain[i..j], maturity)
  {
    hide Linked, Consistent, Representable;
    var a, b, c := chain[..i], chain[i..j], chain[j..];
    assert chain == a + (b + c);
    ConsistentParts(a, b + c);
    ConsistentParts(b, c);
    LinkedParts(a, b + c, 0);
    LinkedParts(b, c, i);
    RepresentableParts(a, b + c, maturity);
    RepresentableParts(b, c, maturity);
  }

  lemma RepresentableParts(a: seq<Block>, b: seq<Block>, maturity: nat)
    requires Representable(a + b, maturity)
    ensures Representable(a, maturity) && Representable(b, maturity)
  {
    hide OutputTotal, ProofOnlyTotal;
    TotalsAppend(a, b);
    forall k | 0 <= k < |a| ensures |a[k].outputs| <= U32_MAX && a[k].height + maturity <= U64_MAX {
      assert (a + b)[k] == a[k];
    }
    forall k | 0 <= k < |b| ensures |b[k].outputs| <= U32_MAX && b[k].height + maturity <= U64_MAX {
      assert (a + b)[|a| + k] == b[k];
    }
  }

  lemma SliceLinked(chain: seq<Block>, i: nat, j: nat)
    requires i <= j <= |chain| && Linked(chain, 0)
    ensures Linked(chain[i..j], i)
  {
    assert chain == chain[..i] + chain[i..];
    LinkedParts(chain[..i], chain[i..], 0);
    LinkedPrefix(chain[i..], i, j - i);
    assert chain[i..][..j - i] == chain[i..j];
  }

  // ----- what the adapter gets from a truthful Core

  /** An accepted page from a truthful Core is a slice of its chain. */
  lemma TruthfulScanFrom(cfg: Config, api: Api, chain: seq<Block>, start: nat)
    requires Truthful(api, chain) && ScanFrom(cfg, api, start).Ok?
    ensures var page := ScanFrom(cfg, api, start).value;
            var blocks := page.batch.blocks;
            && page.batch.tip == TipOf(chain)
            && start + |blocks| <= |chain| && blocks == chain[start..start + |blocks|]
            && |blocks| <= MAX_BATCH_BLOCKS
            && (blocks != [] ==> page.cursor == Some(RefOf(blocks[|blocks| - 1])))
            && (blocks == [] ==> page.cursor == if start == 0 && |chain| == 1 then Some(TipOf(chain)) else None)
  {
    hide CheckBlocks;
    assert start > 0 && api.hashAt(start - 1).Ok? ==> api.hashAt(start - 1).value == HashOn(chain, start - 1);
    var result := api.scanFrom(start, cfg.maximumBatch).value;
    assert Holds(chain, start, result);
    HeightAt(chain, |chain| - 1);
  }

  lemma TruthfulScanNext(cfg: Config, api: Api, chain: seq<Block>, a: BlockRef)
    requires Truthful(api, chain) && ScanNext(cfg, api, a).Ok?
    ensures OnChain(chain, a)
    ensures var page := ScanNext(cfg, api, a).value;
            var blocks := page.batch.blocks;
            var start := a.height + 1;
            && page.batch.tip == TipOf(chain)
            && start + |blocks| <= |chain| && blocks == chain[start..start + |blocks|]
            && |blocks| <= MAX_BATCH_BLOCKS
            && (blocks == [] ==> page.cursor == None)
            && (blocks != [] ==> page.cursor == Some(RefOf(blocks[|blocks| - 1])))
  {
    hide CheckBlocks;
    assert api.validates(a).Ok? ==> api.validates(a).value == OnChain(chain, a);
    var result := api.scanNext(a, cfg.maximumBatch).value;
    assert Holds(chain, a.height + 1, result);
  }

  lemma TruthfulLinked(api: Api, chain: seq<Block>)
    requires Truthful(api, chain)
    ensures chain != [] && Linked(chain, 0)
  {
  }

  lemma HonestIsTruthful(api: Api, chain: seq<Block>)
    requires Honest(api, chain)
    ensures Truthful(api, chain)
  {
  }

  /** From an honest Core an accepted page is empty only at the end of its chain. */
  lemma HonestScanFrom(cfg: Config, api: Api, chain: seq<Block>, start: nat)
    requires Honest(api, chain) && ScanFrom(cfg, api, start).Ok? && start <= |chain|
    ensures ScanFrom(cfg, api, start).value.batch.blocks == [] ==> start == |chain| || (start == 0 && |chain| == 1)
  {
    hide CheckBlocks, CursorFor;
    assert Served(chain, start, cfg.maximumBatch, api.scanFrom(start, cfg.maximumBatch).value);
  }

  lemma HonestScanNext(cfg: Config, api: Api, chain: seq<Block>, a: BlockRef)
    requires Honest(api, chain) && ScanNext(cfg, api, a).Ok? && OnChain(chain, a)
    ensures ScanNext(cfg, api, a).value.batch.blocks == [] <==> a.height + 1 == |chain|
  {
    hide CheckBlocks, CursorFor;
    assert Served(chain, a.height + 1, cfg.maximumBatch, api.scanNext(a, cfg.maximumBatch).value);
  }

  /** An honest Core's pages are never refused. */
  lemma ServedAccepted(cfg: Config, api: Api, chain: seq<Block>, start: nat, anchor: Option<BlockRef>,
                       result: ScanResult)
    requires Honest(api, chain) && LimitAllowed(cfg) && start <= |chain|
    requires Served(chain, start, cfg.maximumBatch, result)
    requires anchor.Some? ==> OnChain(chain, anchor.value) && anchor.value.height + 1 == start
    ensures ValidatePage(cfg, api, result, start, anchor).Ok?
  {
    hide CheckBlocks, CursorFor, Honest, Linked;
    HonestAnswers(api, chain);
    var tip := |chain| - 1;
    HeightAt(chain, tip);
    assert api.hashAt(tip) == Ok(HashOn(chain, tip));
    var previous := if start == 0 then ZERO_HASH else chain[start - 1].hash;
    if start > 0 && anchor.None? {
      assert api.hashAt(start - 1) == Ok(HashOn(chain, start - 1));
    }
    SliceLinked(chain, start, start + |result.blocks|);
    if result.blocks != [] {
      assert result.blocks[0] == chain[start];
      FirstJoins(chain, start);
    }
    CheckBlocksIff(result.blocks, start, previous);
    CursorAccepted(api, chain, start, result);
  }

  lemma HonestAnswers(api: Api, chain: seq<Block>)
    requires Honest(api, chain)
    ensures chain != [] && Linked(chain, 0) && |chain| <= U64_MAX
    ensures forall h :: api.hashAt(h) == Ok(HashOn(chain, h))
    ensures forall r :: api.validates(r) == Ok(OnChain(chain, r))
    ensures chain[0].previous == ZERO_HASH
  {
  }

  lemma FirstJoins(chain: seq<Block>, start: nat)
    requires Linked(chain, 0) && start < |chain|
    ensures start > 0 ==> chain[start].previous == chain[start - 1].hash
  {
    if start > 0 {
      assert Joins(chain, start);
    }
  }

  lemma CursorAccepted(api: Api, chain: seq<Block>, start: nat, result: ScanResult)
    requires Honest(api, chain) && start <= |chain| && start + |result.blocks| <= |chain|
    requires Served(chain, start, |result.blocks|, result)
    ensures CursorFor(result, start, api).Ok?
  {
    hide Honest, Linked;
    HonestAnswers(api, chain);
    HeightAt(chain, |chain| - 1);
    if result.blocks == [] {
      var cursor := BlockRef(0, result.tip.hash);
      assert api.validates(cursor) == Ok(OnChain(chain, cursor));
    } else {
      var last := result.blocks[|result.blocks| - 1];
      var h := start + |result.blocks| - 1;
      HeightAt(chain, h);
      assert last == chain[h];
      assert api.validates(RefOf(last)) == Ok(OnChain(chain, RefOf(last)));
    }
  }

  // ----- honest Cores exist

  /** The greediest page: as many blocks as the limit allows. */
  function PageOf(chain: seq<Block>, start: nat, limit: nat): ScanResult
    requires chain != []
  {
    if start > |chain| then ScanResult(TipOf(chain), [], None)
    else
      var end := Min(start + limit, |chain|);
      var blocks := chain[start..end];
      ScanResult(TipOf(chain), blocks,
                 if blocks != [] && end < |chain| then Some(Continuation(end, RefOf(blocks[|blocks| - 1]))) else None)
  }

  function CoreOf(chain: seq<Block>): Api
    requires chain != []
  {
    Api(Ok(TipOf(chain)),
        (h: nat) => Ok(HashOn(chain, h)),
        (r: BlockRef) => Ok(OnChain(chain, r)),
        (start: nat, limit: nat) => Ok(PageOf(chain, start, limit)),
        (r: BlockRef, limit: nat) => Ok(PageOf(chain, r.height + 1, limit)))
  }

  /** Every linked chain from genesis has an honest Core, so statements about honest Cores are about all such chains. */
  lemma EveryChainHasACore(chain: seq<Block>)
    requires chain != [] && Linked(chain, 0) && chain[0].previous == ZERO_HASH && |chain| <= U64_MAX
    ensures Honest(CoreOf(chain), chain)
  {
    hide Linked;
    forall start: nat, limit: nat | start <= |chain| && limit > 0
        ensures Served(chain, start, limit, PageOf(chain, start, limit)) {
      PageServed(chain, start, limit);
    }
  }

  lemma PageServed(chain: seq<Block>, start: nat, limit: nat)
    requires chain != [] && start <= |chain| && limit > 0
    ensures Served(chain, start, limit, PageOf(chain, start, limit))
  {
  }
}
