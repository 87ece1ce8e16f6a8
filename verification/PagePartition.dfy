/** How a chain segment is cut into pages does not matter. */
module PagePartition {
  import opened Wrappers
  import opened Blocks
  import opened BranchFacts
  import opened RecoverySpec
  import opened StraightScan
  import opened PageApplication
  import opened PageExactness

  function ApplyPages(st: WalletState, pages: seq<Batch>, maturity: nat): Result<WalletState, RestoreError> {
    if pages == [] then Ok(st)
    else
      var before :- ApplyPages(st, pages[..|pages| - 1], maturity);
      ApplyBatch(before, pages[|pages| - 1], maturity)
  }

  function BlocksOf(pages: seq<Batch>): seq<Block> {
    if pages == [] then [] else BlocksOf(pages[..|pages| - 1]) + pages[|pages| - 1].blocks
  }

  lemma ExtendsPrefix(branch: seq<Block>, a: seq<Block>, b: seq<Block>, first: nat, maturity: nat)
    requires Extends(branch, a + b, first, maturity)
    ensures Extends(branch, a, first, maturity) && Extends(branch + a, b, first, maturity)
  {
    assert branch + (a + b) == (branch + a) + b;
    LinkedParts(branch + a, b, first);
    ConsistentParts(branch + a, b);
    TotalsAppend(branch + a, b);
    forall i | 0 <= i < |branch + a| ensures (branch + a)[i] == ((branch + a) + b)[i] {}
  }

  lemma {:induction false} PagesExact(st: WalletState, branch: seq<Block>, pages: seq<Batch>, first: nat, low: nat,
                                      maturity: nat)
    requires Tracks(st, branch) && Counted(st, branch, low)
    requires pages != [] && Extends(branch, BlocksOf(pages), first, maturity)
    ensures var whole := branch + BlocksOf(pages);
            var r := ApplyPages(st, pages, maturity);
            && r.Ok?
            && OwnedExact(r.value, whole, pages[|pages| - 1].tip.height, maturity)
            && Counted(r.value, whole, Max(low, LowIndex(|whole|)))
  {
    hide ApplyBatch, OwnedExact, Tracks, Counted, Extends;
    var n := |pages| - 1;
    var front, last := pages[..n], pages[n];
    var early := branch + BlocksOf(front);
    ExtendsPrefix(branch, BlocksOf(front), last.blocks, first, maturity);
    assert early + last.blocks == branch + BlocksOf(pages);
    if n == 0 {
      assert early == branch;
      ApplyBatchExact(st, branch, last, first, low, maturity);
      assert ApplyPages(st, front, maturity) == Ok(st);
    } else {
      PagesExact(st, branch, front, first, low, maturity);
      var before := ApplyPages(st, front, maturity).value;
      ExactTracks(before, early, front[n - 1].tip.height, maturity);
      ApplyBatchExact(before, early, last, first, Max(low, LowIndex(|early|)), maturity);
    }
  }

  ghost predicate SameView(a: WalletState, b: WalletState) {
    && Aligned(a) && Aligned(b) && (forall c :: EntryFor(a, c) == EntryFor(b, c))
    && a.window == b.window && a.scannedBlocks == b.scannedBlocks
    && a.scannedOutputs == b.scannedOutputs && a.legacyOutputs == b.legacyOutputs
  }

  /** Any two ways of cutting the same segment into pages, ending with the same observed tip height,
      give the same owned outputs, counters and window; in particular as one single page. */
  lemma PartitionIndependence(st: WalletState, branch: seq<Block>, pages: seq<Batch>, others: seq<Batch>,
                              first: nat, low: nat, maturity: nat)
    requires Tracks(st, branch) && Counted(st, branch, low)
    requires pages != [] && others != [] && BlocksOf(pages) == BlocksOf(others)
    requires pages[|pages| - 1].tip.height == others[|others| - 1].tip.height
    requires Extends(branch, BlocksOf(pages), first, maturity)
    ensures ApplyPages(st, pages, maturity).Ok? && ApplyPages(st, others, maturity).Ok?
    ensures SameView(ApplyPages(st, pages, maturity).value, ApplyPages(st, others, maturity).value)
  {
    hide ApplyPages, Tracks, Extends;
    PagesExact(st, branch, pages, first, low, maturity);
    PagesExact(st, branch, others, first, low, maturity);
    var a, b := ApplyPages(st, pages, maturity).value, ApplyPages(st, others, maturity).value;
    var whole, tip := branch + BlocksOf(pages), pages[|pages| - 1].tip.height;
    forall c ensures EntryFor(a, c) == EntryFor(b, c) {
      assert EntryFor(a, c) == Scan(whole, tip, maturity, c);
      assert EntryFor(b, c) == Scan(whole, tip, maturity, c);
    }
  }
}
