/** Every true run can be carried on to the tip of any chain within reach. A concrete instance shows that the
    retained window need not be that of a straight scan. */
module CatchUp {
  import opened Wrappers
  import opened Blocks
  import opened BranchFacts
  import opened RecoverySpec
  import opened StraightScan
  import opened PageApplication
  import opened ScanAdapter
  import opened HonestCore
  import opened Transparency
  import opened Recoverability
  import opened HonestProgress
  import opened Reconcile

  // ----- continuing a run

  /** A written step against the greediest honest Core of a chain. */
  function HonestStep(chain: seq<Block>): Observed
    requires chain != []
  {
    Observed(Step(CoreOf(chain), CoreOf(chain), true, true), chain)
  }

  ghost predicate FromGenesis(chain: seq<Block>) {
    chain != [] && Linked(chain, 0) && chain[0].previous == ZERO_HASH && |chain| <= U64_MAX
  }

  /** The cursor is absent, on the chain, or has its fork point in reach. */
  ghost predicate InReach(cfg: Config, t: Trace, chain: seq<Block>) {
    Phase(t.st, chain) == 1 ==>
      t.first <= t.st.cursor.value.height + 1 <= |t.chain| && Recoverable(cfg, t.st, Claimed(t), chain)
  }

  lemma ReplayStep(cfg: Config, start: WalletState, steps: seq<Observed>, s: Observed, maturity: nat)
    ensures Replay(cfg, start, steps + [s], maturity) == Observe(cfg, Replay(cfg, start, steps, maturity), s, maturity)
  {
    hide Observe;
    assert (steps + [s])[..|steps|] == steps;
  }

  lemma TruthfulStep(cfg: Config, start: WalletState, steps: seq<Observed>, s: Observed, universe: set<Block>,
                     maturity: nat)
    requires TruthfulRun(cfg, start, steps, universe, maturity)
    requires Truthful(s.step.page, s.chain) && ValidChain(s.chain, universe, maturity)
    ensures TruthfulRun(cfg, start, steps + [s], universe, maturity)
  {
    hide Committed, Replay, Truthful, ValidChain;
    var all := steps + [s];
    forall i | 0 <= i < |all| ensures TruthfulAt(cfg, start, all, i, universe, maturity) {
      if i < |steps| {
        assert TruthfulAt(cfg, start, steps, i, universe, maturity);
        assert all[..i] == steps[..i];
      }
    }
  }

  /** One more honest step commits unless the run is at the tip, and brings it closer. */
  lemma NextStep(cfg: Config, start: WalletState, steps: seq<Observed>, chain: seq<Block>, universe: set<Block>,
                 maturity: nat)
    requires Fresh(start) && TruthfulRun(cfg, start, steps, universe, maturity)
    requires FromGenesis(chain) && Trusted(cfg, chain) && Recordable(chain, universe, maturity)
    requires InReach(cfg, Replay(cfg, start, steps, maturity), chain)
    requires !AtTip(Replay(cfg, start, steps, maturity).st, chain)
    ensures TruthfulRun(cfg, start, steps + [HonestStep(chain)], universe, maturity)
    ensures var t := Replay(cfg, start, steps, maturity);
            var next := Replay(cfg, start, steps + [HonestStep(chain)], maturity);
            && next.chain == chain && next.first == (if t.st.cursor.Some? then t.first else 1)
            && Phase(next.st, chain) == 0
            && (Phase(t.st, chain) == 0 ==> Remaining(next.st, chain) < Remaining(t.st, chain))
            && t.peak <= next.peak <= Max(t.peak, SaturatingSub(|chain|, next.first))
  {
    hide Committed, Replay, Faithful, Recordable, ValidChain, TruthfulRun, Honest, Truthful, Recoverable, CoreOf,
         Linked;
    var t := Replay(cfg, start, steps, maturity);
    var s := HonestStep(chain);
    var api := CoreOf(chain);
    EveryChainHasACore(chain);
    HonestIsTruthful(api, chain);
    assert ValidChain(chain, universe, maturity) by { RecordableIsValid(chain, universe, maturity); }
    ReorgTransparency(cfg, start, steps, universe, maturity);
    TruthfulStep(cfg, start, steps, s, universe, maturity);
    ReplayStep(cfg, start, steps, s, maturity);
    var l := if t.st.cursor.Some? then Claimed(t) else Ledger(0, [], 0, 0);
    assert Known(t.st, l, universe, maturity) by { SettledKnown(t, universe, maturity); }
    StepSucceeds(cfg, t.st, l, api, chain, universe, maturity);
    var after := CommitAdvances(cfg, t.st, l, api, chain, universe, true, maturity);
    if t.st.cursor.None? {
      FirstCommit(cfg, t.st, s.step, chain, universe, maturity);
    }
  }

  lemma RecordableIsValid(chain: seq<Block>, universe: set<Block>, maturity: nat)
    requires Recordable(chain, universe, maturity)
    ensures ValidChain(chain, universe, maturity)
  {
  }

  lemma SettledKnown(t: Trace, universe: set<Block>, maturity: nat)
    requires Settled(t, universe, maturity)
    ensures t.st.cursor.Some? ==> Known(t.st, Claimed(t), universe, maturity)
    ensures t.st.cursor.None? ==> Fresh(t.st)
  {
    hide Faithful;
  }

  /** CATCHING UP. Whatever a true run has been through, honest steps against a chain in reach carry it to the tip. */
  lemma {:induction false} ReachTip(cfg: Config, start: WalletState, steps: seq<Observed>, chain: seq<Block>,
                                    universe: set<Block>, maturity: nat)
      returns (all: seq<Observed>)
    requires Fresh(start) && TruthfulRun(cfg, start, steps, universe, maturity)
    requires FromGenesis(chain) && Trusted(cfg, chain) && Recordable(chain, universe, maturity)
    requires InReach(cfg, Replay(cfg, start, steps, maturity), chain)
    ensures steps <= all && TruthfulRun(cfg, start, all, universe, maturity)
    ensures forall i :: |steps| <= i < |all| ==> all[i] == HonestStep(chain)
    ensures var t := Replay(cfg, start, steps, maturity);
            var end := Replay(cfg, start, all, maturity);
            && AtTip(end.st, chain)
            && (AtTip(t.st, chain) ==> all == steps)
            && (!AtTip(t.st, chain) ==> end.chain == chain)
            && end.first == (if t.st.cursor.Some? then t.first else 1)
            && t.peak <= end.peak <= Max(t.peak, SaturatingSub(|chain|, end.first))
    decreases Phase(Replay(cfg, start, steps, maturity).st, chain),
        Remaining(Replay(cfg, start, steps, maturity).st, chain)
  {
    hide Committed, Replay, Recordable, TruthfulRun, Recoverable, HonestStep, Trusted, FromGenesis, Remaining;
    if AtTip(Replay(cfg, start, steps, maturity).st, chain) {
      all := steps;
    } else {
      NextStep(cfg, start, steps, chain, universe, maturity);
      var more := steps + [HonestStep(chain)];
      all := ReachTip(cfg, start, more, chain, universe, maturity);
      assert all[|steps|] == more[|steps|];
      assert forall i :: 0 <= i < |steps| ==> more[i] == steps[i];
    }
  }

  // ----- a run whose window shrinks

  function EmptyChain(n: nat): (chain: seq<Block>)
    ensures |chain| == n && Linked(chain, 0)
    ensures forall i :: 0 <= i < n ==> chain[i] == Block(i, i + 1, i, [], [], 0, 0)
  {
    var chain := seq(n, i requires 0 <= i < n => Block(i, i + 1, i, [], [], 0, 0));
    assert forall i :: 0 < i < n ==> Joins(chain, i);
    chain
  }

  lemma {:induction false} EmptyBlocks(chain: seq<Block>, maturity: nat)
    requires forall i :: 0 <= i < |chain| ==> chain[i].outputs == [] && chain[i].inputs == []
    requires |chain| <= U64_MAX && forall i :: 0 <= i < |chain| ==> chain[i].height + maturity <= U64_MAX
    ensures CreatedOn(chain) == [] && SpentOn(chain) == [] && OutputTotal(chain) == 0 && ProofOnlyTotal(chain) == 0
    ensures Consistent(chain) && Representable(chain, maturity)
  {
    if chain != [] {
      EmptyBlocks(chain[..|chain| - 1], maturity);
    }
    forall c ensures ConsistentAt(chain, c) {
      SpentAtIff(chain, c);
    }
  }

  ghost function EmptyUniverse(): set<Block> {
    set b | b in EmptyChain(2_050)
  }

  lemma EmptyRecordable(n: nat)
    requires 0 < n <= 2_050
    ensures FromGenesis(EmptyChain(n)) && Recordable(EmptyChain(n), EmptyUniverse(), 0)
  {
    hide Consistent, Representable, Linked;
    var chain := EmptyChain(n);
    EmptyBlocks(chain, 0);
    forall i | 0 <= i < n ensures chain[i] in EmptyUniverse() {
      assert EmptyChain(2_050)[i] == chain[i];
    }
    forall i, j | 0 <= i <= j <= |chain| ensures OwnedCommitments(chain[i..j]) == {} {
      EmptyBlocks(chain[i..j], 0);
    }
  }

  /** 1,024-block pages, a search depth of 1,024 and no pinned genesis. */
  const CONFIG: Config := Config(1_024, 1_024, false, 0)

  /** A run the adapter really makes: honest steps to the tip of 2,050 empty blocks, then honest steps against the
      chain without its last block. The window is left with 2,047 anchors where a straight scan of the very same
      branch retains 2,048. */
  lemma ShrunkenRun() returns (steps: seq<Observed>)
    ensures TruthfulRun(CONFIG, EMPTY_STATE, steps, EmptyUniverse(), 0)
    ensures forall i :: 0 <= i < |steps| ==>
      steps[i] == HonestStep(EmptyChain(2_050)) || steps[i] == HonestStep(EmptyChain(2_049))
    ensures var t := Replay(CONFIG, EMPTY_STATE, steps, 0);
            && t.st.cursor == Some(TipOf(EmptyChain(2_049))) && t.first == 1 && t.chain == EmptyChain(2_049)
            && |t.st.window| == 2_047
            && |Prune(SortWindow(Anchors(EmptyChain(2_049)[1..])))| == 2_048
  {
    hide Committed, Replay, Recordable, TruthfulRun, OwnedExact, Consistent, Representable, ProofOnlyTotal, OutputTotal,
         AnchorOf, Prune, SortWindow, HonestStep, EmptyUniverse, InUniverse, Linked, Anchors;
    var long, short := EmptyChain(2_050), EmptyChain(2_049);
    var universe := EmptyUniverse();
    EmptyRecordable(2_050);
    EmptyRecordable(2_049);
    var none: seq<Observed> := [];
    EmptyRun(universe);
    var first := ReachTip(CONFIG, EMPTY_STATE, none, long, universe, 0);
    var t := Replay(CONFIG, EMPTY_STATE, first, 0);
    ReorgTransparency(CONFIG, EMPTY_STATE, first, universe, 0);
    assert ForkInReach(CONFIG, Claimed(t), t.st.cursor.value, short, 2_048);
    steps := ReachTip(CONFIG, EMPTY_STATE, first, short, universe, 0);
    var u := Replay(CONFIG, EMPTY_STATE, steps, 0);
    ReorgTransparency(CONFIG, EMPTY_STATE, steps, universe, 0);
    SliceLinked(short, 1, 2_049);
    assert short[1..2_049] == short[1..];
    assert short[1..][0..] == short[1..];
    PruneAnchors(short[1..], 1, 0);
  }

  lemma EmptyRun(universe: set<Block>)
    ensures TruthfulRun(CONFIG, EMPTY_STATE, [], universe, 0)
    ensures Replay(CONFIG, EMPTY_STATE, [], 0) == Trace(EMPTY_STATE, 0, [], 0)
  {
  }
}
