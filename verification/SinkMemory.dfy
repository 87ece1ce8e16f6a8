/** The restore sink as a value: what the directory holds, what the sink remembers of it, and how runs of commits with
    failing writes and reloads move both. */
module SinkMemory {
  import opened Wrappers
  import opened Blocks
  import opened RecoverySpec

  /** What the storage layer answers to one commit. */
  datatype Storage = Written | Refused(tooLarge: bool)

  /** One commit, with what the storage answers and whether the directory can be loaded again after a failure. */
  datatype Request = Request(batch: Batch, cursor: BlockRef, reorg: Option<BlockRef>, maturity: nat, storage: Storage,
                             reloads: bool)

  datatype Memory = Memory(state: Option<WalletState>, durable: WalletState)

  function Preparation(st: WalletState, q: Request): Result<WalletState, RestoreError> {
    Prepared(st, q.batch, q.cursor, q.reorg, q.maturity)
  }

  /** A request that changes the directory. */
  predicate GoesThrough(st: WalletState, q: Request) {
    Preparation(st, q).Ok? && q.storage.Written?
  }

  function Answer(m: Memory, q: Request): Result<(), RestoreError> {
    match m.state
    case None => Err(StorageFailure)
    case Some(st) =>
      match Preparation(st, q)
      case Err(e) => Err(e)
      case Ok(_) =>
        match q.storage
        case Written => Ok(())
        case Refused(tooLarge) => Err(if tooLarge then StateStorageLimitExceeded else StorageFailure)
  }

  /** `RestoreSink::commit`: the state is taken, and put back from the commit or from the directory. */
  function Next(m: Memory, q: Request): Memory {
    match m.state
    case None => m
    case Some(st) =>
      if GoesThrough(st, q) then
        var next := Preparation(st, q).value.(generation := st.generation + 1);
        Memory(Some(next), next)
      else Memory(if q.reloads then Some(m.durable) else None, m.durable)
  }

  function Runs(m: Memory, qs: seq<Request>): Memory {
    if qs == [] then m else Next(Runs(m, qs[..|qs| - 1]), qs[|qs| - 1])
  }

  // ----- the directory alone

  /** What the directory holds when every request that can go through does. */
  function Through(st: WalletState, q: Request): WalletState {
    if GoesThrough(st, q) then Preparation(st, q).value.(generation := st.generation + 1) else st
  }

  function AllThrough(st: WalletState, qs: seq<Request>): WalletState {
    if qs == [] then st else Through(AllThrough(st, qs[..|qs| - 1]), qs[|qs| - 1])
  }

  ghost predicate Remembers(m: Memory) {
    m.state == Some(m.durable)
  }

  /** A failed commit whose reload fails as well. */
  ghost predicate Forgets(m: Memory, qs: seq<Request>, k: nat)
    requires k < |qs|
  {
    !GoesThrough(Runs(m, qs[..k]).durable, qs[k]) && !qs[k].reloads
  }

  /** A lost memory stays lost: nothing is committed any more and every request is refused. */
  lemma {:induction false} LostStays(m: Memory, qs: seq<Request>)
    requires m.state.None?
    ensures Runs(m, qs) == m
    ensures forall q :: Answer(m, q) == Err(StorageFailure)
  {
    hide GoesThrough;
    if qs != [] {
      LostStays(m, qs[..|qs| - 1]);
    }
  }

  /** The memory is lost if and only if some commit fails while its reload fails as well. */
  lemma {:induction false} LostIff(m: Memory, qs: seq<Request>)
    requires Remembers(m)
    ensures Runs(m, qs).state == None || Remembers(Runs(m, qs))
    ensures Runs(m, qs).state.None? <==> exists k: nat :: k < |qs| && Forgets(m, qs, k)
  {
    hide GoesThrough;
    if qs != [] {
      var n := |qs| - 1;
      var front := qs[..n];
      LostIff(m, front);
      assert qs[..n] == front;
      forall k: nat | k < n ensures Forgets(m, front, k) == Forgets(m, qs, k) {
        assert front[..k] == qs[..k];
      }
      if Runs(m, front).state.None? {
        var k: nat :| k < |front| && Forgets(m, front, k);
        assert Forgets(m, qs, k);
      } else if Runs(m, qs).state.None? {
        assert Forgets(m, qs, n);
      }
    }
  }

  /** While reloads succeed the sink remembers the directory through every run, and the directory has taken exactly
      the requests that could go through, each on top of the others. */
  lemma {:induction false} MemoryKept(m: Memory, qs: seq<Request>)
    requires Remembers(m) && forall k :: 0 <= k < |qs| ==> qs[k].reloads
    ensures Remembers(Runs(m, qs)) && Runs(m, qs).durable == AllThrough(m.durable, qs)
    ensures forall q :: Answer(Runs(m, qs), q).Ok? <==> GoesThrough(AllThrough(m.durable, qs), q)
  {
    hide Preparation;
    if qs != [] {
      MemoryKept(m, qs[..|qs| - 1]);
    }
  }

  /** A refused write followed by the same request with a good one commits as if it had never been refused. */
  lemma RefusedThenWritten(m: Memory, q: Request)
    requires Remembers(m) && q.reloads && q.storage.Refused? && Preparation(m.durable, q).Ok?
    ensures Answer(m, q) == Err(if q.storage.tooLarge then StateStorageLimitExceeded else StorageFailure)
    ensures var again := q.(storage := Written);
      Next(m, q) == m && Answer(Next(m, q), again) == Ok(()) && Runs(m, [q, again]) == Next(m, again)
  {
    hide Prepared;
    var again := q.(storage := Written);
    assert [q, again][..1] == [q] && [q][..0] == [];
    assert Runs(m, [q]) == Next(Runs(m, []), q);
  }
}
