/** Optimistic commits: another writer may bump the durable generation at any time, and the
    adapter retries a bounded number of times on freshly loaded state.

    The durable state is the sequence of writes that produced it; its generation is their number. */
module OptimisticCommit {
  import opened Wrappers

  const MAX_ATTEMPTS: nat := 5

  datatype Write = Mine | Other(id: nat)

  datatype Stage = Rewind | RecoveryBatch | KernelEvidence | ExpiryCleanup | CursorEncode | StorageCommit

  /** What happens around attempt `i`: the writes of others before it, a failure of the commit
      itself, and a failure of the reload that follows a conflict. */
  datatype Environment = Environment(
    others: nat -> seq<nat>,
    fault: nat -> Option<Stage>,
    reloadFault: nat -> Option<Stage>)

  datatype CommitError = Conflict | Fault(stage: Stage)

  function StageOf(e: CommitError): Stage {
    match e
    case Conflict => StorageCommit
    case Fault(stage) => stage
  }

  function Foreign(ids: seq<nat>): (r: seq<Write>)
    ensures |r| == |ids| && forall i :: 0 <= i < |r| ==> r[i] == Other(ids[i])
  {
    seq(|ids|, i requires 0 <= i < |ids| => Other(ids[i]))
  }

  /** Everything the other writers wrote around attempts `1..k`. */
  function ForeignUpTo(env: Environment, k: nat): seq<Write> {
    if k == 0 then [] else ForeignUpTo(env, k - 1) + Foreign(env.others(k))
  }

  lemma ForeignNothing(env: Environment)
    ensures ForeignUpTo(env, 0) == []
  {
  }

  lemma ForeignNext(env: Environment, k: nat, log: seq<Write>)
    requires k > 0
    ensures log + ForeignUpTo(env, k) == log + ForeignUpTo(env, k - 1) + Foreign(env.others(k))
    ensures env.others(k) == [] ==> ForeignUpTo(env, k) == ForeignUpTo(env, k - 1)
  {
    assert env.others(k) == [] ==> Foreign(env.others(k)) == [];
  }

  /** The directory: it refuses a commit prepared from another generation. */
  class Store {
    var log: seq<Write>

    constructor ()
      ensures log == []
    {
      log := [];
    }
  }

  /** The sink: the generation it has loaded. `Loaded` says it was durable once. */
  class Sink {
    const store: Store
    var memory: seq<Write>

    constructor (s: Store)
      ensures store == s && memory == s.log && Loaded()
    {
      store := s;
      memory := s.log;
    }

    ghost predicate Loaded()
      reads this, store
    {
      memory <= store.log
    }

    /** One attempt. The check is on the generation only; that the contents agree follows from `Loaded`. */
    method Commit(env: Environment, attempt: nat) returns (r: Result<(), CommitError>)
      requires Loaded()
      modifies this, store
      ensures Loaded()
      ensures r.Ok? <==> old(memory) == old(store.log) && env.others(attempt) == [] && env.fault(attempt).None?
      ensures r.Ok? ==> store.log == old(store.log) + [Mine] && memory == store.log
      ensures r.Err? ==> store.log == old(store.log) + Foreign(env.others(attempt)) && memory == old(memory)
      ensures r == Err(Conflict) <==>
        env.fault(attempt).None? && (old(memory) != old(store.log) || env.others(attempt) != [])
      ensures r.Err? && r.error.Fault? ==> env.fault(attempt) == Some(r.error.stage)
    {
      var next := memory + [Mine];
      store.log := store.log + Foreign(env.others(attempt));
      if env.fault(attempt).Some? {
        return Err(Fault(env.fault(attempt).value));
      }
      if |memory| != |store.log| {
        return Err(Conflict);
      }
      store.log := next;
      memory := next;
      r := Ok(());
    }

    method RecoverConflict(env: Environment, attempt: nat, e: CommitError) returns (r: Result<bool, Stage>)
      requires Loaded()
      modifies this`memory
      ensures Loaded()
      ensures e.Fault? ==> r == Ok(false) && memory == old(memory)
      ensures e.Conflict? && env.reloadFault(attempt).None? ==> r == Ok(true) && memory == store.log
      ensures e.Conflict? && env.reloadFault(attempt).Some? ==>
        r == Err(env.reloadFault(attempt).value) && memory == old(memory)
    {
      if e.Fault? {
        return Ok(false);
      }
      if env.reloadFault(attempt).Some? {
        return Err(env.reloadFault(attempt).value);
      }
      memory := store.log;
      r := Ok(true);
    }
  }

  /** An attempt goes through: nobody wrote since the state was loaded and nothing failed.
      Only the state loaded before the first attempt can be stale. */
  ghost predicate Quiet(env: Environment, k: nat, stale: bool) {
    !(stale && k == 1) && env.others(k) == [] && env.fault(k).None?
  }

  /** An attempt conflicts and its reload works, so another attempt may follow. */
  ghost predicate Retried(env: Environment, k: nat, stale: bool) {
    ((stale && k == 1) || env.others(k) != []) && env.fault(k).None? && env.reloadFault(k).None?
  }

  ghost predicate GoesThroughAt(env: Environment, stale: bool, k: nat) {
    && 1 <= k <= MAX_ATTEMPTS && Quiet(env, k, stale)
    && forall j :: 1 <= j < k ==> Retried(env, j, stale)
  }

  ghost predicate NoneGoesThrough(env: Environment, stale: bool) {
    forall k: nat :: !GoesThroughAt(env, stale, k)
  }

  /** `commit_with_generation_retry`: applied exactly once or not at all, on the state that was durable
      just before, losing nobody's writes, in at most five attempts; and it succeeds exactly when
      some attempt within the bound finds the store quiet after conflicts only. */
  method CommitWithRetry(sink: Sink, env: Environment) returns (r: Result<(), Stage>, attempts: nat)
    requires sink.Loaded()
    modifies sink, sink.store
    ensures 1 <= attempts <= MAX_ATTEMPTS && sink.Loaded()
    ensures sink.store.log == old(sink.store.log) + ForeignUpTo(env, attempts) + (if r.Ok? then [Mine] else [])
    ensures r.Ok? ==> sink.memory == sink.store.log
    ensures r.Ok? ==> GoesThroughAt(env, old(sink.memory) != old(sink.store.log), attempts)
    ensures r.Err? ==> NoneGoesThrough(env, old(sink.memory) != old(sink.store.log))
    ensures r.Err? ==>
      if env.fault(attempts).Some? then r.error == env.fault(attempts).value
      else if env.reloadFault(attempts).Some? then r.error == env.reloadFault(attempts).value
      else r.error == StorageCommit && attempts == 5
  {
    hide Foreign, ForeignUpTo, NoneGoesThrough;
    ghost var stale := sink.memory != sink.store.log;
    attempts := 1;
    ForeignNothing(env);
    while true
      invariant 1 <= attempts <= MAX_ATTEMPTS && sink.Loaded()
      invariant sink.store.log == old(sink.store.log) + ForeignUpTo(env, attempts - 1)
      invariant if attempts == 1 then sink.memory == old(sink.memory) else sink.memory == sink.store.log
      invariant forall j :: 1 <= j < attempts ==> Retried(env, j, stale)
      decreases MAX_ATTEMPTS - attempts
    {
      var tried := sink.Commit(env, attempts);
      ForeignNext(env, attempts, old(sink.store.log));
      if tried.Ok? {
        assert Quiet(env, attempts, stale);
        return Ok(()), attempts;
      }
      assert sink.store.log == old(sink.store.log) + ForeignUpTo(env, attempts);
      assert !Quiet(env, attempts, stale);
      var recovered := sink.RecoverConflict(env, attempts, tried.error);
      if recovered.Err? {
        assert !Retried(env, attempts, stale);
        NeverLater(env, stale, attempts);
        return Err(recovered.error), attempts;
      }
      if !recovered.value || attempts == MAX_ATTEMPTS {
        assert attempts == MAX_ATTEMPTS || !Retried(env, attempts, stale);
        NeverLater(env, stale, attempts);
        return Err(StageOf(tried.error)), attempts;
      }
      assert Retried(env, attempts, stale);
      attempts := attempts + 1;
    }
  }

  /** Once attempt `k` is neither quiet nor retried, or the bound is reached, no attempt goes through. */
  lemma NeverLater(env: Environment, stale: bool, k: nat)
    requires 1 <= k <= MAX_ATTEMPTS && !Quiet(env, k, stale)
    requires forall j :: 1 <= j < k ==> Retried(env, j, stale)
    requires k == MAX_ATTEMPTS || !Retried(env, k, stale)
    ensures NoneGoesThrough(env, stale)
  {
    forall i: nat ensures !GoesThroughAt(env, stale, i) {
      assert 1 <= i < k ==> Retried(env, i, stale);
      assert GoesThroughAt(env, stale, i) && k < i ==> Retried(env, k, stale);
    }
  }
}
