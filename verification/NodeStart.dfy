/** The background start of the embedded node: map growth, the walk over listener ports and the loopback leaf. What the
    node answers to each attempt is arbitrary. */
module NodeStart {
  import opened Wrappers

  const GIB: nat := 1024 * 1024 * 1024
  const MAX_LMDB_MAP_SIZE_BYTES: nat := 64 * GIB
  const MINIMUM_LMDB_MAP_SIZE_BYTES: nat := 64 * 1024 * 1024
  const MAINNET_P2P_PORT: nat := 33_369

  // ----- port candidates

  /** The canonical port followed by the fallback range. */
  const STANDARD_PORTS: seq<nat> :=
    [MAINNET_P2P_PORT, 33_370, 33_371, 33_372, 33_373, 33_374, 33_375, 33_376, 33_377, 33_378, 33_379]

  /** The ports whose insertion into `seen` is new, in order. */
  function FirstSeen(ports: seq<nat>, seen: set<nat>): seq<nat> {
    if ports == [] then []
    else if ports[0] in seen then FirstSeen(ports[1..], seen)
    else [ports[0]] + FirstSeen(ports[1..], seen + {ports[0]})
  }

  /** A stored port of zero is ignored. */
  function Persisted(stored: Option<nat>): seq<nat> {
    if stored.Some? && stored.value != 0 then [stored.value] else []
  }

  function Candidates(stored: Option<nat>): seq<nat> {
    FirstSeen(Persisted(stored) + STANDARD_PORTS, {})
  }

  function Without(ports: seq<nat>, failed: nat): (r: seq<nat>)
    ensures |r| <= |ports| && failed !in r
    ensures forall p :: p in r <==> p in ports && p != failed
  {
    if ports == [] then []
    else if ports[0] == failed then Without(ports[1..], failed)
    else [ports[0]] + Without(ports[1..], failed)
  }

  predicate Distinct(ports: seq<nat>) {
    forall i, j :: 0 <= i < j < |ports| ==> ports[i] != ports[j]
  }

  lemma {:induction false} WithoutDistinct(ports: seq<nat>, failed: nat)
    requires Distinct(ports)
    ensures Distinct(Without(ports, failed))
  {
    if ports != [] {
      WithoutDistinct(ports[1..], failed);
      var rest := Without(ports[1..], failed);
      assert ports[0] !in ports[1..];
      assert ports[0] !in rest;
      assert Distinct([ports[0]] + rest);
    }
  }

  lemma {:induction false} FirstSeenWithout(ports: seq<nat>, seen: set<nat>, failed: nat)
    requires Distinct(ports) && forall p :: p in ports && p in seen ==> p == failed
    ensures failed in seen ==> FirstSeen(ports, seen) == Without(ports, failed)
    ensures failed !in ports ==> FirstSeen(ports, seen) == ports
  {
    if ports != [] {
      var rest := ports[1..];
      assert ports == [ports[0]] + rest;
      assert Distinct(rest) && ports[0] !in rest;
      FirstSeenWithout(rest, if ports[0] in seen then seen else seen + {ports[0]}, failed);
    }
  }

  lemma StandardDistinct()
    ensures Distinct(STANDARD_PORTS) && 0 !in STANDARD_PORTS
  {
  }

  /** The stored port comes first, the standard ports follow without it; no port occurs twice. */
  lemma CandidatesExact(stored: Option<nat>)
    ensures Persisted(stored) == [] ==> Candidates(stored) == STANDARD_PORTS
    ensures Persisted(stored) != [] ==> Candidates(stored) == [stored.value] + Without(STANDARD_PORTS, stored.value)
    ensures Distinct(Candidates(stored)) && 0 !in Candidates(stored) && |Candidates(stored)| <= 12
    ensures forall p :: p in Candidates(stored) <==> p in Persisted(stored) || p in STANDARD_PORTS
  {
    StandardDistinct();
    if Persisted(stored) == [] {
      assert Persisted(stored) + STANDARD_PORTS == STANDARD_PORTS;
      FirstSeenWithout(STANDARD_PORTS, {}, 0);
    } else {
      var p := stored.value;
      var chain := [p] + STANDARD_PORTS;
      assert chain[1..] == STANDARD_PORTS && chain[0] == p && {} + {p} == {p};
      FirstSeenWithout(STANDARD_PORTS, {p}, p);
      WithoutDistinct(STANDARD_PORTS, p);
    }
  }

  // ----- the worker

  datatype Address = Mesh(port: nat) | Loopback(port: nat)

  /** What the loop carries from one attempt to the next. */
  datatype Worker = Worker(mapSize: nat, listen: Address, fallbacks: seq<nat>, leafAvailable: bool)

  /** What one turn of the loop meets. A failure says whether its code is the map-full sentinel, whether it reads as a
      failed node run, whether the port is taken at that moment, and which loopback address could be bound. */
  datatype Attempt =
    | Cancelled
    | Started(attached: bool)
    | Failed(mapFull: bool, nodeRun: bool, portTaken: bool, leaf: Option<nat>)

  datatype Ending = StartCancelled | NodeAttached | AttachRejected | StartFailed

  datatype Turn = Stop(ending: Ending) | Retry(next: Worker)

  function DefaultMapSize(windows: bool): nat {
    if windows then 4 * GIB else 16 * GIB
  }

  /** A stored map size counts only within its bounds. */
  function LoadMapSize(stored: Option<nat>): Option<nat> {
    if stored.Some? && MINIMUM_LMDB_MAP_SIZE_BYTES <= stored.value <= MAX_LMDB_MAP_SIZE_BYTES then stored else None
  }

  function InitialMapSize(stored: Option<nat>, windows: bool): nat {
    var size := LoadMapSize(stored);
    if size.Some? then size.value else DefaultMapSize(windows)
  }

  function Initial(mapSize: nat, listen: Address, storedPort: Option<nat>): Worker {
    if listen.Mesh? then Worker(mapSize, listen, Without(Candidates(storedPort), listen.port), true)
    else Worker(mapSize, listen, [], false)
  }

  function Grown(mapSize: nat): nat {
    Min(2 * mapSize, MAX_LMDB_MAP_SIZE_BYTES)
  }

  /** One turn of the loop. */
  function Step(w: Worker, a: Attempt): Turn {
    match a
    case Cancelled => Stop(StartCancelled)
    case Started(attached) => Stop(if attached then NodeAttached else AttachRejected)
    case Failed(mapFull, nodeRun, portTaken, leaf) =>
      if mapFull && w.mapSize < MAX_LMDB_MAP_SIZE_BYTES then
        Retry(w.(mapSize := Grown(w.mapSize)))
      else if !(nodeRun && portTaken) then Stop(StartFailed)
      else if w.fallbacks != [] then
        Retry(w.(listen := Mesh(w.fallbacks[0]), fallbacks := w.fallbacks[1..]))
      else if w.leafAvailable && leaf.Some? then
        Retry(w.(listen := Loopback(leaf.value), leafAvailable := false))
      else Stop(StartFailed)
  }

  // ----- termination

  ghost predicate Sized(w: Worker) {
    MINIMUM_LMDB_MAP_SIZE_BYTES <= w.mapSize <= MAX_LMDB_MAP_SIZE_BYTES
  }

  /** How often a map can still double. */
  function Doublings(mapSize: nat): (n: nat)
    requires mapSize > 0
    decreases MAX_LMDB_MAP_SIZE_BYTES - mapSize
  {
    if mapSize >= MAX_LMDB_MAP_SIZE_BYTES then 0 else 1 + Doublings(Grown(mapSize))
  }

  lemma {:induction false} DoublingsBound(mapSize: nat, k: nat)
    requires k <= 10 && mapSize * Pow2(k) >= MAX_LMDB_MAP_SIZE_BYTES && mapSize > 0
    ensures Doublings(mapSize) <= k
    decreases k
  {
    if mapSize < MAX_LMDB_MAP_SIZE_BYTES {
      assert k > 0;
      DoublingsBound(Grown(mapSize), k - 1);
    }
  }

  /** Unused growth, ports left to walk and the unused leaf: every retry uses up one of them. */
  function Budget(w: Worker): nat
    requires w.mapSize > 0
  {
    Doublings(w.mapSize) + |w.fallbacks| + if w.leafAvailable then 1 else 0
  }

  lemma RetryDecreases(w: Worker, a: Attempt)
    requires Sized(w) && Step(w, a).Retry?
    ensures Sized(Step(w, a).next) && Budget(Step(w, a).next) == Budget(w) - 1
  {
  }

  /** The workers whose attempts ran from turn `k` on, for an arbitrary run of answers. */
  ghost function Tries(w: Worker, answers: nat -> Attempt, k: nat): seq<Worker>
    requires Sized(w)
    decreases Budget(w)
  {
    var turn := Step(w, answers(k));
    if answers(k).Cancelled? then []
    else if turn.Stop? then [w]
    else
      RetryDecreases(w, answers(k));
      [w] + Tries(turn.next, answers, k + 1)
  }

  ghost function Outcome(w: Worker, answers: nat -> Attempt, k: nat): Ending
    requires Sized(w)
    decreases Budget(w)
  {
    match Step(w, answers(k))
    case Stop(ending) => ending
    case Retry(next) =>
      RetryDecreases(w, answers(k));
      Outcome(next, answers, k + 1)
  }

  /** The worker loop of the start command: it ends for every run of answers. */
  method StartNode(storedSize: Option<nat>, windows: bool, listen: Address, storedPort: Option<nat>,
                   answers: nat -> Attempt)
    returns (ending: Ending, tried: seq<Worker>)
    ensures var w := Initial(InitialMapSize(storedSize, windows), listen, storedPort);
      Sized(w) && tried == Tries(w, answers, 0) && ending == Outcome(w, answers, 0)
  {
    hide Tries, Outcome, Budget, Initial, InitialMapSize;
    InitialSized(storedSize, windows, listen, storedPort);
    var start := Initial(InitialMapSize(storedSize, windows), listen, storedPort);
    var mapSize: nat, address: Address := start.mapSize, start.listen;
    var fallbacks: seq<nat>, leafAvailable := start.fallbacks, start.leafAvailable;
    tried := [];
    var k := 0;
    ghost var w := start;
    while true
      invariant mapSize >= 0 && w == Worker(mapSize, address, fallbacks, leafAvailable) && Sized(w) && Sized(start)
      invariant Tries(start, answers, 0) == tried + Tries(w, answers, k)
      invariant Outcome(start, answers, 0) == Outcome(w, answers, k)
      decreases Budget(w)
    {
      ghost var before := w;
      Unfold(w, answers, k);
      match answers(k) {
        case Cancelled =>
          return StartCancelled, tried;
        case Started(attached) =>
          return if attached then NodeAttached else AttachRejected,
              tried + [Worker(mapSize, address, fallbacks, leafAvailable)];
        case Failed(mapFull, nodeRun, portTaken, leaf) =>
          tried := tried + [Worker(mapSize, address, fallbacks, leafAvailable)];
          if mapFull && mapSize < MAX_LMDB_MAP_SIZE_BYTES {
            mapSize := Min(2 * mapSize, MAX_LMDB_MAP_SIZE_BYTES);
          } else if nodeRun && portTaken && fallbacks != [] {
            address := Mesh(fallbacks[0]);
            fallbacks := fallbacks[1..];
          } else if nodeRun && portTaken && leafAvailable && leaf.Some? {
            leafAvailable := false;
            address := Loopback(leaf.value);
          } else {
            return StartFailed, tried;
          }
          w := Worker(mapSize, address, fallbacks, leafAvailable);
      }
      assert w == Step(before, answers(k)).next;
      k := k + 1;
    }
  }

  lemma InitialSized(storedSize: Option<nat>, windows: bool, listen: Address, storedPort: Option<nat>)
    ensures Sized(Initial(InitialMapSize(storedSize, windows), listen, storedPort))
  {
    hide Candidates, Without;
  }

  lemma Unfold(w: Worker, answers: nat -> Attempt, k: nat)
    requires Sized(w)
    ensures var turn := Step(w, answers(k));
      && (turn.Retry? ==>
        && Sized(turn.next) && Budget(turn.next) < Budget(w)
        && Tries(w, answers, k) == [w] + Tries(turn.next, answers, k + 1)
        && Outcome(w, answers, k) == Outcome(turn.next, answers, k + 1))
      && (turn.Stop? ==>
        && Tries(w, answers, k) == (if answers(k).Cancelled? then [] else [w])
        && Outcome(w, answers, k) == turn.ending)
  {
    if Step(w, answers(k)).Retry? {
      RetryDecreases(w, answers(k));
    }
  }

  // ----- every run of answers

  lemma {:induction false} TriesBound(w: Worker, answers: nat -> Attempt, k: nat)
    requires Sized(w)
    ensures |Tries(w, answers, k)| <= Budget(w) + 1
    decreases Budget(w)
  {
    hide Doublings, Step;
    var turn := Step(w, answers(k));
    if turn.Retry? {
      RetryDecreases(w, answers(k));
      TriesBound(turn.next, answers, k + 1);
    }
  }

  /** At most ten doublings, twelve further ports and one leaf: a start makes at most 24 attempts. */
  lemma StartBounded(storedSize: Option<nat>, windows: bool, listen: Address, storedPort: Option<nat>,
                     answers: nat -> Attempt)
    ensures var w := Initial(InitialMapSize(storedSize, windows), listen, storedPort);
      Sized(w) && |Tries(w, answers, 0)| <= 24
  {
    hide Tries, Candidates, Without, Doublings, Pow2;
    var w := Initial(InitialMapSize(storedSize, windows), listen, storedPort);
    CandidatesExact(storedPort);
    TenDoublings(w.mapSize);
    TriesBound(w, answers, 0);
  }

  lemma TenDoublings(mapSize: nat)
    requires mapSize >= MINIMUM_LMDB_MAP_SIZE_BYTES
    ensures Doublings(mapSize) <= 10
  {
    assert Pow2(10) == 1024 by {
      assert Pow2(5) == 32;
    }
    DoublingsBound(mapSize, 10);
  }

  /** The map never shrinks and never passes the ceiling; a size that was stored on growth is accepted on the next
      start. */
  lemma {:induction false} MapSizes(w: Worker, answers: nat -> Attempt, k: nat, i: nat, j: nat)
    requires Sized(w) && i <= j < |Tries(w, answers, k)|
    ensures Tries(w, answers, k)[0] == w
    ensures var tried := Tries(w, answers, k);
      && w.mapSize <= tried[i].mapSize <= tried[j].mapSize <= MAX_LMDB_MAP_SIZE_BYTES
      && LoadMapSize(Some(tried[j].mapSize)) == Some(tried[j].mapSize)
    decreases Budget(w)
  {
    hide Doublings;
    var turn := Step(w, answers(k));
    if turn.Retry? {
      RetryDecreases(w, answers(k));
      if j > 0 {
        MapSizes(turn.next, answers, k + 1, if i == 0 then 0 else i - 1, j - 1);
      }
    }
  }

  /** The ports still to walk are distinct and none is the one in use. */
  ghost predicate Fresh(w: Worker) {
    && Sized(w)
    && Distinct(w.fallbacks)
    && (w.listen.Mesh? ==> w.listen.port !in w.fallbacks)
    && (w.listen.Loopback? ==> w.fallbacks == [] && !w.leafAvailable)
  }

  lemma InitialFresh(storedSize: Option<nat>, windows: bool, listen: Address, storedPort: Option<nat>)
    ensures Fresh(Initial(InitialMapSize(storedSize, windows), listen, storedPort))
  {
    hide Candidates, Without;
    CandidatesExact(storedPort);
    if listen.Mesh? {
      WithoutDistinct(Candidates(storedPort), listen.port);
    }
  }

  lemma RetryFresh(w: Worker, a: Attempt)
    requires Fresh(w) && Step(w, a).Retry?
    ensures Fresh(Step(w, a).next) && Budget(Step(w, a).next) < Budget(w)
    ensures Step(w, a).next.listen != w.listen ==>
      (Step(w, a).next.listen.Mesh? ==> Step(w, a).next.listen.port in w.fallbacks)
    ensures forall p :: p in Step(w, a).next.fallbacks ==> p in w.fallbacks
  {
    RetryDecreases(w, a);
  }

  /** A later attempt listens where this one does, on a port still to walk, or on loopback. */
  lemma {:induction false} LaterListener(w: Worker, answers: nat -> Attempt, k: nat, i: nat)
    requires Fresh(w) && i < |Tries(w, answers, k)|
    ensures var listen := Tries(w, answers, k)[i].listen;
      listen == w.listen || (listen.Mesh? && listen.port in w.fallbacks) || (w.listen.Mesh? && listen.Loopback?)
    decreases Budget(w)
  {
    hide Doublings;
    if i > 0 {
      var turn := Step(w, answers(k));
      RetryFresh(w, answers(k));
      LaterListener(turn.next, answers, k + 1, i - 1);
    }
  }

  /** Once a start has moved on from a listener it never comes back to it. */
  lemma {:induction false} ListenersNotRevisited(w: Worker, answers: nat -> Attempt, k: nat, a: nat, b: nat, c: nat)
    requires Fresh(w) && a < b < c < |Tries(w, answers, k)|
    requires Tries(w, answers, k)[a].listen.Mesh?
    requires Tries(w, answers, k)[a].listen == Tries(w, answers, k)[c].listen
    ensures Tries(w, answers, k)[b].listen == Tries(w, answers, k)[a].listen
    decreases Budget(w)
  {
    hide Doublings;
    var turn := Step(w, answers(k));
    RetryFresh(w, answers(k));
    if a > 0 {
      ListenersNotRevisited(turn.next, answers, k + 1, a - 1, b - 1, c - 1);
    } else {
      StaysUntilLeft(w, answers, k, b, c);
    }
  }

  lemma {:induction false} StaysUntilLeft(w: Worker, answers: nat -> Attempt, k: nat, b: nat, c: nat)
    requires Fresh(w) && w.listen.Mesh? && b < c < |Tries(w, answers, k)|
    requires Tries(w, answers, k)[c].listen == w.listen
    ensures Tries(w, answers, k)[b].listen == w.listen
    decreases Budget(w)
  {
    hide Doublings;
    if b > 0 {
      var turn := Step(w, answers(k));
      RetryFresh(w, answers(k));
      LaterListener(turn.next, answers, k + 1, c - 1);
      StaysUntilLeft(turn.next, answers, k + 1, b - 1, c - 1);
    }
  }

  /** The loopback leaf is a last resort: a start that reaches it has tried every mesh port it had. */
  lemma {:induction false} LeafIsLastResort(w: Worker, answers: nat -> Attempt, k: nat, i: nat, port: nat)
    requires Fresh(w) && w.listen.Mesh? && i < |Tries(w, answers, k)| && Tries(w, answers, k)[i].listen.Loopback?
    requires port == w.listen.port || port in w.fallbacks
    ensures exists j: nat :: j < i && Tries(w, answers, k)[j].listen == Mesh(port)
    decreases Budget(w)
  {
    hide Doublings;
    var tried := Tries(w, answers, k);
    if port == w.listen.port {
      assert tried[0].listen == Mesh(port);
    } else {
      var turn := Step(w, answers(k));
      RetryFresh(w, answers(k));
      assert turn.next.listen.Mesh?;
      LeafIsLastResort(turn.next, answers, k + 1, i - 1, port);
      var j: nat :| j < i - 1 && Tries(turn.next, answers, k + 1)[j].listen == Mesh(port);
      assert tried[j + 1] == Tries(turn.next, answers, k + 1)[j];
    }
  }

  /** A start fails only on a failure that neither growth nor another listener could answer. */
  lemma {:induction false} FailsOnlyWhenExhausted(w: Worker, answers: nat -> Attempt, k: nat)
    requires Sized(w) && Outcome(w, answers, k) == StartFailed
    ensures var tried := Tries(w, answers, k);
      && |tried| > 0
      && var last, answer := tried[|tried| - 1], answers(k + |tried| - 1);
         && answer.Failed?
         && (answer.mapFull ==> last.mapSize == MAX_LMDB_MAP_SIZE_BYTES)
         && (answer.nodeRun && answer.portTaken ==>
               last.fallbacks == [] && (last.leafAvailable ==> answer.leaf == None))
    decreases Budget(w)
  {
    hide Doublings;
    Unfold(w, answers, k);
    var turn := Step(w, answers(k));
    if turn.Retry? {
      FailsOnlyWhenExhausted(turn.next, answers, k + 1);
    }
  }

  /** The ending says what the last answer was: attached, rejected and failed after such an attempt, cancelled before
      one. */
  lemma {:induction false} EndingExact(w: Worker, answers: nat -> Attempt, k: nat)
    requires Sized(w)
    ensures var tried, ending := Tries(w, answers, k), Outcome(w, answers, k);
      && (ending == StartCancelled ==>
            answers(k + |tried|).Cancelled? && (tried != [] ==> answers(k + |tried| - 1).Failed?))
      && (ending != StartCancelled ==>
            && tried != []
            && var last := answers(k + |tried| - 1);
               && (ending == NodeAttached <==> last == Started(true))
               && (ending == AttachRejected <==> last == Started(false))
               && (ending == StartFailed <==> last.Failed?))
    decreases Budget(w)
  {
    hide Doublings;
    Unfold(w, answers, k);
    var turn := Step(w, answers(k));
    if turn.Retry? {
      EndingExact(turn.next, answers, k + 1);
    }
  }

  /** Between two attempts exactly one thing changes: the map doubles, up to 64 GiB, after a full map; or, while the
      port is taken and the map is not the matter, the listener moves to the next port or at last to the leaf. */
  lemma {:induction false} MovesJustified(w: Worker, answers: nat -> Attempt, k: nat, i: nat)
    requires Sized(w) && i + 1 < |Tries(w, answers, k)|
    ensures var before, after := Tries(w, answers, k)[i], Tries(w, answers, k)[i + 1];
      var answer := answers(k + i);
      && answer.Failed?
      && (if answer.mapFull && before.mapSize < 68_719_476_736
          then after == before.(mapSize := Min(2 * before.mapSize, 68_719_476_736))
          else
            && answer.nodeRun && answer.portTaken && after.mapSize == before.mapSize
            && if before.fallbacks != []
               then after.listen == Mesh(before.fallbacks[0]) && after.fallbacks == before.fallbacks[1..]
               else before.leafAvailable && !after.leafAvailable && answer.leaf.Some?
                    && after.listen == Loopback(answer.leaf.value))
    decreases Budget(w)
  {
    hide Doublings;
    Unfold(w, answers, k);
    var next := Step(w, answers(k)).next;
    if i > 0 {
      MovesJustified(next, answers, k + 1, i - 1);
    } else {
      Unfold(next, answers, k + 1);
    }
  }

  /** The ports are walked in their order: a port is tried only after every port before it. */
  lemma {:induction false} WalkedInOrder(w: Worker, answers: nat -> Attempt, k: nat, i: nat, m: nat, earlier: nat)
    requires Fresh(w) && w.listen.Mesh? && i < |Tries(w, answers, k)| && earlier < m < |w.fallbacks|
    requires Tries(w, answers, k)[i].listen == Mesh(w.fallbacks[m])
    ensures exists j: nat :: j < i && Tries(w, answers, k)[j].listen == Mesh(w.fallbacks[earlier])
    decreases Budget(w)
  {
    hide Doublings;
    Unfold(w, answers, k);
    RetryFresh(w, answers(k));
    var next := Step(w, answers(k)).next;
    var later := Tries(next, answers, k + 1);
    if next.fallbacks == w.fallbacks {
      WalkedInOrder(next, answers, k + 1, i - 1, m, earlier);
      var j: nat :| j < i - 1 && later[j].listen == Mesh(w.fallbacks[earlier]);
      assert Tries(w, answers, k)[j + 1] == later[j];
    } else if earlier == 0 {
      Unfold(next, answers, k + 1);
      assert Tries(w, answers, k)[1] == later[0];
    } else {
      WalkedInOrder(next, answers, k + 1, i - 1, m - 1, earlier - 1);
      var j: nat :| j < i - 1 && later[j].listen == Mesh(next.fallbacks[earlier - 1]);
      assert Tries(w, answers, k)[j + 1] == later[j];
    }
  }

  /** Where a start begins: a stored size counts between 64 MiB and 64 GiB, otherwise 4 GiB on Windows and 16 GiB
      elsewhere; the standard ports are the eleven from 33369; only a mesh listener has ports to walk and a leaf. */
  lemma InitialExact(storedSize: Option<nat>, windows: bool, listen: Address, storedPort: Option<nat>)
    ensures InitialMapSize(storedSize, windows) ==
      if storedSize.Some? && 67_108_864 <= storedSize.value <= 68_719_476_736 then storedSize.value
      else if windows then 4_294_967_296 else 17_179_869_184
    ensures |STANDARD_PORTS| == 11 && forall i :: 0 <= i < 11 ==> STANDARD_PORTS[i] == 33_369 + i
    ensures var w := Initial(InitialMapSize(storedSize, windows), listen, storedPort);
      && w.listen == listen && (w.leafAvailable <==> listen.Mesh?)
      && (listen.Loopback? ==> w.fallbacks == [])
      && (listen.Mesh? ==> forall p :: p in w.fallbacks <==>
            p != listen.port && (p in Persisted(storedPort) || 33_369 <= p <= 33_379))
  {
    hide Candidates;
    CandidatesExact(storedPort);
  }
}
