/** The rolling hashrate of the miner: a pruned window of samples that reports the same rate as the full history.
    Instants count nanoseconds; the reported rate is a real number. */
module Hashrate {
  import opened Wrappers

  const SECOND: nat := 1_000_000_000
  const HASHRATE_WINDOW: nat := 30 * SECOND
  const HASHRATE_SAMPLE_INTERVAL: nat := SECOND

  datatype Sample = Sample(at: nat, attempts: nat)

  /** Elapsed time; zero when the clock went backwards. */
  function Since(at: nat, earlier: nat): nat {
    SaturatingSub(at, earlier)
  }

  // ----- one call, on values

  predicate Resets(samples: seq<Sample>, call: Sample) {
    samples != [] && call.attempts < samples[|samples| - 1].attempts
  }

  function Push(samples: seq<Sample>, call: Sample): seq<Sample> {
    if samples != [] && Since(call.at, samples[|samples| - 1].at) < HASHRATE_SAMPLE_INTERVAL then samples
    else samples + [call]
  }

  function Drop(samples: seq<Sample>, at: nat): (r: seq<Sample>)
    ensures samples != [] ==> r != []
  {
    if |samples| > 1 && Since(at, samples[1].at) >= HASHRATE_WINDOW then Drop(samples[1..], at) else samples
  }

  function Next(samples: seq<Sample>, call: Sample): seq<Sample> {
    if Resets(samples, call) then [call] else Drop(Push(samples, call), call.at)
  }

  function Rate(first: Sample, call: Sample): real {
    var elapsed := Since(call.at, first.at);
    if elapsed > 0 then SaturatingSub(call.attempts, first.attempts) as real / (elapsed as real / SECOND as real)
    else 0.0
  }

  // ----- the window after a sequence of calls, and what the last of them reported

  function Samples(calls: seq<Sample>): seq<Sample> {
    if calls == [] then [] else Next(Samples(calls[..|calls| - 1]), calls[|calls| - 1])
  }

  function Reported(calls: seq<Sample>): real
    requires calls != []
  {
    var before, call := Samples(calls[..|calls| - 1]), calls[|calls| - 1];
    if Resets(before, call) then 0.0 else Rate(Next(before, call)[0], call)
  }

  // ----- the reference: a history from which nothing is dropped

  /** Every sample taken since the last reset. */
  function History(calls: seq<Sample>): seq<Sample> {
    if calls == [] then []
    else
      var before, call := History(calls[..|calls| - 1]), calls[|calls| - 1];
      if Resets(before, call) then [call] else Push(before, call)
  }

  predicate Old(sample: Sample, at: nat) {
    Since(at, sample.at) >= 30_000_000_000
  }

  /** The latest sample that is at least a window old, or the oldest one when there is none. */
  ghost predicate Baseline(history: seq<Sample>, at: nat, i: nat) {
    && i < |history|
    && (i > 0 ==> Old(history[i], at))
    && forall j :: i < j < |history| ==> !Old(history[j], at)
  }

  function BaselineIndex(history: seq<Sample>, at: nat): (i: nat)
    requires history != []
    ensures Baseline(history, at, i)
  {
    var n := |history| - 1;
    if n == 0 || Old(history[n], at) then n else BaselineIndex(history[..n], at)
  }

  lemma BaselineUnique(history: seq<Sample>, at: nat, i: nat, j: nat)
    requires Baseline(history, at, i) && Baseline(history, at, j)
    ensures i == j
  {
  }

  /** The calls come in the order of a clock that never goes backwards. */
  ghost predicate Ordered(calls: seq<Sample>) {
    forall i, j :: 0 <= i < j < |calls| ==> calls[i].at <= calls[j].at
  }

  /** Samples are a second apart, none is later than `at`, and attempts never decrease. */
  ghost predicate Spaced(history: seq<Sample>, at: nat) {
    && (forall i :: 0 <= i < |history| ==> history[i].at <= at)
    && (forall i, j :: 0 <= i < j < |history| ==> history[i].at + (j - i) * SECOND <= history[j].at)
    && (forall i, j :: 0 <= i < j < |history| ==> history[i].attempts <= history[j].attempts)
  }

  /** The window is what is left of the history; whatever precedes its front is covered by an old front. */
  ghost predicate Retained(samples: seq<Sample>, history: seq<Sample>, at: nat) {
    && |samples| <= |history|
    && samples == history[|history| - |samples|..]
    && (history != [] ==> samples != [])
    && (|samples| < |history| ==> Old(samples[0], at))
    && (|samples| > 1 ==> !Old(samples[1], at))
  }

  lemma SpacedLater(history: seq<Sample>, at: nat, later: nat)
    requires Spaced(history, at) && at <= later
    ensures Spaced(history, later)
  {
  }

  lemma SpacedPush(history: seq<Sample>, call: Sample)
    requires Spaced(history, call.at)
    requires history != [] ==>
      var last := history[|history| - 1]; last.at + SECOND <= call.at && last.attempts <= call.attempts
    ensures Spaced(history + [call], call.at)
  {
    var n := |history|;
    var next := history + [call];
    forall i | 0 <= i < n ensures next[i].at + (n - i) * SECOND <= next[n].at && next[i].attempts <= next[n].attempts {
      if i < n - 1 {
        assert history[i].at + (n - 1 - i) * SECOND <= history[n - 1].at;
        assert history[i].attempts <= history[n - 1].attempts;
      }
    }
  }

  lemma LastIsHighest(history: seq<Sample>, at: nat, attempts: nat)
    requires Spaced(history, at) && (history != [] ==> history[|history| - 1].attempts <= attempts)
    ensures forall i :: 0 <= i < |history| ==> history[i].attempts <= attempts
  {
  }

  lemma PushSpaced(history: seq<Sample>, at: nat, call: Sample)
    requires Spaced(history, at) && at <= call.at && !Resets(history, call)
    ensures Spaced(Push(history, call), call.at)
    ensures Push(history, call) != []
    ensures forall i :: 0 <= i < |Push(history, call)| ==> Push(history, call)[i].attempts <= call.attempts
  {
    hide Spaced;
    SpacedLater(history, at, call.at);
    if Push(history, call) != history {
      SpacedPush(history, call);
    }
    LastIsHighest(Push(history, call), call.at, call.attempts);
  }

  /** Dropping leaves a front that is old whenever something was dropped. */
  lemma {:induction false} DropFront(samples: seq<Sample>, at: nat)
    ensures Suffix(Drop(samples, at), samples)
    ensures |Drop(samples, at)| < |samples| ==> Old(Drop(samples, at)[0], at)
    ensures |Drop(samples, at)| > 1 ==> !Old(Drop(samples, at)[1], at)
  {
    if |samples| > 1 && Since(at, samples[1].at) >= HASHRATE_WINDOW {
      DropFront(samples[1..], at);
    }
  }

  ghost predicate Suffix(part: seq<Sample>, whole: seq<Sample>) {
    |part| <= |whole| && part == whole[|whole| - |part|..]
  }

  lemma SuffixTransitive(a: seq<Sample>, b: seq<Sample>, c: seq<Sample>)
    requires Suffix(a, b) && Suffix(b, c)
    ensures Suffix(a, c)
  {
    assert c[|c| - |b|..][|b| - |a|..] == c[|c| - |a|..];
  }

  lemma DropRetained(samples: seq<Sample>, history: seq<Sample>, at: nat)
    requires Suffix(samples, history) && (history != [] ==> samples != [])
    requires |samples| < |history| ==> Old(samples[0], at)
    ensures Retained(Drop(samples, at), history, at)
  {
    hide Drop, Since;
    DropFront(samples, at);
    SuffixTransitive(Drop(samples, at), samples, history);
  }

  /** Only the last sample decides what a call adds, and the window ends like the history. */
  lemma PushSuffix(samples: seq<Sample>, history: seq<Sample>, call: Sample)
    requires Suffix(samples, history) && (history != [] ==> samples != [])
    ensures Resets(samples, call) == Resets(history, call)
    ensures Suffix(Push(samples, call), Push(history, call)) && Push(samples, call) != []
    ensures |Push(history, call)| - |Push(samples, call)| == |history| - |samples|
    ensures |samples| > 0 ==> Push(samples, call)[0] == samples[0]
  {
    hide Since;
    if history != [] {
      assert samples[|samples| - 1] == history[|history| - 1];
    }
    assert (history + [call])[|history| - |samples|..] == samples + [call];
  }

  lemma {:induction false} WindowRetained(calls: seq<Sample>, at: nat)
    requires Ordered(calls) && (calls != [] ==> at == calls[|calls| - 1].at)
    ensures Spaced(History(calls), at) && Retained(Samples(calls), History(calls), at)
    ensures calls != [] ==> History(calls) != []
  {
    if calls != [] {
      hide Spaced, Samples, History, Push, Drop, Next;
      assert History([]) == [] by { EmptyStates(); }
      var n := |calls| - 1;
      var call := calls[n];
      var past := if n == 0 then 0 else calls[n - 1].at;
      WindowRetained(calls[..n], past);
      LastCall(calls);
      NextRetained(Samples(calls[..n]), History(calls[..n]), past, call);
    } else {
      EmptyStates();
    }
  }

  lemma EmptyStates()
    ensures History([]) == [] && Samples([]) == []
  {
  }

  lemma LastCall(calls: seq<Sample>)
    requires calls != []
    ensures var n := |calls| - 1; var history := History(calls[..n]);
      && Samples(calls) == Next(Samples(calls[..n]), calls[n])
      && History(calls) == if Resets(history, calls[n]) then [calls[n]] else Push(history, calls[n])
  {
  }

  /** One call keeps the window a faithful remainder of the history. */
  lemma NextRetained(samples: seq<Sample>, history: seq<Sample>, past: nat, call: Sample)
    requires Spaced(history, past) && Retained(samples, history, past) && past <= call.at
    ensures Resets(samples, call) == Resets(history, call)
    ensures var next := if Resets(history, call) then [call] else Push(history, call);
      Spaced(next, call.at) && Retained(Next(samples, call), next, call.at) && next != []
  {
    hide Drop, Spaced, Push, Resets;
    PushSuffix(samples, history, call);
    if !Resets(history, call) {
      PushSpaced(history, past, call);
      DropRetained(Push(samples, call), Push(history, call), call.at);
    } else {
      OneSample(call);
    }
  }

  lemma OneSample(call: Sample)
    ensures Spaced([call], call.at)
  {
  }

  lemma FrontIsBaseline(samples: seq<Sample>, history: seq<Sample>, at: nat)
    requires Spaced(history, at) && Retained(samples, history, at) && history != []
    ensures Baseline(history, at, |history| - |samples|)
    ensures |samples| <= 31
  {
    var i := |history| - |samples|;
    forall j | i < j < |history| ensures !Old(history[j], at) {
      assert samples[1] == history[i + 1];
      assert j > i + 1 ==> history[i + 1].at + (j - (i + 1)) * SECOND <= history[j].at;
    }
    if |samples| > 1 {
      assert samples[1] == history[i + 1];
      var last := |history| - 1;
      assert last > i + 1 ==> history[i + 1].at + (last - (i + 1)) * SECOND <= history[last].at;
    }
  }

  /** The rate from a sample, without clipping. */
  ghost function TrueRate(first: Sample, call: Sample): real {
    if call.at == first.at then 0.0
    else (call.attempts - first.attempts) as real / ((call.at - first.at) as real / SECOND as real)
  }

  /** Under a clock that never goes backwards, every call reports the rate from the latest sample of the whole
      history that is at least a window old, or from the oldest sample; the queue holds at most 31 samples. */
  lemma WindowRefinesHistory(calls: seq<Sample>)
    requires Ordered(calls) && calls != []
    ensures var history, call := History(calls), calls[|calls| - 1];
      && history != []
      && Reported(calls) == TrueRate(history[BaselineIndex(history, call.at)], call)
    ensures |Samples(calls)| <= 31
  {
    hide Spaced, Samples, History, Push, Drop, Next, Rate, TrueRate, Baseline, BaselineIndex;
    EmptyStates();
    var n := |calls| - 1;
    var call := calls[n];
    var past := if n == 0 then 0 else calls[n - 1].at;
    WindowRetained(calls[..n], past);
    WindowRetained(calls, call.at);
    LastCall(calls);
    var samples, history := Samples(calls), History(calls);
    FrontIsBaseline(samples, history, call.at);
    BaselineUnique(history, call.at, BaselineIndex(history, call.at), |history| - |samples|);
    NextRetained(Samples(calls[..n]), History(calls[..n]), past, call);
    RateUnclipped(Samples(calls[..n]), History(calls[..n]), past, call, samples[0]);
  }

  lemma RateUnclipped(samples: seq<Sample>, history: seq<Sample>, past: nat, call: Sample, first: Sample)
    requires Spaced(history, past) && Retained(samples, history, past) && past <= call.at
    requires Next(samples, call) != [] && first == Next(samples, call)[0]
    ensures TrueRate(first, call) == if Resets(samples, call) then 0.0 else Rate(first, call)
  {
    hide Drop, Spaced, Push, Resets, Rate, TrueRate, Since;
    PushSuffix(samples, history, call);
    if !Resets(samples, call) {
      PushSpaced(history, past, call);
      NextRetained(samples, history, past, call);
      var next := Push(history, call);
      var i := |next| - |Next(samples, call)|;
      assert first == next[i];
      NoLater(next, call.at, i);
    }
    PlainRate(first, call);
  }

  lemma PlainRate(first: Sample, call: Sample)
    ensures first.at <= call.at && first.attempts <= call.attempts ==> Rate(first, call) == TrueRate(first, call)
    ensures first == call ==> TrueRate(first, call) == 0.0
  {
  }

  lemma NoLater(history: seq<Sample>, at: nat, i: nat)
    requires Spaced(history, at) && i < |history|
    ensures history[i].at <= at
  {
  }

  lemma DropStep(samples: seq<Sample>, at: nat)
    ensures Drop(samples, at)
         == if |samples| > 1 && Since(at, samples[1].at) >= HASHRATE_WINDOW then Drop(samples[1..], at) else samples
  {
  }

  /** What one more call does to the window and reports. */
  lemma CallEffect(past: seq<Sample>, call: Sample)
    ensures var calls, before := past + [call], Samples(past);
      && Samples(calls) == (if Resets(before, call) then [call] else Drop(Push(before, call), call.at)) != []
      && Reported(calls) == (if Resets(before, call) then 0.0 else Rate(Samples(calls)[0], call))
      && (Ordered(calls) ==>
        && |Samples(calls)| <= 31
        && History(calls) != []
        && Reported(calls) == TrueRate(History(calls)[BaselineIndex(History(calls), call.at)], call))
  {
    hide Rate, TrueRate, BaselineIndex, Ordered, Samples, History, Drop, Resets;
    var calls := past + [call];
    assert calls[..|calls| - 1] == past;
    LastCall(calls);
    if Ordered(calls) {
      WindowRefinesHistory(calls);
    }
  }

  /** The pruning loop of `record`. */
  method DropOld(samples: seq<Sample>, at: nat) returns (kept: seq<Sample>)
    ensures kept == Drop(samples, at)
  {
    hide Drop, Since;
    kept := samples;
    while |kept| > 1 && Since(at, kept[1].at) >= HASHRATE_WINDOW
      invariant Drop(kept, at) == Drop(samples, at)
    {
      DropStep(kept, at);
      kept := kept[1..];
    }
    DropStep(kept, at);
  }

  // ----- which calls the history holds

  /** The calls that were sampled since the last reset, by number. */
  ghost predicate Sampling(calls: seq<Sample>, taken: seq<nat>)
    decreases |calls|, 1
  {
    if calls == [] then taken == []
    else Regular(calls, taken) && (taken[0] > 0 ==> exists before :: FellBelow(calls, taken[0], before))
  }

  /** Each sample follows the one before by at least a second and has not fallen below it; every call in between came
      earlier than that and has not fallen either. */
  ghost predicate Regular(calls: seq<Sample>, taken: seq<nat>) {
    && taken != []
    && (forall j :: 0 <= j < |taken| ==> taken[j] < |calls|)
    && (forall j :: 0 < j < |taken| ==> Follows(calls, taken, j))
    && (forall j, m: nat ::
          0 <= j < |taken| && taken[j] < m < NextTaken(calls, taken, j) ==> Passed(calls, taken[j], m))
  }

  ghost predicate Follows(calls: seq<Sample>, taken: seq<nat>, j: nat)
    requires 0 < j < |taken|
  {
    var before, i := taken[j - 1], taken[j];
    && before < i < |calls| && calls[i].attempts >= calls[before].attempts
    && Since(calls[i].at, calls[before].at) >= 1_000_000_000
  }

  ghost predicate Passed(calls: seq<Sample>, i: nat, m: nat) {
    && i < |calls| && m < |calls| && calls[m].attempts >= calls[i].attempts
    && Since(calls[m].at, calls[i].at) < 1_000_000_000
  }

  ghost function NextTaken(calls: seq<Sample>, taken: seq<nat>, j: nat): nat
    requires j < |taken|
  {
    if j + 1 < |taken| then taken[j + 1] else |calls|
  }

  /** A call that starts anew: its attempts are below those of the sample before it. */
  ghost predicate FellBelow(calls: seq<Sample>, i: nat, before: seq<nat>)
    requires i < |calls|
    decreases |calls|, 0
  {
    && Sampling(calls[..i], before) && before != [] && before[|before| - 1] < i
    && calls[i].attempts < calls[before[|before| - 1]].attempts
  }

  /** What the last call does to the samples before it. */
  ghost function Extended(calls: seq<Sample>, before: seq<nat>): seq<nat>
    requires calls != [] && (before != [] ==> before[|before| - 1] < |calls|)
  {
    var n := |calls| - 1;
    if before == [] then [n]
    else
      var last := calls[before[|before| - 1]];
      if calls[n].attempts < last.attempts then [n]
      else if Since(calls[n].at, last.at) < HASHRATE_SAMPLE_INTERVAL then before
      else before + [n]
  }

  lemma SameFall(calls: seq<Sample>, n: nat, i: nat, before: seq<nat>)
    requires i < n <= |calls|
    ensures FellBelow(calls[..n], i, before) == FellBelow(calls, i, before)
  {
    hide Sampling;
    assert calls[..n][..i] == calls[..i];
  }

  /** A sampling is what its last call makes of a sampling of the calls before. */
  lemma SamplingFront(calls: seq<Sample>, taken: seq<nat>) returns (before: seq<nat>)
    requires calls != [] && Sampling(calls, taken)
    ensures Sampling(calls[..|calls| - 1], before)
    ensures (before != [] ==> before[|before| - 1] < |calls| - 1) && taken == Extended(calls, before)
  {
    hide Since;
    var n := |calls| - 1;
    var front, last := calls[..n], taken[|taken| - 1];
    if last < n {
      before := taken;
      assert Passed(calls, last, n);
      RegularFront(calls, taken, before);
      if taken[0] > 0 {
        var b :| FellBelow(calls, taken[0], b);
        SameFall(calls, n, taken[0], b);
      }
    } else if |taken| > 1 {
      before := taken[..|taken| - 1];
      assert Follows(calls, taken, |taken| - 1);
      RegularFront(calls, taken, before);
      if taken[0] > 0 {
        var b :| FellBelow(calls, taken[0], b);
        SameFall(calls, n, taken[0], b);
      }
    } else if n == 0 {
      before := [];
    } else {
      before :| FellBelow(calls, n, before);
    }
  }

  lemma RegularFront(calls: seq<Sample>, taken: seq<nat>, before: seq<nat>)
    requires calls != [] && Regular(calls, taken) && before != [] && before <= taken
    requires var n := |calls| - 1;
      if taken[|taken| - 1] < n then before == taken else |before| == |taken| - 1 && taken[|taken| - 1] == n
    ensures Regular(calls[..|calls| - 1], before) && before[|before| - 1] < |calls| - 1
    ensures before[0] == taken[0]
  {
    hide Since;
    var n := |calls| - 1;
    var front := calls[..n];
    forall j | 0 <= j < |before| ensures before[j] < n {
      TakenIncrease(calls, taken, j, |taken| - 1);
    }
    forall j | 0 < j < |before| ensures Follows(front, before, j) {
      assert Follows(calls, taken, j);
    }
    forall j, m: nat | 0 <= j < |before| && before[j] < m < NextTaken(front, before, j)
      ensures Passed(front, before[j], m)
    {
      assert m < NextTaken(calls, taken, j);
      assert Passed(calls, taken[j], m);
    }
  }

  lemma {:induction false} TakenIncrease(calls: seq<Sample>, taken: seq<nat>, i: nat, j: nat)
    requires Regular(calls, taken) && i <= j < |taken|
    ensures i < j ==> taken[i] < taken[j]
  {
    if i < j {
      TakenIncrease(calls, taken, i, j - 1);
      assert Follows(calls, taken, j);
    }
  }

  /** There is only one sampling. */
  lemma {:induction false} SamplingUnique(calls: seq<Sample>, a: seq<nat>, b: seq<nat>)
    requires Sampling(calls, a) && Sampling(calls, b)
    ensures a == b
  {
    hide Regular, FellBelow, Extended;
    if calls != [] {
      var a' := SamplingFront(calls, a);
      var b' := SamplingFront(calls, b);
      SamplingUnique(calls[..|calls| - 1], a', b');
    }
  }

  ghost predicate Picks(calls: seq<Sample>, taken: seq<nat>, history: seq<Sample>) {
    && |taken| == |history|
    && forall j :: 0 <= j < |taken| ==> taken[j] < |calls| && history[j] == calls[taken[j]]
  }

  /** The last call extends a sampling to a sampling. */
  lemma ExtendedSampling(calls: seq<Sample>, before: seq<nat>)
    requires calls != [] && Sampling(calls[..|calls| - 1], before) && (|calls| > 1 ==> before != [])
    ensures before != [] ==> before[|before| - 1] < |calls| - 1
    ensures Sampling(calls, Extended(calls, before))
  {
    hide Since;
    var n := |calls| - 1;
    var front := calls[..n];
    if n == 0 {
      assert before == [];
      assert Regular(calls, [0]);
    } else {
      var last := before[|before| - 1];
      var taken := Extended(calls, before);
      if calls[n].attempts < calls[last].attempts {
        assert FellBelow(calls, n, before);
        assert Regular(calls, [n]);
      } else {
        RegularExtends(calls, before, taken);
        if before[0] > 0 {
          var b :| FellBelow(front, before[0], b);
          SameFall(calls, n, before[0], b);
        }
      }
    }
  }

  lemma RegularExtends(calls: seq<Sample>, before: seq<nat>, taken: seq<nat>)
    requires |calls| > 1 && Regular(calls[..|calls| - 1], before)
    requires calls[|calls| - 1].attempts >= calls[before[|before| - 1]].attempts && taken == Extended(calls, before)
    ensures Regular(calls, taken) && taken[0] == before[0]
  {
    hide Since;
    var n := |calls| - 1;
    var front := calls[..n];
    forall j | 0 < j < |taken| ensures Follows(calls, taken, j) {
      if j < |before| {
        assert Follows(front, before, j);
      }
    }
    forall j, m: nat | 0 <= j < |taken| && taken[j] < m < NextTaken(calls, taken, j)
        ensures Passed(calls, taken[j], m) {
      if m < n {
        assert m < NextTaken(front, before, j);
        assert Passed(front, before[j], m);
      }
    }
  }

  /** THE HISTORY holds exactly the calls of the sampling, in order. */
  lemma {:induction false} HistoryExact(calls: seq<Sample>, taken: seq<nat>)
    requires Sampling(calls, taken)
    ensures Picks(calls, taken, History(calls))
  {
    hide Since, Regular, FellBelow;
    if calls != [] {
      var n := |calls| - 1;
      var before := SamplingFront(calls, taken);
      HistoryExact(calls[..n], before);
      PickNext(calls, before, History(calls[..n]));
      LastCall(calls);
    }
  }

  lemma PickNext(calls: seq<Sample>, before: seq<nat>, history: seq<Sample>)
    requires calls != [] && Picks(calls[..|calls| - 1], before, history)
    ensures var call := calls[|calls| - 1];
      Picks(calls, Extended(calls, before), if Resets(history, call) then [call] else Push(history, call))
  {
    hide Since, Picks;
    PicksLonger(calls, before, history);
    PicksPush(calls, before, history);
    PicksPush(calls, [], []);
    assert [] + [calls[|calls| - 1]] == [calls[|calls| - 1]];
    var last: nat := |calls| - 1;
    assert [] + [last] == [last];
  }

  lemma PicksLonger(calls: seq<Sample>, before: seq<nat>, history: seq<Sample>)
    requires calls != [] && Picks(calls[..|calls| - 1], before, history)
    ensures Picks(calls, before, history) && Picks(calls, [], []) && |before| == |history|
    ensures before != [] ==>
      before[|before| - 1] < |calls| - 1 && history[|history| - 1] == calls[before[|before| - 1]]
  {
  }

  lemma PicksPush(calls: seq<Sample>, before: seq<nat>, history: seq<Sample>)
    requires calls != [] && Picks(calls, before, history)
    ensures Picks(calls, before + [|calls| - 1], history + [calls[|calls| - 1]])
  {
  }

  lemma {:induction false} SamplingExists(calls: seq<Sample>) returns (taken: seq<nat>)
    ensures Sampling(calls, taken) && (calls != [] ==> taken != [])
  {
    hide Regular, FellBelow;
    if calls == [] {
      taken := [];
    } else {
      var before := SamplingExists(calls[..|calls| - 1]);
      ExtendedSampling(calls, before);
      taken := Extended(calls, before);
    }
  }

  /** `HashrateWindow`. The ghost field remembers every call since the window was made. */
  class HashrateWindow {
    var samples: seq<Sample>
    ghost var calls: seq<Sample>

    ghost predicate Valid()
      reads this
    {
      samples == Samples(calls)
    }

    constructor ()
      ensures Valid() && calls == []
    {
      samples := [];
      calls := [];
    }

    method Record(at: nat, attempts: nat) returns (rate: real)
      requires Valid()
      modifies this
      ensures Valid() && calls == old(calls) + [Sample(at, attempts)]
      ensures rate == Reported(calls)
      ensures Ordered(calls) ==>
        && |samples| <= 31
        && History(calls) != []
        && rate == TrueRate(History(calls)[BaselineIndex(History(calls), at)], Sample(at, attempts))
    {
      hide Samples, Since, Rate, Drop, TrueRate, History, Baseline, BaselineIndex, Ordered, Reported, Next;
      var call := Sample(at, attempts);
      var window := samples;
      ghost var all := calls + [call];
      CallEffect(calls, call);
      if window != [] && attempts < window[|window| - 1].attempts {
        window, rate := [call], 0.0;
      } else {
        if !(window != [] && Since(at, window[|window| - 1].at) < HASHRATE_SAMPLE_INTERVAL) {
          window := window + [call];
        }
        window := DropOld(window, at);
        rate := Rate(window[0], call);
      }
      assert window == Samples(all) && rate == Reported(all);
      samples, calls := window, all;
    }
  }
}
