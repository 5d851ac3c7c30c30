/** The circuit breaker: a pruned list and one timestamp against the whole history. */
module Breaker {
  import opened Wrappers

  datatype BreakerState = Closed | Open | HalfOpen

  datatype Outcome = Failure(at: real) | Success(at: real)

  datatype Config = Config(threshold: int, window: real, cooldown: real)

  // ---- The history as specification ---------------------------------------------------

  /** Outcomes are recorded under a lock that also reads the clock. */
  predicate Ordered(history: seq<Outcome>) {
    forall i, j | 0 <= i < j < |history| :: history[i].at <= history[j].at
  }

  /** Times of the failures since the last success. */
  function SinceSuccess(history: seq<Outcome>): seq<real> {
    if history == [] then []
    else
      var last := history[|history| - 1];
      if last.Success? then [] else SinceSuccess(history[..|history| - 1]) + [last.at]
  }

  /** Those of the times less than a window before `now`. */
  function Within(times: seq<real>, now: real, window: real): seq<real> {
    if times == [] then []
    else
      var rest := Within(times[..|times| - 1], now, window);
      var t := times[|times| - 1];
      if now - t < window then rest + [t] else rest
  }

  /** The failures of a streak that lie within the window of its latest. */
  function Recent(streak: seq<real>, window: real): seq<real> {
    if streak == [] then [] else Within(streak, streak[|streak| - 1], window)
  }

  /** The i-th failure of a streak closes a window with at least the threshold in it. */
  predicate Trips(streak: seq<real>, i: nat, c: Config)
    requires i < |streak|
  {
    |Within(streak[..i + 1], streak[i], c.window)| >= c.threshold
  }

  /** The time of the first failure of a streak that trips. */
  function TrippedAt(streak: seq<real>, c: Config): Option<real> {
    if streak == [] then None
    else
      var n := |streak| - 1;
      var earlier := TrippedAt(streak[..n], c);
      if earlier.Some? then earlier
      else if |Recent(streak, c.window)| >= c.threshold then Some(streak[n])
      else None
  }

  /** TrippedAt is the first tripping failure, and None when there is none. */
  lemma {:induction false} TrippedAtIsFirst(streak: seq<real>, c: Config)
    ensures match TrippedAt(streak, c)
            case None => forall i | 0 <= i < |streak| :: !Trips(streak, i, c)
            case Some(t) => exists i :: 0 <= i < |streak| && streak[i] == t && Trips(streak, i, c)
                                        && forall j | 0 <= j < i :: !Trips(streak, j, c)
  {
    if streak != [] {
      var n := |streak| - 1;
      TrippedAtIsFirst(streak[..n], c);
      assert streak[..n + 1] == streak;
      forall i | 0 <= i < n ensures Trips(streak, i, c) == Trips(streak[..n], i, c) {
        assert streak[..n][..i + 1] == streak[..i + 1];
      }
      if TrippedAt(streak[..n], c).Some? {
        var i :| 0 <= i < n && streak[..n][i] == TrippedAt(streak[..n], c).value && Trips(streak[..n], i, c)
                 && forall j | 0 <= j < i :: !Trips(streak[..n], j, c);
        assert streak[i] == streak[..n][i] && Trips(streak, i, c);
      } else {
        assert Trips(streak, n, c) <==> |Recent(streak, c.window)| >= c.threshold;
      }
    }
  }

  /** Within keeps exactly the times inside the window, each as often as it was recorded. */
  lemma {:induction false} WithinIsExact(times: seq<real>, now: real, window: real)
    ensures forall t :: multiset(Within(times, now, window))[t] == if now - t < window then multiset(times)[t] else 0
  {
    if times != [] {
      var n := |times| - 1;
      WithinIsExact(times[..n], now, window);
      assert times == times[..n] + [times[n]];
    }
  }

  /** Of times in order it keeps an end piece, so it keeps their order. */
  lemma {:induction false} WithinIsSuffix(times: seq<real>, now: real, window: real)
    requires forall i, j | 0 <= i < j < |times| :: times[i] <= times[j]
    ensures var kept := Within(times, now, window);
            && |kept| <= |times| && kept == times[|times| - |kept|..]
            && (forall i | 0 <= i < |times| :: now - times[i] < window <==> i >= |times| - |kept|)
  {
    if times != [] {
      var n := |times| - 1;
      WithinIsSuffix(times[..n], now, window);
      var kept := Within(times[..n], now, window);
      if now - times[n] < window {
        assert times == times[..n] + [times[n]];
      } else {
        assert forall i | 0 <= i < n :: times[..n][i] <= times[n];
        assert |kept| == 0;
      }
    }
  }

  lemma {:induction false} StreakTimes(history: seq<Outcome>)
    requires Ordered(history)
    ensures forall t | t in SinceSuccess(history) :: exists i :: 0 <= i < |history| && history[i].at == t
    ensures forall i, j | 0 <= i < j < |SinceSuccess(history)| :: SinceSuccess(history)[i] <= SinceSuccess(history)[j]
  {
    if history != [] && history[|history| - 1].Failure? {
      var n := |history| - 1;
      StreakTimes(history[..n]);
      var s := SinceSuccess(history[..n]);
      forall t | t in s ensures t <= history[n].at && exists i :: 0 <= i < |history| && history[i].at == t {
        var i :| 0 <= i < n && history[..n][i].at == t;
        assert history[i].at == t;
      }
      assert forall k | 0 <= k < |s| :: s[k] in s;
      assert history[n].at == history[|history| - 1].at;
    }
  }

  /** Pruning again at a later time what was pruned before loses nothing that counts. */
  lemma {:induction false} PruneTwice(times: seq<real>, earlier: real, now: real, window: real)
    requires earlier <= now
    ensures Within(Within(times, earlier, window), now, window) == Within(times, now, window)
  {
    if times != [] {
      var n := |times| - 1;
      PruneTwice(times[..n], earlier, now, window);
      var kept := Within(times[..n], earlier, window);
      if earlier - times[n] < window {
        assert (kept + [times[n]])[..|kept|] == kept;
      }
    }
  }

  lemma RecentOfLonger(streak: seq<real>, now: real, window: real)
    requires window > 0.0
    requires streak != [] ==> streak[|streak| - 1] <= now
    ensures Recent(streak + [now], window) == Within(Recent(streak, window), now, window) + [now]
  {
    assert (streak + [now])[..|streak|] == streak;
    if streak != [] {
      PruneTwice(streak, streak[|streak| - 1], now, window);
    }
  }

  // ---- The class --------------------------------------------------------------------------

  class CircuitBreaker {
    const config: Config
    var failures: seq<real>
    var openedAt: Option<real>
    ghost var history: seq<Outcome>

    /** The two fields are functions of everything ever recorded. */
    ghost predicate Valid()
      reads this
    {
      && Ordered(history) && config.window > 0.0
      && failures == Recent(SinceSuccess(history), config.window)
      && openedAt == TrippedAt(SinceSuccess(history), config)
    }

    constructor (config: Config)
      requires config.window > 0.0
      ensures Valid() && history == [] && this.config == config
    {
      this.config := config;
      failures, openedAt := [], None;
      history := [];
    }

    function State(now: real): BreakerState
      reads this
    {
      if openedAt.None? then Closed
      else if now - openedAt.value >= config.cooldown then HalfOpen
      else Open
    }

    method RecordFailure(now: real)
      requires Valid() && forall e | e in history :: e.at <= now
      modifies `failures, `openedAt, `history
      ensures Valid() && history == old(history) + [Failure(now)]
    {
      ghost var streak := SinceSuccess(history);
      assert history[..] == history;
      StreakTimes(history);
      RecentOfLonger(streak, now, config.window) by {
        assert streak != [] ==> streak[|streak| - 1] in streak;
      }
      var kept := Prune(failures, now, config.window);
      failures := kept + [now];
      if |failures| >= config.threshold && openedAt.None? {
        openedAt := Some(now);
      }
      history := history + [Failure(now)];
      assert history[..|history| - 1] == old(history);
      assert SinceSuccess(history) == streak + [now];
      assert (streak + [now])[..|streak|] == streak;
    }

    method RecordSuccess(now: real)
      requires Valid() && forall e | e in history :: e.at <= now
      modifies `failures, `openedAt, `history
      ensures Valid() && history == old(history) + [Success(now)]
      ensures State(now) == Closed
    {
      failures := [];
      openedAt := None;
      history := history + [Success(now)];
    }

    /** `call` up to the protected function: it is let through exactly when, in the run of
        overlapping calls that the breaker has recorded, a call arriving now starts. */
    method Begin(now: real, ghost run: seq<Happening>) returns (admitted: bool)
      requires Valid() && history == Recorded(run)
      ensures admitted <==> Starts(run + [Arrive(now)], |run|, config)
    {
      admitted := State(now) != Open;
      StateIsThatOfRun(this, run, now);
      assert (run + [Arrive(now)])[..|run|] == run;
    }

    /** `call` from the end of the protected function on. */
    method End(ok: bool, now: real)
      requires Valid() && forall e | e in history :: e.at <= now
      modifies `failures, `openedAt, `history
      ensures Valid() && history == old(history) + [if ok then Success(now) else Failure(now)]
    {
      if ok {
        RecordSuccess(now);
      } else {
        RecordFailure(now);
      }
    }
  }

  /** The comprehension that drops old failures. */
  method Prune(failures: seq<real>, now: real, window: real) returns (kept: seq<real>)
    ensures kept == Within(failures, now, window)
  {
    kept := [];
    for i := 0 to |failures|
      invariant kept == Within(failures[..i], now, window)
    {
      assert failures[..i + 1][..i] == failures[..i];
      if now - failures[i] < window {
        kept := kept + [failures[i]];
      }
    }
    assert failures[..|failures|] == failures;
  }

  // ---- Overlapping calls --------------------------------------------------------------------

  /** What happens at the breaker, in order: a call arrives, or one that was let through ends. */
  datatype Happening = Arrive(at: real) | Finish(at: real, ok: bool)

  function Recorded(run: seq<Happening>): seq<Outcome> {
    if run == [] then []
    else
      var n := |run| - 1;
      match run[n]
      case Arrive(_) => Recorded(run[..n])
      case Finish(at, ok) => Recorded(run[..n]) + [if ok then Success(at) else Failure(at)]
  }

  function StateAfter(run: seq<Happening>, now: real, c: Config): BreakerState {
    match TrippedAt(SinceSuccess(Recorded(run)), c)
    case None => Closed
    case Some(t) => if now - t >= c.cooldown then HalfOpen else Open
  }

  /** The state that the class reports is the one that the run says, if the run is what
      the class has recorded. */
  lemma StateIsThatOfRun(b: CircuitBreaker, run: seq<Happening>, now: real)
    requires b.Valid() && b.history == Recorded(run)
    ensures b.State(now) == StateAfter(run, now, b.config)
  {
  }

  /** The i-th happening is a call that is let through. */
  predicate Starts(run: seq<Happening>, i: nat, c: Config)
    requires i < |run|
  {
    run[i].Arrive? && StateAfter(run[..i], run[i].at, c) != Open
  }

  lemma FailureKeepsTrip(streak: seq<real>, at: real, c: Config)
    requires TrippedAt(streak, c).Some?
    ensures TrippedAt(streak + [at], c) == TrippedAt(streak, c)
  {
    assert (streak + [at])[..|streak|] == streak;
  }

  lemma RecordedOne(run: seq<Happening>, j: nat)
    requires j < |run|
    ensures Recorded(run[..j + 1]) ==
            match run[j]
            case Arrive(_) => Recorded(run[..j])
            case Finish(at, ok) => Recorded(run[..j]) + [if ok then Success(at) else Failure(at)]
  {
    assert run[..j + 1][..j] == run[..j];
  }

  lemma StreakOfOneMore(history: seq<Outcome>, at: real)
    ensures SinceSuccess(history + [Failure(at)]) == SinceSuccess(history) + [at]
  {
    assert (history + [Failure(at)])[..|history|] == history;
  }

  /** A trip stands through any number of further failures. */
  lemma {:induction false} TripStands(run: seq<Happening>, i: nat, j: nat, c: Config)
    requires i <= j <= |run|
    requires TrippedAt(SinceSuccess(Recorded(run[..i])), c).Some?
    requires forall k | i <= k < j :: !(run[k].Finish? && run[k].ok)
    ensures TrippedAt(SinceSuccess(Recorded(run[..j])), c) == TrippedAt(SinceSuccess(Recorded(run[..i])), c)
    decreases j
  {
    if i < j {
      TripStands(run, i, j - 1, c);
      RecordedOne(run, j - 1);
      if run[j - 1].Finish? {
        var before := Recorded(run[..j - 1]);
        StreakOfOneMore(before, run[j - 1].at);
        FailureKeepsTrip(SinceSuccess(before), run[j - 1].at, c);
      }
    }
  }

  /** Once the cooldown has passed since a trip, every call is let through until some
      success is recorded, however many calls fail meanwhile. */
  lemma HalfOpenLetsEveryoneThrough(run: seq<Happening>, i: nat, j: nat, c: Config)
    requires i <= j < |run| && run[j].Arrive?
    requires forall k | i <= k < j :: !(run[k].Finish? && run[k].ok)
    requires var t := TrippedAt(SinceSuccess(Recorded(run[..i])), c);
             t.Some? && run[j].at - t.value >= c.cooldown
    ensures Starts(run, j, c)
    ensures StateAfter(run[..j], run[j].at, c) == HalfOpen
  {
    TripStands(run, i, j, c);
  }

  /** And before the cooldown has passed no call is, unless a success was recorded. */
  lemma OpenStopsEveryone(run: seq<Happening>, i: nat, j: nat, c: Config)
    requires i <= j < |run| && run[j].Arrive?
    requires forall k | i <= k < j :: !(run[k].Finish? && run[k].ok)
    requires var t := TrippedAt(SinceSuccess(Recorded(run[..i])), c);
             t.Some? && run[j].at - t.value < c.cooldown
    ensures !Starts(run, j, c)
  {
    TripStands(run, i, j, c);
  }

  // ---- Exactly who is stopped -----------------------------------------------------------------

  predicate FailedAt(run: seq<Happening>, k: nat)
    requires k < |run|
  {
    run[k].Finish? && !run[k].ok
  }

  /** A failure less than a window before `now`. */
  predicate Hit(run: seq<Happening>, m: nat, now: real, window: real)
    requires m < |run|
  {
    FailedAt(run, m) && now - run[m].at < window
  }

  function Hits(run: seq<Happening>, i: nat, j: nat, now: real, window: real): set<nat>
    requires i <= j <= |run|
  {
    set m: nat | i <= m < j && Hit(run, m, now, window)
  }

  /** The k-th happening is a failure with at least the threshold of them, from i on, in its window. */
  predicate Tripping(run: seq<Happening>, i: nat, k: nat, c: Config)
    requires i <= k < |run|
  {
    FailedAt(run, k) && |Hits(run, i, k + 1, run[k].at, c.window)| >= c.threshold
  }

  /** The first of them up to j. */
  predicate FirstTripping(run: seq<Happening>, i: nat, j: nat, k: nat, c: Config)
    requires i <= j <= |run|
  {
    i <= k < j && Tripping(run, i, k, c) && forall m | i <= m < k :: !Tripping(run, i, m, c)
  }

  /** The streak of run[..j] begins at i: the run does, or a success was recorded just before,
      and none since. */
  predicate StreakFrom(run: seq<Happening>, i: nat, j: nat) {
    && i <= j <= |run|
    && (i == 0 || (run[i - 1].Finish? && run[i - 1].ok))
    && forall k | i <= k < j :: !(run[k].Finish? && run[k].ok)
  }

  function FailureTimes(run: seq<Happening>, i: nat, j: nat): seq<real>
    requires i <= j <= |run|
  {
    if i == j then []
    else if FailedAt(run, j - 1) then FailureTimes(run, i, j - 1) + [run[j - 1].at]
    else FailureTimes(run, i, j - 1)
  }

  lemma {:induction false} StreakIs(run: seq<Happening>, i: nat, j: nat)
    requires StreakFrom(run, i, j)
    ensures SinceSuccess(Recorded(run[..j])) == FailureTimes(run, i, j)
    decreases j
  {
    if i < j {
      StreakIs(run, i, j - 1);
      RecordedOne(run, j - 1);
      if run[j - 1].Finish? {
        StreakOfOneMore(Recorded(run[..j - 1]), run[j - 1].at);
      }
    } else if i > 0 {
      RecordedOne(run, i - 1);
    }
  }

  lemma OneMoreHit(run: seq<Happening>, i: nat, j: nat, now: real, window: real)
    requires i <= j < |run|
    ensures |Hits(run, i, j + 1, now, window)|
            == |Hits(run, i, j, now, window)| + if Hit(run, j, now, window) then 1 else 0
  {
    var before, hits := Hits(run, i, j, now, window), Hits(run, i, j + 1, now, window);
    forall m: nat ensures m in hits <==> m in before || (m == j && Hit(run, j, now, window)) {
      assert m in hits <==> i <= m < j + 1 && Hit(run, m, now, window);
    }
    if Hit(run, j, now, window) {
      assert hits == before + {j};
    } else {
      assert hits == before;
    }
  }

  lemma {:induction false} WithinCounts(run: seq<Happening>, i: nat, j: nat, now: real, window: real)
    requires i <= j <= |run|
    ensures |Within(FailureTimes(run, i, j), now, window)| == |Hits(run, i, j, now, window)|
    decreases j
  {
    if i == j {
      assert Hits(run, i, j, now, window) == {};
    } else {
      WithinCounts(run, i, j - 1, now, window);
      OneMoreHit(run, i, j - 1, now, window);
      var times := FailureTimes(run, i, j - 1);
      assert (times + [run[j - 1].at])[..|times|] == times;
    }
  }

  lemma {:induction false} TrippedIs(run: seq<Happening>, i: nat, j: nat, c: Config)
    requires i <= j <= |run|
    ensures match TrippedAt(FailureTimes(run, i, j), c)
            case None => forall k | i <= k < j :: !Tripping(run, i, k, c)
            case Some(t) => exists k: nat :: FirstTripping(run, i, j, k, c) && run[k].at == t
    decreases j
  {
    if i < j {
      TrippedIs(run, i, j - 1, c);
      var times := FailureTimes(run, i, j - 1);
      match TrippedAt(times, c)
      case None =>
        if FailedAt(run, j - 1) {
          assert (times + [run[j - 1].at])[..|times|] == times;
          WithinCounts(run, i, j, run[j - 1].at, c.window);
          if Tripping(run, i, j - 1, c) {
            assert FirstTripping(run, i, j, j - 1, c);
          }
        }
      case Some(t) =>
        var k: nat :| FirstTripping(run, i, j - 1, k, c) && run[k].at == t;
        assert FirstTripping(run, i, j, k, c);
        if FailedAt(run, j - 1) {
          FailureKeepsTrip(times, run[j - 1].at, c);
        }
    }
  }

  lemma FirstIsOne(run: seq<Happening>, i: nat, j: nat, k: nat, k': nat, c: Config)
    requires i <= j <= |run| && FirstTripping(run, i, j, k, c) && FirstTripping(run, i, j, k', c)
    ensures k == k'
  {
  }

  /** Of overlapping calls, just those are stopped that arrive after a failure which, first
      since the last success, had the threshold of failures in its window, and less than the
      cooldown after it. */
  lemma StoppedExactlyWhen(run: seq<Happening>, i: nat, j: nat, c: Config)
    requires j < |run| && run[j].Arrive? && StreakFrom(run, i, j)
    ensures !Starts(run, j, c)
            <==> exists k: nat :: FirstTripping(run, i, j, k, c) && run[j].at - run[k].at < c.cooldown
    ensures StateAfter(run[..j], run[j].at, c) == Closed <==> forall k | i <= k < j :: !Tripping(run, i, k, c)
  {
    StreakIs(run, i, j);
    TrippedIs(run, i, j, c);
    if TrippedAt(FailureTimes(run, i, j), c).Some? {
      var k: nat :| FirstTripping(run, i, j, k, c) && run[k].at == TrippedAt(FailureTimes(run, i, j), c).value;
      forall k': nat | FirstTripping(run, i, j, k', c) ensures k' == k {
        FirstIsOne(run, i, j, k, k', c);
      }
    }
  }
}
