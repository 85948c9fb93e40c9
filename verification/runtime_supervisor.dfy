/**
 The supervisor's limit on worker restarts (RuntimeStack._restart_worker and wait in
 clozn/cli/runtime_process.py). What the processes do and what the clock shows at each poll
 is a parameter.
 */
module RuntimeSupervisor {
  import opened Common

  /** The times that lie no more than `window` before now. */
  function Recent(times: seq<real>, now: real, window: real): seq<real> {
    if times == [] then []
    else
      var last := times[|times| - 1];
      Recent(times[..|times| - 1], now, window) + if now - last <= window then [last] else []
  }

  function CountIn(times: seq<real>, from: real, to: real): nat {
    if times == [] then 0
    else
      var last := times[|times| - 1];
      CountIn(times[..|times| - 1], from, to) + if from <= last <= to then 1 else 0
  }

  predicate NonDecreasing(times: seq<real>) {
    forall i, j :: 0 <= i <= j < |times| ==> times[i] <= times[j]
  }

  /** One attempt more than the limit takes longer than the window. */
  ghost predicate Spread(times: seq<real>, limit: nat, window: real) {
    forall i :: 0 <= i && i + limit < |times| ==> Apart(times, i, limit, window)
  }

  ghost predicate Apart(times: seq<real>, i: nat, limit: nat, window: real)
    requires i + limit < |times|
  {
    times[i + limit] - times[i] > window
  }

  /** The pruned list is the end of the history, and what was pruned is out of the window. */
  ghost predicate KeepsRelevant(history: seq<real>, recent: seq<real>, clock: real, window: real) {
    && |recent| <= |history| && recent == history[|history| - |recent|..]
    && forall i :: 0 <= i < |history| - |recent| ==> clock - history[i] > window
  }

  // ------------------------------------------------------------------ pruning

  lemma {:induction false} RecentConcat(a: seq<real>, b: seq<real>, now: real, window: real)
    ensures Recent(a + b, now, window) == Recent(a, now, window) + Recent(b, now, window)
  {
    if b == [] {
      assert a + b == a;
    } else {
      assert (a + b)[..|a + b| - 1] == a + b[..|b| - 1];
      RecentConcat(a, b[..|b| - 1], now, window);
    }
  }

  lemma {:induction false} NoneRecent(times: seq<real>, now: real, window: real)
    requires forall i :: 0 <= i < |times| ==> now - times[i] > window
    ensures Recent(times, now, window) == []
  {
    if times != [] {
      NoneRecent(times[..|times| - 1], now, window);
    }
  }

  /** Pruning loses nothing: later on, the short list and the whole history prune to the same. */
  lemma PrunedIsEnough(history: seq<real>, recent: seq<real>, clock: real, now: real, window: real)
    requires KeepsRelevant(history, recent, clock, window) && clock <= now
    ensures Recent(recent, now, window) == Recent(history, now, window)
  {
    hide Recent;
    var gone := history[..|history| - |recent|];
    assert history == gone + recent;
    RecentConcat(gone, recent, now, window);
    NoneRecent(gone, now, window);
    assert [] + Recent(recent, now, window) == Recent(recent, now, window);
  }

  lemma KeepsAppend(history: seq<real>, recent: seq<real>, now: real, window: real)
    requires KeepsRelevant(history, recent, now, window)
    ensures KeepsRelevant(history + [now], recent + [now], now, window)
  {
    var k := |history| - |recent|;
    assert (history + [now])[k..] == history[k..] + [now];
  }

  /** In a history that does not decrease, the recent times are its end. */
  lemma {:induction false} RecentIsSuffix(history: seq<real>, now: real, window: real)
    requires NonDecreasing(history)
    ensures KeepsRelevant(history, Recent(history, now, window), now, window)
  {
    if history != [] {
      var init, last := history[..|history| - 1], history[|history| - 1];
      RecentIsSuffix(init, now, window);
      var recent := Recent(init, now, window);
      if now - last > window {
        forall i | 0 <= i < |init| ensures now - init[i] > window {
          assert init[i] == history[i] <= last;
        }
        NoneRecent(init, now, window);
      } else {
        assert history[|history| - |recent| - 1..] == init[|init| - |recent|..] + [last];
      }
    }
  }

  lemma {:induction false} RecentCount(history: seq<real>, now: real, window: real)
    requires forall i :: 0 <= i < |history| ==> history[i] <= now
    ensures |Recent(history, now, window)| == CountIn(history, now - window, now)
  {
    if history != [] {
      RecentCount(history[..|history| - 1], now, window);
    }
  }

  // ------------------------------------------------------------- the sliding window

  /** An attempt that finds fewer than the limit in its window keeps the attempts spread. */
  lemma AttemptSpreads(history: seq<real>, now: real, limit: nat, window: real)
    requires NonDecreasing(history) && Spread(history, limit, window)
    requires forall i :: 0 <= i < |history| ==> history[i] <= now
    requires |Recent(history, now, window)| < limit
    ensures NonDecreasing(history + [now]) && Spread(history + [now], limit, window)
  {
    var longer := history + [now];
    RecentIsSuffix(history, now, window);
    forall i: nat | i + limit < |longer| ensures Apart(longer, i, limit, window) {
      if i + limit < |history| {
        assert Apart(history, i, limit, window);
      }
    }
  }

  lemma {:induction false} CountConcat(a: seq<real>, b: seq<real>, from: real, to: real)
    ensures CountIn(a + b, from, to) == CountIn(a, from, to) + CountIn(b, from, to)
  {
    if b == [] {
      assert a + b == a;
    } else {
      assert (a + b)[..|a + b| - 1] == a + b[..|b| - 1];
      CountConcat(a, b[..|b| - 1], from, to);
    }
  }

  lemma {:induction false} CountAtMost(times: seq<real>, from: real, to: real)
    ensures CountIn(times, from, to) <= |times|
  {
    if times != [] {
      CountAtMost(times[..|times| - 1], from, to);
    }
  }

  lemma {:induction false} NoneIn(times: seq<real>, from: real, to: real)
    requires forall i :: 0 <= i < |times| ==> times[i] < from
    ensures CountIn(times, from, to) == 0
  {
    if times != [] {
      NoneIn(times[..|times| - 1], from, to);
    }
  }

  /** No closed interval as long as the window holds more attempts than the limit. */
  lemma {:induction false} WindowBound(history: seq<real>, limit: nat, window: real, from: real, to: real)
    requires NonDecreasing(history) && Spread(history, limit, window) && to - from <= window
    ensures CountIn(history, from, to) <= limit
  {
    hide NonDecreasing, Spread;
    CountAtMost(history, from, to);
    if |history| > limit {
      var last := history[|history| - 1];
      if from <= last <= to {
        var k := |history| - limit;
        var early, late := history[..k], history[k..];
        assert history == early + late;
        CountConcat(early, late, from, to);
        CountAtMost(late, from, to);
        EarlyAreOut(history, limit, window, from, k);
        NoneIn(early, from, to);
      } else {
        SpreadBefore(history, limit, window);
        WindowBound(history[..|history| - 1], limit, window, from, to);
      }
    }
  }

  lemma SpreadBefore(history: seq<real>, limit: nat, window: real)
    requires NonDecreasing(history) && Spread(history, limit, window) && history != []
    ensures NonDecreasing(history[..|history| - 1]) && Spread(history[..|history| - 1], limit, window)
  {
    var init := history[..|history| - 1];
    forall i: nat | i + limit < |init| ensures Apart(init, i, limit, window) {
      assert Apart(history, i, limit, window);
    }
  }

  lemma EarlyAreOut(history: seq<real>, limit: nat, window: real, from: real, k: nat)
    requires NonDecreasing(history) && Spread(history, limit, window) && k == |history| - limit > 0
    requires history[|history| - 1] - from <= window
    ensures forall i :: 0 <= i < k ==> history[i] < from
  {
    assert Apart(history, k - 1, limit, window);
    forall i | 0 <= i < k ensures history[i] < from {
      assert history[i] <= history[k - 1];
    }
  }

  // ------------------------------------------------------------------ the supervisor

  datatype Restart = Restarted | GaveUp | SpawnFailed

  /** What one poll finds. */
  datatype Poll = Poll(gatewayCode: Option<int>, workerExited: bool, now: real, spawns: bool)

  datatype Ending = Watching | Exited(code: int) | Raised(restart: Restart)

  /** The clock readings at which a restart was due. */
  function DueTimes(polls: seq<Poll>): seq<real> {
    if polls == [] then []
    else
      var last := polls[|polls| - 1];
      DueTimes(polls[..|polls| - 1]) + if last.gatewayCode.None? && last.workerExited then [last.now] else []
  }

  lemma NothingDue()
    ensures DueTimes([]) == []
  {
  }

  lemma DueStep(polls: seq<Poll>, k: nat)
    requires k < |polls|
    ensures var poll := polls[k];
      DueTimes(polls[..k + 1]) == DueTimes(polls[..k])
        + if poll.gatewayCode.None? && poll.workerExited then [poll.now] else []
  {
    assert polls[..k + 1][..k] == polls[..k];
  }

  predicate ClockRuns(polls: seq<Poll>, clock: real) {
    && (forall i :: 0 <= i < |polls| ==> clock <= polls[i].now)
    && forall i, j :: 0 <= i <= j < |polls| ==> polls[i].now <= polls[j].now
  }

  class RuntimeStack {
    const restartLimit: int
    const restartWindow: real
    var restartTimes: seq<real>
    var workers: nat
    /** Every restart that was attempted, and the latest clock reading. */
    ghost var history: seq<real>
    ghost var clock: real

    constructor (limit: int, window: real, started: real)
      ensures Valid() && restartLimit == limit && restartWindow == window && history == [] && clock == started
      ensures workers == 1
    {
      restartLimit, restartWindow := limit, window;
      restartTimes, workers := [], 1;
      history, clock := [], started;
    }

    ghost function Limit(): nat {
      Max(restartLimit, 0)
    }

    ghost predicate Valid()
      reads this
    {
      && NonDecreasing(history) && (forall i :: 0 <= i < |history| ==> history[i] <= clock)
      && KeepsRelevant(history, restartTimes, clock, restartWindow)
      && Spread(history, Limit(), restartWindow)
    }

    /**
     _restart_worker: it gives up if and only if as many attempts as the limit really lie
     in the window that ends now.
     */
    method RestartWorker(now: real, spawns: bool) returns (r: Restart)
      requires Valid() && clock <= now
      modifies this
      ensures Valid() && clock == now
      ensures r.GaveUp? <==> CountIn(old(history), now - restartWindow, now) >= restartLimit
      ensures history == if r.GaveUp? then old(history) else old(history) + [now]
      ensures !r.GaveUp? ==> (r.Restarted? <==> spawns)
      ensures workers == if r.Restarted? then old(workers) + 1 else old(workers)
    {
      hide KeepsRelevant, Spread, NonDecreasing, Recent, CountIn;
      PrunedIsEnough(history, restartTimes, clock, now, restartWindow);
      RecentCount(history, now, restartWindow);
      RecentIsSuffix(history, now, restartWindow);
      restartTimes := Recent(restartTimes, now, restartWindow);
      clock := now;
      if |restartTimes| >= restartLimit {
        return GaveUp;
      }
      AttemptSpreads(history, now, Limit(), restartWindow);
      KeepsAppend(history, restartTimes, now, restartWindow);
      restartTimes, history := restartTimes + [now], history + [now];
      if !spawns {
        return SpawnFailed;
      }
      workers := workers + 1;
      r := Restarted;
    }

    /** wait, over the polls that it makes; `made` of them were made when it ended. */
    method Wait(polls: seq<Poll>) returns (end: Ending, made: nat)
      requires Valid() && ClockRuns(polls, clock)
      modifies this
      ensures Valid() && made <= |polls|
      ensures end.Watching? ==> made == |polls|
      ensures end.Exited? ==> made > 0 && polls[made - 1].gatewayCode == Some(end.code)
      ensures forall i :: 0 <= i < made - 1 ==> polls[i].gatewayCode.None?
      ensures !(end.Raised? && end.restart.GaveUp?) ==> history == old(history) + DueTimes(polls[..made])
      ensures end.Raised? && end.restart.GaveUp? ==>
        made > 0 && history == old(history) + DueTimes(polls[..made - 1])
        && CountIn(history, polls[made - 1].now - restartWindow, polls[made - 1].now) >= restartLimit
    {
      hide KeepsRelevant, Spread, NonDecreasing, Recent, CountIn, DueTimes;
      NothingDue();
      made := 0;
      while made < |polls|
        invariant made <= |polls| && Valid() && history == old(history) + DueTimes(polls[..made])
        invariant forall i :: made <= i < |polls| ==> clock <= polls[i].now
        invariant forall i :: 0 <= i < made ==> polls[i].gatewayCode.None?
      {
        var poll := polls[made];
        DueStep(polls, made);
        made := made + 1;
        if poll.gatewayCode.Some? {
          return Exited(poll.gatewayCode.value), made;
        }
        if poll.workerExited {
          var restart := RestartWorker(poll.now, poll.spawns);
          if !restart.Restarted? {
            return Raised(restart), made;
          }
        }
      }
      end := Watching;
    }

    /** Over any run, no closed interval as long as the window holds more attempts than the limit. */
    lemma NeverTooMany(from: real, to: real)
      requires Valid() && to - from <= restartWindow
      ensures CountIn(history, from, to) <= Limit()
    {
      WindowBound(history, Limit(), restartWindow, from, to);
    }
  }

  // --------------------------------------------------------- the clock must not go back

  /** The list that the supervisor keeps and all its attempts, after restarts at these times. */
  function Attempts(times: seq<real>, limit: int, window: real): (seq<real>, seq<real>) {
    if times == [] then ([], [])
    else
      var (kept, history) := Attempts(times[..|times| - 1], limit, window);
      var now := times[|times| - 1];
      var recent := Recent(kept, now, window);
      if |recent| >= limit then (recent, history) else (recent + [now], history + [now])
  }

  lemma RecentAppend(times: seq<real>, last: real, now: real, window: real)
    ensures Recent(times + [last], now, window)
         == Recent(times, now, window) + if now - last <= window then [last] else []
  {
    assert (times + [last])[..|times|] == times;
  }

  lemma CountAppend(times: seq<real>, last: real, from: real, to: real)
    ensures CountIn(times + [last], from, to) == CountIn(times, from, to) + if from <= last <= to then 1 else 0
  {
    assert (times + [last])[..|times|] == times;
  }

  lemma AttemptsAppend(times: seq<real>, now: real, limit: int, window: real)
    requires |Recent(Attempts(times, limit, window).0, now, window)| < limit
    ensures Attempts(times + [now], limit, window)
         == (Recent(Attempts(times, limit, window).0, now, window) + [now], Attempts(times, limit, window).1 + [now])
  {
    assert (times + [now])[..|times|] == times;
  }

  /** With a clock that goes back, a window can hold more attempts than the limit. */
  lemma ClockGoingBackMisleads() returns (times: seq<real>)
    ensures CountIn(Attempts(times, 2, 10.0).1, 0.0, 10.0) == 3
  {
    var none: seq<real> := [];
    var a, b := none + [0.0], none + [0.0] + [1.0];
    var c := b + [20.0];
    times := c + [2.0];
    assert Recent(none, 0.0, 10.0) == none && Attempts(none, 2, 10.0) == (none, none) && CountIn(none, 0.0, 10.0) == 0;
    hide Recent, CountIn, Attempts;
    AttemptsAppend(none, 0.0, 2, 10.0);
    RecentIsThere(0.0, 1.0, 10.0);
    AttemptsAppend(a, 1.0, 2, 10.0);
    NoneRecent(b, 20.0, 10.0);
    AttemptsAppend(b, 20.0, 2, 10.0);
    RecentIsThere(20.0, 2.0, 10.0);
    AttemptsAppend(c, 2.0, 2, 10.0);
    CountAppend(none, 0.0, 0.0, 10.0);
    CountAppend(a, 1.0, 0.0, 10.0);
    CountAppend(b, 20.0, 0.0, 10.0);
    CountAppend(c, 2.0, 0.0, 10.0);
  }

  lemma RecentIsThere(last: real, now: real, window: real)
    requires now - last <= window
    ensures Recent([] + [last], now, window) == [last]
  {
    RecentAppend([], last, now, window);
  }
}
