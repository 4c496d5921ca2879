/** Exactly which clock readings and limits keep the budget of a window: apps/push-relay/src/limits.ts, `allow`. */
module Clocks {
  import opened Basics
  import opened Limits

  // ---------------------------------------------------------------- clock readings

  predicate In(time: int, windowMs: Positive, window: int) {
    WindowOf(time, windowMs) == window
  }

  /** The window does not recur once it was left. */
  predicate Uninterrupted(times: seq<int>, windowMs: Positive, window: int) {
    forall i, j, k :: 0 <= i < j < k < |times| && In(times[i], windowMs, window) && In(times[k], windowMs, window)
      ==> In(times[j], windowMs, window)
  }

  /** How many readings are in the window. */
  function Readings(times: seq<int>, windowMs: Positive, window: int): nat {
    if times == [] then 0
    else
      var n := |times| - 1;
      Readings(times[..n], windowMs, window) + (if In(times[n], windowMs, window) then 1 else 0)
  }

  function Times(calls: seq<Call>): (times: seq<int>)
    ensures |times| == |calls| && forall i :: 0 <= i < |calls| ==> times[i] == calls[i].now
  {
    if calls == [] then [] else Times(calls[..|calls| - 1]) + [calls[|calls| - 1].now]
  }

  predicate LimitsUpTo(calls: seq<Call>, limit: int) {
    forall i :: 0 <= i < |calls| ==> calls[i].limit <= limit
  }

  /** Whatever the keys and the limits up to `limit`, no key is admitted more than `limit` times in the window. */
  ghost predicate KeepsBudget(times: seq<int>, maxEntries: nat, windowMs: Positive, limit: int, window: int) {
    forall calls, key :: Times(calls) == times && LimitsUpTo(calls, limit)
      ==> Count(RunLimiter(calls, maxEntries, windowMs).log, windowMs, key, window) <= limit
  }

  // ---------------------------------------------------------------- a window that does not recur

  predicate Seen(times: seq<int>, windowMs: Positive, window: int) {
    exists i :: 0 <= i < |times| && In(times[i], windowMs, window)
  }

  /** What the limiter holds for the window, once it has been given calls at `times`. */
  ghost predicate Tracks(run: Run, times: seq<int>, windowMs: Positive, limit: int, window: int) {
    && (forall key :: Count(run.log, windowMs, key, window) <= limit)
    && (!Seen(times, windowMs, window) ==>
          forall key :: Count(run.log, windowMs, key, window) == 0
                        && (key in run.entries ==> run.entries[key].window != window))
    && (times != [] && In(times[|times| - 1], windowMs, window) ==>
          forall key :: Count(run.log, windowMs, key, window)
                        == if key in run.entries && run.entries[key].window == window then run.entries[key].count
                          else 0)
  }

  lemma SeenMore(times: seq<int>, time: int, windowMs: Positive, window: int)
    ensures Seen(times + [time], windowMs, window) <==> Seen(times, windowMs, window) || In(time, windowMs, window)
  {
    var more := times + [time];
    if Seen(times, windowMs, window) {
      var i :| 0 <= i < |times| && In(times[i], windowMs, window);
      assert more[i] == times[i];
    }
    assert more[|times|] == time;
    hide In;
  }

  /** A call in another window. */
  lemma TracksElsewhere(
    run: Run, times: seq<int>, maxEntries: nat, windowMs: Positive, limit: int, window: int, call: Call)
    requires Tracks(run, times, windowMs, limit, window) && !In(call.now, windowMs, window)
    ensures var d := Decide(run.entries, maxEntries, windowMs, call);
            Tracks(Run(d.entries, Record(run.log, d.admitted, call)), times + [call.now], windowMs, limit, window)
  {
    CountAppend(run.log, Admission(call.key, call.now), windowMs);
    SeenMore(times, call.now, windowMs, window);
    hide Seen, Count, Total, KeysIn, WindowOf;
  }

  /** A call in the window, which is new or was not left. */
  lemma TracksInside(
    run: Run, times: seq<int>, maxEntries: nat, windowMs: Positive, limit: int, window: int, call: Call)
    requires Tracks(run, times, windowMs, limit, window) && In(call.now, windowMs, window)
    requires !Seen(times, windowMs, window) || (times != [] && In(times[|times| - 1], windowMs, window))
    requires call.limit <= limit && 1 <= limit
    ensures var d := Decide(run.entries, maxEntries, windowMs, call);
            Tracks(Run(d.entries, Record(run.log, d.admitted, call)), times + [call.now], windowMs, limit, window)
  {
    CountAppend(run.log, Admission(call.key, call.now), windowMs);
    SeenMore(times, call.now, windowMs, window);
    hide Seen, Count, Total, KeysIn, WindowOf;
  }

  lemma {:induction false} UninterruptedTracks(
    calls: seq<Call>, maxEntries: nat, windowMs: Positive, limit: int, window: int)
    requires Uninterrupted(Times(calls), windowMs, window) && LimitsUpTo(calls, limit) && 1 <= limit
    ensures Tracks(RunLimiter(calls, maxEntries, windowMs), Times(calls), windowMs, limit, window)
  {
    if calls == [] {
    } else {
      var n := |calls| - 1;
      var rest, call := calls[..n], calls[n];
      var times := Times(rest);
      assert Times(calls) == times + [call.now];
      assert forall i :: 0 <= i < n ==> Times(calls)[i] == times[i];
      UninterruptedTracks(rest, maxEntries, windowMs, limit, window);
      var before := RunLimiter(rest, maxEntries, windowMs);
      if In(call.now, windowMs, window) {
        if Seen(times, windowMs, window) {
          var i :| 0 <= i < n && In(times[i], windowMs, window);
          assert i < n - 1 ==> In(Times(calls)[n - 1], windowMs, window);
        }
        TracksInside(before, times, maxEntries, windowMs, limit, window, call);
      } else {
        TracksElsewhere(before, times, maxEntries, windowMs, limit, window, call);
      }
      hide Tracks, In, Decide;
    }
  }

  /** A key is not admitted more often than there are readings. */
  lemma {:induction false} CountUpToReadings(
    calls: seq<Call>, maxEntries: nat, windowMs: Positive, key: string, window: int)
    ensures Count(RunLimiter(calls, maxEntries, windowMs).log, windowMs, key, window)
         <= Readings(Times(calls), windowMs, window)
  {
    if calls == [] {
    } else {
      var n := |calls| - 1;
      var rest, call := calls[..n], calls[n];
      CountUpToReadings(rest, maxEntries, windowMs, key, window);
      CountAppend(RunLimiter(rest, maxEntries, windowMs).log, Admission(call.key, call.now), windowMs);
      assert Times(calls)[..n] == Times(rest);
      hide Decide, Count, KeysIn, Total;
    }
  }

  // ---------------------------------------------------------------- a window that does

  /** One key for every reading, always with the same limit. */
  function OneKey(times: seq<int>, key: string, limit: int): (calls: seq<Call>)
    ensures |calls| == |times| && forall i :: 0 <= i < |times| ==> calls[i] == Call(key, limit, times[i])
  {
    if times == [] then [] else OneKey(times[..|times| - 1], key, limit) + [Call(key, limit, times[|times| - 1])]
  }

  /** The window is met, left and met again. */
  predicate Returned(times: seq<int>, windowMs: Positive, window: int) {
    !Uninterrupted(times, windowMs, window)
  }

  function Bonus(times: seq<int>, windowMs: Positive, window: int): nat {
    if Returned(times, windowMs, window) then 1 else 0
  }

  /** One more reading: the window has returned if it had, or if it was left and is met again. */
  lemma ReturnedMore(times: seq<int>, time: int, windowMs: Positive, window: int)
    ensures Returned(times, windowMs, window) ==> Returned(times + [time], windowMs, window)
    ensures Returned(times + [time], windowMs, window) && !Returned(times, windowMs, window) ==>
              && In(time, windowMs, window) && Seen(times, windowMs, window)
              && !In(times[|times| - 1], windowMs, window)
  {
    var more, n := times + [time], |times|;
    if Returned(times, windowMs, window) {
      var i, j, k :| 0 <= i < j < k < n && In(times[i], windowMs, window) && In(times[k], windowMs, window)
                     && !In(times[j], windowMs, window);
      hide In;
      ReturnedBy(more, windowMs, window, i, j, k);
    }
    if Returned(more, windowMs, window) {
      var i, j, k :| 0 <= i < j < k <= n && In(more[i], windowMs, window) && In(more[k], windowMs, window)
                     && !In(more[j], windowMs, window);
      hide In, Returned, Seen;
      ReturnedEarlier(times, time, windowMs, window, i, j, k);
    }
  }

  lemma ReturnedEarlier(times: seq<int>, time: int, windowMs: Positive, window: int, i: nat, j: nat, k: nat)
    requires i < j < k <= |times|
    requires In((times + [time])[i], windowMs, window) && In((times + [time])[k], windowMs, window)
    requires !In((times + [time])[j], windowMs, window)
    ensures || Returned(times, windowMs, window)
            || (In(time, windowMs, window) && Seen(times, windowMs, window)
              && !In(times[|times| - 1], windowMs, window))
  {
    var n := |times|;
    hide In, Returned;
    assert In(times[i], windowMs, window) && !In(times[j], windowMs, window);
    if k < n {
      ReturnedBy(times, windowMs, window, i, j, k);
    } else if In(times[n - 1], windowMs, window) {
      ReturnedBy(times, windowMs, window, i, j, n - 1);
    }
  }

  lemma ReturnedBy(times: seq<int>, windowMs: Positive, window: int, i: nat, j: nat, k: nat)
    requires i < j && j <= k < |times| && In(times[i], windowMs, window) && In(times[k], windowMs, window)
    requires !In(times[j], windowMs, window)
    ensures Returned(times, windowMs, window)
  {
    hide In;
  }

  lemma {:induction false} SeenReadings(times: seq<int>, windowMs: Positive, window: int)
    ensures Seen(times, windowMs, window) <==> Readings(times, windowMs, window) > 0
  {
    if times != [] {
      var n := |times| - 1;
      SeenReadings(times[..n], windowMs, window);
      SeenMore(times[..n], times[n], windowMs, window);
      assert times == times[..n] + [times[n]];
      hide Seen, In;
    }
  }

  /** What one key is admitted at least: each return of the window lets it start again. */
  ghost predicate Admitted(
    run: Run, times: seq<int>, windowMs: Positive, key: string, limit: int, window: int)
  {
    var count := Count(run.log, windowMs, key, window);
    && Min(limit + Bonus(times, windowMs, window), Readings(times, windowMs, window)) <= count
    && (times == [] ==> run.entries == map[])
    && (times != [] ==>
          && key in run.entries && run.entries == map[key := run.entries[key]]
          && In(times[|times| - 1], windowMs, run.entries[key].window)
          && 1 <= run.entries[key].count <= limit
          && (run.entries[key].window == window ==> run.entries[key].count + Bonus(times, windowMs, window) <= count))
  }

  /** The key is the only one, so a place is never lacking. */
  lemma OneKeyDecision(entries: Entries, maxEntries: nat, windowMs: Positive, call: Call)
    requires entries == map[] || (call.key in entries && entries == map[call.key := entries[call.key]])
    requires 1 <= call.limit && 1 <= maxEntries
    ensures var d, w := Decide(entries, maxEntries, windowMs, call), WindowOf(call.now, windowMs);
            if call.key in entries && entries[call.key].window == w then
              var c := entries[call.key].count;
              if c >= call.limit then !d.admitted && d.entries == entries
              else d.admitted && d.entries == map[call.key := Entry(w, c + 1)]
            else d.admitted && d.entries == map[call.key := Entry(w, 1)]
  {
    hide WindowOf;
  }

  lemma AdmittedMore(
    run: Run, times: seq<int>, maxEntries: nat, windowMs: Positive, limit: int, window: int, call: Call)
    requires Admitted(run, times, windowMs, call.key, limit, window) && call.limit == limit && 1 <= limit
             && 1 <= maxEntries
    ensures var d := Decide(run.entries, maxEntries, windowMs, call);
            Admitted(
              Run(d.entries, Record(run.log, d.admitted, call)), times + [call.now], windowMs, call.key, limit, window)
  {
    CountAppend(run.log, Admission(call.key, call.now), windowMs);
    ReturnedMore(times, call.now, windowMs, window);
    SeenReadings(times, windowMs, window);
    OneKeyDecision(run.entries, maxEntries, windowMs, call);
    assert (times + [call.now])[..|times|] == times;
    hide Seen, Count, Total, KeysIn, WindowOf, Returned, Decide;
  }

  lemma {:induction false} OneKeyAdmitted(
    times: seq<int>, maxEntries: nat, windowMs: Positive, key: string, limit: int, window: int)
    requires 1 <= limit && 1 <= maxEntries
    ensures Admitted(RunLimiter(OneKey(times, key, limit), maxEntries, windowMs), times, windowMs, key, limit, window)
  {
    if times == [] {
    } else {
      var n := |times| - 1;
      var rest := times[..n];
      OneKeyAdmitted(rest, maxEntries, windowMs, key, limit, window);
      assert OneKey(times, key, limit)[..n] == OneKey(rest, key, limit);
      assert times == rest + [times[n]];
      AdmittedMore(
        RunLimiter(OneKey(rest, key, limit), maxEntries, windowMs), rest, maxEntries, windowMs, limit, window,
        Call(key, limit, times[n]));
      hide Admitted, Decide;
    }
  }

  // ---------------------------------------------------------------- main results

  lemma BudgetKept(times: seq<int>, maxEntries: nat, windowMs: Positive, limit: int, window: int)
    requires 1 <= limit && (Uninterrupted(times, windowMs, window) || Readings(times, windowMs, window) <= limit)
    ensures KeepsBudget(times, maxEntries, windowMs, limit, window)
  {
    hide RunLimiter, Count, Uninterrupted, Readings, LimitsUpTo;
    forall calls, key | Times(calls) == times && LimitsUpTo(calls, limit)
      ensures Count(RunLimiter(calls, maxEntries, windowMs).log, windowMs, key, window) <= limit
    {
      CountUpToReadings(calls, maxEntries, windowMs, key, window);
      if Uninterrupted(times, windowMs, window) {
        UninterruptedTracks(calls, maxEntries, windowMs, limit, window);
      }
    }
  }

  lemma BudgetBroken(times: seq<int>, maxEntries: nat, windowMs: Positive, limit: int, window: int)
    requires 1 <= maxEntries && 1 <= limit
    requires !Uninterrupted(times, windowMs, window) && limit < Readings(times, windowMs, window)
    ensures !KeepsBudget(times, maxEntries, windowMs, limit, window)
  {
    hide *;
    KeyExceeds(times, maxEntries, windowMs, "a", limit, window);
  }

  /** All calls on one key. */
  lemma KeyExceeds(times: seq<int>, maxEntries: nat, windowMs: Positive, key: string, limit: int, window: int)
    requires 1 <= maxEntries && 1 <= limit
    requires !Uninterrupted(times, windowMs, window) && limit < Readings(times, windowMs, window)
    ensures !KeepsBudget(times, maxEntries, windowMs, limit, window)
  {
    var calls := OneKey(times, key, limit);
    OneKeyAdmitted(times, maxEntries, windowMs, key, limit, window);
    assert Times(calls) == times && LimitsUpTo(calls, limit);
    hide RunLimiter, Count, Readings, LimitsUpTo, OneKey, KeepsBudget, Uninterrupted;
    assert Count(RunLimiter(calls, maxEntries, windowMs).log, windowMs, key, window) > limit;
    hide *;
    BudgetExceeded(times, maxEntries, windowMs, limit, window, calls, key);
  }

  lemma BudgetExceeded(
    times: seq<int>, maxEntries: nat, windowMs: Positive, limit: int, window: int, calls: seq<Call>, key: string)
    requires Times(calls) == times && LimitsUpTo(calls, limit)
    requires Count(RunLimiter(calls, maxEntries, windowMs).log, windowMs, key, window) > limit
    ensures !KeepsBudget(times, maxEntries, windowMs, limit, window)
  {
    hide RunLimiter, Count, LimitsUpTo, Times;
  }

  /**
   * Clock readings keep a window to a limit, whatever the keys, exactly if the window does not recur once it was left,
   * or has no more readings than the limit.
   */
  lemma BudgetIffUninterrupted(times: seq<int>, maxEntries: nat, windowMs: Positive, limit: int, window: int)
    requires 1 <= maxEntries && 1 <= limit
    ensures KeepsBudget(times, maxEntries, windowMs, limit, window) <==>
            Uninterrupted(times, windowMs, window) || Readings(times, windowMs, window) <= limit
  {
    hide *;
    if Uninterrupted(times, windowMs, window) || Readings(times, windowMs, window) <= limit {
      BudgetKept(times, maxEntries, windowMs, limit, window);
    } else {
      BudgetBroken(times, maxEntries, windowMs, limit, window);
    }
  }

  /** They keep every window to every limit exactly if no window recurs once it was left. */
  lemma AllBudgetsIffNoReturn(times: seq<int>, maxEntries: nat, windowMs: Positive)
    requires 1 <= maxEntries
    ensures (forall limit, window :: 1 <= limit ==> KeepsBudget(times, maxEntries, windowMs, limit, window)) <==>
            (forall window :: Uninterrupted(times, windowMs, window))
  {
    forall limit: int, window: int | 1 <= limit
      ensures KeepsBudget(times, maxEntries, windowMs, limit, window) <==>
              Uninterrupted(times, windowMs, window) || Readings(times, windowMs, window) <= limit
    {
      BudgetIffUninterrupted(times, maxEntries, windowMs, limit, window);
    }
    forall window: int | !Uninterrupted(times, windowMs, window)
      ensures !KeepsBudget(times, maxEntries, windowMs, 1, window)
    {
      TwoReadings(times, windowMs, window);
      assert KeepsBudget(times, maxEntries, windowMs, 1, window) <==>
             Uninterrupted(times, windowMs, window) || Readings(times, windowMs, window) <= 1;
    }
    hide KeepsBudget, Uninterrupted, Readings;
  }

  /** A window that recurs has at least two readings. */
  lemma {:induction false} TwoReadings(times: seq<int>, windowMs: Positive, window: int)
    requires !Uninterrupted(times, windowMs, window)
    ensures Readings(times, windowMs, window) >= 2
  {
    var n := |times| - 1;
    var rest := times[..n];
    assert times == rest + [times[n]];
    ReturnedMore(rest, times[n], windowMs, window);
    SeenReadings(rest, windowMs, window);
    if Returned(rest, windowMs, window) {
      TwoReadings(rest, windowMs, window);
    }
    hide Seen, In, Uninterrupted;
  }

  /** A clock that does not go back never returns to a window. */
  lemma NondecreasingIsUninterrupted(calls: seq<Call>, windowMs: Positive, window: int)
    requires Nondecreasing(calls)
    ensures Uninterrupted(Times(calls), windowMs, window)
  {
    var times := Times(calls);
    forall i, j, k | 0 <= i < j < k < |times| && In(times[i], windowMs, window) && In(times[k], windowMs, window)
      ensures In(times[j], windowMs, window)
    {
      WindowMonotone(times[i], times[j], windowMs);
      WindowMonotone(times[j], times[k], windowMs);
    }
  }

  /** Every run with a clock that does not go back keeps every window to the limit. */
  ghost predicate KeepsLimit(maxEntries: nat, windowMs: Positive, limit: int) {
    forall calls, key, window :: Nondecreasing(calls) && LimitsUpTo(calls, limit)
      ==> Count(RunLimiter(calls, maxEntries, windowMs).log, windowMs, key, window) <= limit
  }

  lemma FirstCallIsAdmitted(maxEntries: nat, windowMs: Positive, calls: seq<Call>, call: Call)
    requires 1 <= maxEntries && calls == [call]
    ensures Count(RunLimiter(calls, maxEntries, windowMs).log, windowMs, call.key, WindowOf(call.now, windowMs)) == 1
  {
    assert calls[..0] == [];
    assert RunLimiter([], maxEntries, windowMs) == Run(map[], []);
    assert RunLimiter(calls, maxEntries, windowMs).log == [] + [Admission(call.key, call.now)];
    CountAppend([], Admission(call.key, call.now), windowMs);
  }

  /** A limit is kept by all runs with a clock that does not go back exactly if it is at least 1. */
  lemma LimitKeptIffPositive(maxEntries: nat, windowMs: Positive, limit: int)
    requires 1 <= maxEntries
    ensures KeepsLimit(maxEntries, windowMs, limit) <==> 1 <= limit
  {
    if 1 <= limit {
      forall calls, key, window | Nondecreasing(calls) && LimitsUpTo(calls, limit)
        ensures Count(RunLimiter(calls, maxEntries, windowMs).log, windowMs, key, window) <= limit
      {
        LimiterRefinesIdeal(calls, maxEntries, windowMs);
        WindowBudget(calls, maxEntries, windowMs, key, limit, window);
      }
    } else {
      var call := Call("a", limit, 0);
      var calls := [call];
      FirstCallIsAdmitted(maxEntries, windowMs, calls, call);
      assert Nondecreasing(calls) && LimitsUpTo(calls, limit);
      hide RunLimiter, Count, WindowOf;
    }
  }
}
