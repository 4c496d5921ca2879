/** Fixed-window rate limiting in a bounded map: apps/push-relay/src/limits.ts. */
module Limits {
  import opened Basics

  type Positive = n: int | 0 < n witness 1

  datatype Entry = Entry(window: int, count: nat)
  type Entries = map<string, Entry>

  /** One call of `allow`, with the clock reading it is given. */
  datatype Call = Call(key: string, limit: int, now: int)

  /** One admitted call. A sequence of them, oldest first, is the whole history of a limiter. */
  datatype Admission = Admission(key: string, time: int)

  datatype Decision = Decision(admitted: bool, entries: Entries)

  /** The window a time falls in. The divisor is positive, so Dafny's division floors as Math.floor does. */
  function WindowOf(now: int, windowMs: Positive): int {
    now / windowMs
  }

  /** Windows start at the multiples of their length. */
  lemma WindowIs(now: int, windowMs: Positive, window: int)
    ensures WindowOf(now, windowMs) == window <==> window * windowMs <= now < (window + 1) * windowMs
  {
    WindowHolds(WindowOf(now, windowMs), window, windowMs, now % windowMs);
    assert now == WindowOf(now, windowMs) * windowMs + now % windowMs;
  }

  lemma WindowHolds(q: int, window: int, windowMs: Positive, r: int)
    requires 0 <= r < windowMs
    ensures q == window <==> window * windowMs <= q * windowMs + r < (window + 1) * windowMs
  {
    NotNegative(q - window - 1, windowMs);
    NotNegative(window - q - 1, windowMs);
    assert (q - window - 1) * windowMs == q * windowMs - (window + 1) * windowMs;
    assert (window - q - 1) * windowMs == window * windowMs - q * windowMs - windowMs;
  }

  lemma NotNegative(a: int, b: Positive)
    ensures a >= 0 ==> a * b >= 0
  {
  }

  // ---------------------------------------------------------------- the bounded map

  function Sweep(entries: Entries, window: int): Entries {
    map k | k in entries && entries[k].window == window :: entries[k]
  }

  /** What `allow` answers and stores. */
  function Decide(entries: Entries, maxEntries: nat, windowMs: Positive, call: Call): Decision {
    var window := WindowOf(call.now, windowMs);
    if call.key in entries && entries[call.key].window == window then
      var existing := entries[call.key];
      if existing.count >= call.limit then Decision(false, entries)
      else Decision(true, entries[call.key := Entry(window, existing.count + 1)])
    else
      var swept := if call.key !in entries && |entries| >= maxEntries then Sweep(entries, window) else entries;
      if call.key !in entries && |swept| >= maxEntries then Decision(false, swept)
      else Decision(true, swept[call.key := Entry(window, 1)])
  }

  class WindowLimiter {
    var entries: Entries
    const maxEntries: nat
    const windowMs: Positive

    constructor (maxEntries: nat, windowMs: Positive)
      ensures this.maxEntries == maxEntries && this.windowMs == windowMs && entries == map[]
    {
      this.maxEntries := maxEntries;
      this.windowMs := windowMs;
      entries := map[];
    }

    method Allow(key: string, limit: int, now: int) returns (admitted: bool)
      modifies this
      ensures Decision(admitted, entries) == Decide(old(entries), maxEntries, windowMs, Call(key, limit, now))
    {
      var window := now / windowMs;
      if key in entries && entries[key].window == window {
        if entries[key].count >= limit {
          return false;
        }
        entries := entries[key := Entry(window, entries[key].count + 1)];
        return true;
      }
      if key !in entries && |entries| >= maxEntries {
        DeleteStale(window);
        if |entries| >= maxEntries {
          return false;
        }
      }
      entries := entries[key := Entry(window, 1)];
      return true;
    }

    method DeleteStale(window: int)
      modifies this
      ensures entries == Sweep(old(entries), window)
    {
      var unvisited := entries.Keys;
      while unvisited != {}
        invariant unvisited <= entries.Keys <= old(entries).Keys
        invariant entries == map k | k in old(entries)
                  && (k in unvisited || old(entries)[k].window == window) :: old(entries)[k]
      {
        var key :| key in unvisited;
        if entries[key].window != window {
          entries := entries - {key};
        }
        unvisited := unvisited - {key};
      }
    }
  }

  // ---------------------------------------------------------------- the unbounded counter it stands for

  /** How often `key` was admitted in `window`. */
  function Count(log: seq<Admission>, windowMs: Positive, key: string, window: int): nat {
    if log == [] then 0
    else
      var last := log[|log| - 1];
      Count(log[..|log| - 1], windowMs, key, window)
      + (if last.key == key && WindowOf(last.time, windowMs) == window then 1 else 0)
  }

  /** How many calls of any key were admitted in `window`. */
  function Total(log: seq<Admission>, windowMs: Positive, window: int): nat {
    if log == [] then 0
    else
      Total(log[..|log| - 1], windowMs, window)
      + (if WindowOf(log[|log| - 1].time, windowMs) == window then 1 else 0)
  }

  /** The keys admitted in `window`. */
  function KeysIn(log: seq<Admission>, windowMs: Positive, window: int): set<string> {
    set i | 0 <= i < |log| && WindowOf(log[i].time, windowMs) == window :: log[i].key
  }

  /**
   * The decision as a function of the history alone: a key already admitted in the window is held to its limit, and
   * an unseen key needs one of the `maxEntries` places of the window.
   */
  predicate Admits(log: seq<Admission>, maxEntries: nat, windowMs: Positive, call: Call) {
    var window := WindowOf(call.now, windowMs);
    var n := Count(log, windowMs, call.key, window);
    if n > 0 then n < call.limit else |KeysIn(log, windowMs, window)| < maxEntries
  }

  function Record(log: seq<Admission>, admitted: bool, call: Call): seq<Admission> {
    if admitted then log + [Admission(call.key, call.now)] else log
  }

  /** The map holds exactly what the history says about the windows from `time` on, and counts older ones correctly. */
  ghost predicate Agrees(entries: Entries, log: seq<Admission>, maxEntries: nat, windowMs: Positive, time: int) {
    && |entries| <= maxEntries
    && (forall k :: k in entries ==>
         && entries[k].count == Count(log, windowMs, k, entries[k].window)
         && 0 < entries[k].count
         && entries[k].window <= WindowOf(time, windowMs))
    && (forall k, w :: WindowOf(time, windowMs) <= w && 0 < Count(log, windowMs, k, w) ==>
         k in entries && entries[k].window == w)
  }

  // ---------------------------------------------------------------- refinement

  lemma CountAppend(log: seq<Admission>, a: Admission, windowMs: Positive)
    ensures forall k, w :: Count(log + [a], windowMs, k, w)
                        == Count(log, windowMs, k, w) + (if a.key == k && WindowOf(a.time, windowMs) == w then 1 else 0)
    ensures forall w :: Total(log + [a], windowMs, w)
                     == Total(log, windowMs, w) + (if WindowOf(a.time, windowMs) == w then 1 else 0)
    ensures forall w :: KeysIn(log + [a], windowMs, w)
                     == KeysIn(log, windowMs, w) + (if WindowOf(a.time, windowMs) == w then {a.key} else {})
  {
    assert (log + [a])[..|log|] == log;
    forall w
      ensures KeysIn(log + [a], windowMs, w)
           == KeysIn(log, windowMs, w) + (if WindowOf(a.time, windowMs) == w then {a.key} else {})
    {
      assert forall i :: 0 <= i < |log| ==> (log + [a])[i] == log[i];
      assert (log + [a])[|log|] == a;
      forall k | k in KeysIn(log, windowMs, w) ensures k in KeysIn(log + [a], windowMs, w) {
        var i :| 0 <= i < |log| && WindowOf(log[i].time, windowMs) == w && log[i].key == k;
        assert (log + [a])[i].key == k;
      }
    }
  }

  lemma {:induction false} KeysInCounted(log: seq<Admission>, windowMs: Positive, window: int)
    ensures forall k :: k in KeysIn(log, windowMs, window) <==> 0 < Count(log, windowMs, k, window)
    ensures |KeysIn(log, windowMs, window)| <= Total(log, windowMs, window)
  {
    if log == [] {
    } else {
      var rest, last := log[..|log| - 1], log[|log| - 1];
      assert log == rest + [last];
      CountAppend(rest, last, windowMs);
      KeysInCounted(rest, windowMs, window);
    }
  }

  lemma SubsetSize<T>(a: set<T>, b: set<T>)
    requires a <= b
    ensures |a| <= |b|
    ensures a != b ==> |a| < |b|
  {
    assert b == a + (b - a);
    if a != b {
      var x :| x in b && x !in a;
      assert x in b - a;
    }
  }

  /** On a clock that does not go back, the bounded map decides as the history does and keeps agreeing with it. */
  lemma DecideRefines(entries: Entries, log: seq<Admission>, maxEntries: nat, windowMs: Positive, time: int, call: Call)
    requires Agrees(entries, log, maxEntries, windowMs, time)
    requires time <= call.now
    ensures Decide(entries, maxEntries, windowMs, call).admitted == Admits(log, maxEntries, windowMs, call)
    ensures var d := Decide(entries, maxEntries, windowMs, call);
            Agrees(d.entries, Record(log, d.admitted, call), maxEntries, windowMs, call.now)
  {
    var window := WindowOf(call.now, windowMs);
    WindowMonotone(time, call.now, windowMs);
    KeysInCounted(log, windowMs, window);
    LiveKeys(entries, log, maxEntries, windowMs, time, window);
    hide WindowOf, Count, KeysIn;
    assert Count(log, windowMs, call.key, window)
        == if call.key in entries && entries[call.key].window == window then entries[call.key].count else 0;
    SweepAgrees(entries, log, maxEntries, windowMs, time, call.now);
    hide Agrees;
    if call.key in entries {
      StoreAgrees(entries, log, maxEntries, windowMs, time, call);
    } else if |entries| < maxEntries {
      StoreAgrees(entries, log, maxEntries, windowMs, time, call);
    } else if |Sweep(entries, window)| < maxEntries {
      StoreAgrees(Sweep(entries, window), log, maxEntries, windowMs, call.now, call);
    }
  }

  lemma LiveKeys(entries: Entries, log: seq<Admission>, maxEntries: nat, windowMs: Positive, time: int, window: int)
    requires Agrees(entries, log, maxEntries, windowMs, time)
    requires WindowOf(time, windowMs) <= window
    ensures Sweep(entries, window).Keys == KeysIn(log, windowMs, window)
    ensures |Sweep(entries, window)| == |KeysIn(log, windowMs, window)| <= |entries|
    ensures forall k :: k in entries && entries[k].window != window ==> |KeysIn(log, windowMs, window)| < |entries|
  {
    var swept := Sweep(entries, window);
    KeysInCounted(log, windowMs, window);
    assert swept.Keys == KeysIn(log, windowMs, window);
    SubsetSize(swept.Keys, entries.Keys);
    assert |swept| == |swept.Keys| && |entries| == |entries.Keys|;
  }

  /** Agreement carries over to a later time, with or without a sweep. */
  lemma SweepAgrees(entries: Entries, log: seq<Admission>, maxEntries: nat, windowMs: Positive, time: int, now: int)
    requires Agrees(entries, log, maxEntries, windowMs, time)
    requires time <= now
    ensures Agrees(entries, log, maxEntries, windowMs, now)
    ensures Agrees(Sweep(entries, WindowOf(now, windowMs)), log, maxEntries, windowMs, now)
  {
    WindowMonotone(time, now, windowMs);
    LiveKeys(entries, log, maxEntries, windowMs, time, WindowOf(now, windowMs));
  }

  /** Storing an admitted call keeps the agreement, given that it fits. */
  lemma StoreAgrees(entries: Entries, log: seq<Admission>, maxEntries: nat, windowMs: Positive, time: int, call: Call)
    requires Agrees(entries, log, maxEntries, windowMs, time)
    requires time <= call.now
    requires call.key in entries || |entries| < maxEntries
    ensures var window := WindowOf(call.now, windowMs);
            var count := Count(log, windowMs, call.key, window) + 1;
            Agrees(entries[call.key := Entry(window, count)], log + [Admission(call.key, call.now)], maxEntries,
              windowMs, call.now)
  {
    var window := WindowOf(call.now, windowMs);
    var count := Count(log, windowMs, call.key, window) + 1;
    var stored := entries[call.key := Entry(window, count)];
    WindowMonotone(time, call.now, windowMs);
    CountAppend(log, Admission(call.key, call.now), windowMs);
    assert stored.Keys == entries.Keys + {call.key};
    assert |stored| == |stored.Keys| && |entries| == |entries.Keys|;
  }

  /** The window is the one interval [q * windowMs, (q + 1) * windowMs) a time lies in. */
  lemma WindowUnique(now: int, windowMs: Positive, q: int)
    requires windowMs * q <= now < windowMs * q + windowMs
    ensures WindowOf(now, windowMs) == q
  {
    var w := WindowOf(now, windowMs);
    assert now == windowMs * w + now % windowMs;
    if w < q {
      MulMonotone(windowMs, w + 1, q);
    } else if q < w {
      MulMonotone(windowMs, q + 1, w);
    }
  }

  lemma MulMonotone(d: Positive, a: int, b: int)
    requires a <= b
    ensures d * a <= d * b
    ensures d * (a - 1) == d * a - d && d * (a + 1) == d * a + d
  {
  }

  lemma WindowMonotone(earlier: int, later: int, windowMs: Positive)
    requires earlier <= later
    ensures WindowOf(earlier, windowMs) <= WindowOf(later, windowMs)
  {
    var a, b := WindowOf(earlier, windowMs), WindowOf(later, windowMs);
    assert earlier == windowMs * a + earlier % windowMs;
    assert later == windowMs * b + later % windowMs;
    if b < a {
      MulMonotone(windowMs, b + 1, a);
    }
  }

  // ---------------------------------------------------------------- whole runs

  datatype Run = Run(entries: Entries, log: seq<Admission>)

  function RunLimiter(calls: seq<Call>, maxEntries: nat, windowMs: Positive): Run {
    if calls == [] then Run(map[], [])
    else
      var before := RunLimiter(calls[..|calls| - 1], maxEntries, windowMs);
      var call := calls[|calls| - 1];
      var d := Decide(before.entries, maxEntries, windowMs, call);
      Run(d.entries, Record(before.log, d.admitted, call))
  }

  function RunIdeal(calls: seq<Call>, maxEntries: nat, windowMs: Positive): seq<Admission> {
    if calls == [] then []
    else
      var before := RunIdeal(calls[..|calls| - 1], maxEntries, windowMs);
      var call := calls[|calls| - 1];
      Record(before, Admits(before, maxEntries, windowMs, call), call)
  }

  ghost predicate Nondecreasing(calls: seq<Call>) {
    forall i, j :: 0 <= i < j < |calls| ==> calls[i].now <= calls[j].now
  }

  /** Over every run with a nondecreasing clock the bounded limiter admits exactly what the history-based one does. */
  lemma {:induction false} LimiterRefinesIdeal(calls: seq<Call>, maxEntries: nat, windowMs: Positive)
    requires Nondecreasing(calls)
    ensures RunLimiter(calls, maxEntries, windowMs).log == RunIdeal(calls, maxEntries, windowMs)
    ensures |RunLimiter(calls, maxEntries, windowMs).entries| <= maxEntries
    ensures calls != [] ==>
              var run := RunLimiter(calls, maxEntries, windowMs);
              Agrees(run.entries, run.log, maxEntries, windowMs, calls[|calls| - 1].now)
  {
    if calls == [] {
    } else {
      var rest, call := calls[..|calls| - 1], calls[|calls| - 1];
      LimiterRefinesIdeal(rest, maxEntries, windowMs);
      var before := RunLimiter(rest, maxEntries, windowMs);
      if rest == [] {
        assert Agrees(map[], [], maxEntries, windowMs, call.now);
        DecideRefines(map[], [], maxEntries, windowMs, call.now, call);
      } else {
        DecideRefines(before.entries, before.log, maxEntries, windowMs, rest[|rest| - 1].now, call);
      }
    }
  }

  /**
   * No window admits a key more often than its limit, except that a limit under 1 still admits one call: the first
   * call of a window is stored without looking at the limit.
   */
  lemma {:induction false} WindowBudget(
    calls: seq<Call>, maxEntries: nat, windowMs: Positive, key: string, limit: int, window: int)
    requires forall i :: 0 <= i < |calls| && calls[i].key == key ==> calls[i].limit <= limit
    ensures Count(RunIdeal(calls, maxEntries, windowMs), windowMs, key, window) <= Max(1, limit)
  {
    if calls == [] {
    } else {
      var rest, call := calls[..|calls| - 1], calls[|calls| - 1];
      WindowBudget(rest, maxEntries, windowMs, key, limit, window);
      CountAppend(RunIdeal(rest, maxEntries, windowMs), Admission(call.key, call.now), windowMs);
    }
  }

  /** How often `key` was admitted at a time in [from, to). */
  function CountBetween(log: seq<Admission>, key: string, from: int, to: int): nat {
    if log == [] then 0
    else
      var last := log[|log| - 1];
      CountBetween(log[..|log| - 1], key, from, to) + (if last.key == key && from <= last.time < to then 1 else 0)
  }

  lemma {:induction false} SpanCoversTwoWindows(log: seq<Admission>, windowMs: Positive, key: string, from: int)
    ensures var w := WindowOf(from, windowMs);
            CountBetween(log, key, from, from + windowMs) <= Count(log, windowMs, key, w)
              + Count(log, windowMs, key, w + 1)
  {
    if log == [] {
    } else {
      var last := log[|log| - 1];
      SpanCoversTwoWindows(log[..|log| - 1], windowMs, key, from);
      if from <= last.time < from + windowMs {
        WindowMonotone(from, last.time, windowMs);
        WindowMonotone(last.time, from + windowMs, windowMs);
        NextWindow(from, windowMs);
      }
    }
  }

  lemma NextWindow(time: int, windowMs: Positive)
    ensures WindowOf(time + windowMs, windowMs) == WindowOf(time, windowMs) + 1
  {
    var q := WindowOf(time, windowMs);
    assert time == windowMs * q + time % windowMs;
    MulMonotone(windowMs, q, q);
    WindowUnique(time + windowMs, windowMs, q + 1);
  }

  /** In any run with a nondecreasing clock, no span of one window's length admits a key more than twice its limit. */
  lemma SpanBudget(calls: seq<Call>, maxEntries: nat, windowMs: Positive, key: string, limit: int, from: int)
    requires Nondecreasing(calls)
    requires forall i :: 0 <= i < |calls| && calls[i].key == key ==> calls[i].limit <= limit
    ensures CountBetween(RunLimiter(calls, maxEntries, windowMs).log, key, from, from + windowMs) <= 2 * Max(1, limit)
  {
    var w := WindowOf(from, windowMs);
    LimiterRefinesIdeal(calls, maxEntries, windowMs);
    WindowBudget(calls, maxEntries, windowMs, key, limit, w);
    WindowBudget(calls, maxEntries, windowMs, key, limit, w + 1);
    SpanCoversTwoWindows(RunIdeal(calls, maxEntries, windowMs), windowMs, key, from);
  }

  /** Both assumptions matter: a clock that goes back, or a limit of 0, lets a key past its limit. */
  lemma BudgetNeedsItsAssumptions()
    ensures var back := [Call("a", 1, 60000), Call("a", 1, 59999), Call("a", 1, 60000)];
            Count(RunLimiter(back, 4096, 60000).log, 60000, "a", 1) == 2
    ensures Count(RunLimiter([Call("a", 0, 0)], 4096, 60000).log, 60000, "a", 0) == 1
  {
    var back := [Call("a", 1, 60000), Call("a", 1, 59999), Call("a", 1, 60000)];
    var one, two := back[..1], back[..2];
    assert two[..1] == one && one[..0] == [];
    assert RunLimiter(one, 4096, 60000) == Run(map["a" := Entry(1, 1)], [Admission("a", 60000)]);
    assert RunLimiter(two, 4096, 60000)
        == Run(map["a" := Entry(0, 1)], [Admission("a", 60000), Admission("a", 59999)]);
    var log := RunLimiter(back, 4096, 60000).log;
    assert log == [Admission("a", 60000), Admission("a", 59999), Admission("a", 60000)];
    assert log[..2][..1] == log[..1];
    assert Count(log[..1], 60000, "a", 1) == 1;
    assert Count(log[..2], 60000, "a", 1) == 1;
    var zero := [Call("a", 0, 0)];
    assert zero[..0] == [];
    assert RunLimiter(zero, 4096, 60000).log == [Admission("a", 0)];
  }
}
