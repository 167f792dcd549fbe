/** The client-side throttler: a clock state behind a lock that keeps requests a minimum interval apart. */
module Throttle {

  /** One pass through the lock: the clock reading on entry, and how much later than asked the final reading comes
      (oversleeping, scheduling). Nothing relates the readings of different passes. */
  datatype Call = Call(now: real, overrun: real)

  predicate CallsOk(calls: seq<Call>) {
    forall c :: c in calls ==> c.overrun >= 0.0
  }

  /** What is left of the interval when a request arrives, and the instant recorded for it. */
  function SleepTime(last: real, interval: real, now: real): real {
    if now - last < interval then interval - (now - last) else 0.0
  }

  function Recorded(last: real, interval: real, c: Call): real {
    c.now + SleepTime(last, interval, c.now) + c.overrun
  }

  /** The instants recorded by a sequence of passes, in lock order. */
  function Dispatches(last: real, interval: real, calls: seq<Call>): (d: seq<real>)
    ensures |d| == |calls|
    decreases |calls|
  {
    if calls == [] then []
    else [Recorded(last, interval, calls[0])] + Dispatches(Recorded(last, interval, calls[0]), interval, calls[1..])
  }

  function Last(last: real, dispatched: seq<real>): real {
    if dispatched == [] then last else dispatched[|dispatched| - 1]
  }

  lemma {:induction false} DispatchAt(last: real, interval: real, calls: seq<Call>, i: nat)
    requires i < |calls|
    ensures var d := Dispatches(last, interval, calls);
            d[i] == Recorded(if i == 0 then last else d[i - 1], interval, calls[i])
    decreases i
  {
    if i > 0 {
      DispatchAt(Recorded(last, interval, calls[0]), interval, calls[1..], i - 1);
    }
  }

  lemma {:induction false} DispatchesSnoc(last: real, interval: real, calls: seq<Call>, c: Call)
    ensures var d := Dispatches(last, interval, calls);
            Dispatches(last, interval, calls + [c]) == d + [Recorded(Last(last, d), interval, c)]
    decreases |calls|
  {
    if calls == [] {
      assert ([c])[1..] == [];
      assert Dispatches(last, interval, [c]) == [Recorded(last, interval, c)];
      assert calls + [c] == [c];
    } else {
      assert (calls + [c])[0] == calls[0] && (calls + [c])[1..] == calls[1..] + [c];
      DispatchesSnoc(Recorded(last, interval, calls[0]), interval, calls[1..], c);
    }
  }

  // ---- Spacing and the window bound -----------------------------------------------------------

  predicate Spaced(d: seq<real>, interval: real) {
    forall i :: 0 < i < |d| ==> d[i] - d[i - 1] >= interval
  }

  lemma {:induction false} DispatchesAreSpaced(last: real, interval: real, calls: seq<Call>)
    requires CallsOk(calls)
    ensures Spaced(Dispatches(last, interval, calls), interval)
    ensures calls != [] ==> Dispatches(last, interval, calls)[0] - last >= interval
  {
    forall i | 0 <= i < |calls|
      ensures Dispatches(last, interval, calls)[i] - (if i == 0 then last
                                                      else Dispatches(last, interval, calls)[i - 1]) >= interval
    {
      DispatchAt(last, interval, calls, i);
    }
  }

  /** `n` intervals laid end to end. */
  ghost function Times(n: nat, interval: real): real {
    if n == 0 then 0.0 else Times(n - 1, interval) + interval
  }

  lemma {:induction false} TimesIsProduct(n: nat, interval: real)
    ensures Times(n, interval) == n as real * interval
  {
    if n > 0 {
      TimesIsProduct(n - 1, interval);
    }
  }

  lemma {:induction false} TimesGrows(m: nat, n: nat, interval: real)
    requires interval > 0.0 && m <= n
    ensures Times(m, interval) <= Times(n, interval)
  {
    if m < n {
      TimesGrows(m, n - 1, interval);
    }
  }

  lemma {:induction false} SpacedApart(d: seq<real>, interval: real, i: nat, j: nat)
    requires Spaced(d, interval) && i <= j < |d|
    ensures d[j] - d[i] >= Times(j - i, interval)
    decreases j
  {
    if i < j {
      SpacedApart(d, interval, i, j - 1);
    }
  }

  /** How many whole intervals fit into a window. */
  ghost function Fits(window: real, interval: real): (n: nat)
    requires interval > 0.0 && window >= 0.0
    ensures n == (window / interval).Floor
    ensures Times(n, interval) <= window < Times(n + 1, interval)
  {
    var n := (window / interval).Floor;
    TimesIsProduct(n, interval);
    TimesIsProduct(n + 1, interval);
    ScaledBetween(window, n as real, window / interval, (n + 1) as real, interval);
    n
  }

  lemma {:induction false} Scaled(a: real, b: real, k: real)
    requires k > 0.0
    ensures a < b ==> a * k < b * k
  {
    if a < b {
      assert (b - a) * k > 0.0;
    }
  }

  lemma {:induction false} ScaledBetween(w: real, low: real, q: real, high: real, k: real)
    requires k > 0.0 && low <= q < high && q * k == w
    ensures low * k <= w < high * k
  {
    Scaled(low, q, k);
    Scaled(q, high, k);
  }

  function InWindow(d: seq<real>, start: real, window: real): set<int> {
    set i | 0 <= i < |d| && start <= d[i] <= start + window
  }

  ghost function Range(lo: int, n: nat): (s: set<int>)
    ensures |s| == n && forall i :: i in s <==> lo <= i < lo + n
  {
    if n == 0 then {} else Range(lo, n - 1) + {lo + n - 1}
  }

  lemma {:induction false} SubsetSize<T>(a: set<T>, b: set<T>)
    requires a <= b
    ensures |a| <= |b|
  {
    assert b == a + (b - a);
    assert |b| == |a| + |b - a|;
  }

  lemma {:induction false} SmallestOf(s: set<int>, some: nat) returns (first: nat)
    requires some in s && forall x :: x in s ==> x >= 0
    ensures first in s && forall x :: x in s ==> first <= x
    decreases some
  {
    if smaller :| smaller in s && smaller < some {
      first := SmallestOf(s, smaller);
    } else {
      first := some;
    }
  }

  /** Two requests in one window are no more positions apart than intervals fit into it. */
  lemma {:induction false} PositionsInWindow(d: seq<real>, interval: real, window: real, i: nat, j: nat)
    requires interval > 0.0 && window >= 0.0 && Spaced(d, interval) && i <= j < |d| && d[j] - d[i] <= window
    ensures j - i <= Fits(window, interval)
  {
    SpacedApart(d, interval, i, j);
    if j - i > Fits(window, interval) {
      TimesGrows(Fits(window, interval) + 1, j - i, interval);
    }
  }

  /** Whatever the threads and the clock do between passes, a closed window never holds more recorded requests than the
      intervals that fit into it, plus one. */
  lemma {:induction false} WindowBound(last: real, interval: real, calls: seq<Call>, start: real, window: real)
    requires interval > 0.0 && window >= 0.0 && CallsOk(calls)
    ensures |InWindow(Dispatches(last, interval, calls), start, window)| <= Fits(window, interval) + 1
  {
    var d := Dispatches(last, interval, calls);
    var inside := InWindow(d, start, window);
    var n := Fits(window, interval);
    if some :| some in inside {
      DispatchesAreSpaced(last, interval, calls);
      var lo := SmallestOf(inside, some);
      forall i | i in inside ensures lo <= i <= lo + n {
        PositionsInWindow(d, interval, window, lo, i);
      }
      SubsetSize(inside, Range(lo, n + 1));
    }
  }

  /** The bound is attained: requests that are always waiting fill a window to the last one. */
  lemma {:induction false} WindowBoundAttained(interval: real, window: real)
    requires interval > 0.0 && window >= 0.0
    ensures exists calls: seq<Call> :: CallsOk(calls) &&
              |InWindow(Dispatches(0.0, interval, calls), interval, window)| == Fits(window, interval) + 1
  {
    var n := Fits(window, interval);
    var calls := seq(n + 1, _ => Call(interval, 0.0));
    var d := Dispatches(0.0, interval, calls);
    forall i: nat | i <= n ensures interval <= d[i] <= interval + window {
      WaitingInLine(interval, n + 1, i);
      TimesGrows(0, i, interval);
      TimesGrows(i, n, interval);
    }
    assert InWindow(d, interval, window) == Range(0, n + 1);
    assert CallsOk(calls) && |InWindow(Dispatches(0.0, interval, calls), interval, window)| == n + 1;
  }

  lemma {:induction false} WaitingInLine(interval: real, n: nat, i: nat)
    requires interval > 0.0 && i < n
    ensures Dispatches(0.0, interval, seq(n, _ => Call(interval, 0.0)))[i] == interval + Times(i, interval)
    decreases i
  {
    DispatchAt(0.0, interval, seq(n, _ => Call(interval, 0.0)), i);
    if i > 0 {
      WaitingInLine(interval, n, i - 1);
      TimesGrows(0, i - 1, interval);
    }
  }

  const DEFAULT_INTERVAL: real := 0.637
  const MINUTE: real := 60.0
  const FMS_REQUESTS_PER_MINUTE: int := 95

  /** At the configured interval the sharp bound for a minute is exactly the configured number of requests. */
  lemma {:induction false} DefaultsKeepTheLimit(last: real, calls: seq<Call>, start: real)
    requires CallsOk(calls)
    ensures |InWindow(Dispatches(last, DEFAULT_INTERVAL, calls), start, MINUTE)| <= FMS_REQUESTS_PER_MINUTE
    ensures exists busy: seq<Call> :: CallsOk(busy) &&
              |InWindow(Dispatches(0.0, DEFAULT_INTERVAL, busy), DEFAULT_INTERVAL, MINUTE)| == FMS_REQUESTS_PER_MINUTE
  {
    var n := Fits(MINUTE, DEFAULT_INTERVAL);
    assert n == 94;
    WindowBound(last, DEFAULT_INTERVAL, calls, start, MINUTE);
    WindowBoundAttained(DEFAULT_INTERVAL, MINUTE);
  }

  /** The few milliseconds beyond `period / requests` are what keeps it: without them one request too many fits. */
  lemma {:induction false} BareQuotientOverruns()
    ensures var bare := MINUTE / FMS_REQUESTS_PER_MINUTE as real;
            exists busy: seq<Call> :: CallsOk(busy) &&
              |InWindow(Dispatches(0.0, bare, busy), bare, MINUTE)| == FMS_REQUESTS_PER_MINUTE + 1
  {
    var bare := MINUTE / FMS_REQUESTS_PER_MINUTE as real;
    assert Fits(MINUTE, bare) == 95;
    WindowBoundAttained(bare, MINUTE);
  }

  // ---- No needless delay ----------------------------------------------------------------------

  /** Threads that ask for the lock at the given instants, in lock order, and sleep exactly as long as asked: each reads
      the clock when it arrives, or when the previous one leaves the lock if that is later. */
  function Queue(last: real, interval: real, arrivals: seq<real>): (calls: seq<Call>)
    ensures |calls| == |arrivals| && CallsOk(calls)
    decreases |arrivals|
  {
    if arrivals == [] then []
    else
      var c := Call(if arrivals[0] < last then last else arrivals[0], 0.0);
      [c] + Queue(Recorded(last, interval, c), interval, arrivals[1..])
  }

  function Served(last: real, interval: real, arrivals: seq<real>): (d: seq<real>)
    ensures |d| == |arrivals|
  {
    Dispatches(last, interval, Queue(last, interval, arrivals))
  }

  /** A served request goes out at its arrival or one interval after its predecessor, whichever is later. */
  lemma {:induction false} ServedAt(last: real, interval: real, arrivals: seq<real>, i: nat)
    requires interval > 0.0 && i < |arrivals|
    ensures var d := Served(last, interval, arrivals);
            var due := (if i == 0 then last else d[i - 1]) + interval;
            d[i] == if arrivals[i] > due then arrivals[i] else due
    decreases i
  {
    var c := Queue(last, interval, arrivals)[0];
    var next := Recorded(last, interval, c);
    assert Served(last, interval, arrivals) == [next] + Served(next, interval, arrivals[1..]);
    if i > 0 {
      ServedAt(next, interval, arrivals[1..], i - 1);
    }
  }

  /** The time a request is due because of request `j` before it, or of the last dispatch before them all (`j` = -1). */
  ghost function DueBecauseOf(last: real, interval: real, arrivals: seq<real>, i: nat, j: int): real
    requires i < |arrivals| && -1 <= j <= i
  {
    (if j < 0 then last else arrivals[j]) + Times(i - j, interval)
  }

  /** Each request goes out at the latest of the times it is due because of an earlier one: no later, no sooner. */
  lemma {:induction false} ServedAtLatestDue(last: real, interval: real, arrivals: seq<real>, i: nat)
    requires interval > 0.0 && i < |arrivals|
    ensures forall j :: -1 <= j <= i ==>
            DueBecauseOf(last, interval, arrivals, i, j) <= Served(last, interval, arrivals)[i]
    ensures exists j ::
            -1 <= j <= i && DueBecauseOf(last, interval, arrivals, i, j) == Served(last, interval, arrivals)[i]
    decreases i
  {
    var d := Served(last, interval, arrivals);
    ServedAt(last, interval, arrivals, i);
    assert DueBecauseOf(last, interval, arrivals, i, i) == arrivals[i];
    if i == 0 {
      assert DueBecauseOf(last, interval, arrivals, 0, -1) == last + interval;
    } else {
      ServedAtLatestDue(last, interval, arrivals, i - 1);
      assert forall j :: -1 <= j < i ==>
          DueBecauseOf(last, interval, arrivals, i, j) == DueBecauseOf(last, interval, arrivals, i - 1, j) + interval;
      if d[i] != arrivals[i] {
        var j :| -1 <= j <= i - 1 && DueBecauseOf(last, interval, arrivals, i - 1, j) == d[i - 1];
        assert DueBecauseOf(last, interval, arrivals, i, j) == d[i];
      }
    }
  }

  /** The term of the last dispatch never matters for a new session used after its first interval. */
  lemma {:induction false} FreshSessionNeverDelays(interval: real, arrivals: seq<real>, i: nat)
    requires interval > 0.0 && i < |arrivals| && arrivals[0] >= interval
    ensures exists j :: 0 <= j <= i && DueBecauseOf(0.0, interval, arrivals, i, j) == Served(0.0, interval, arrivals)[i]
  {
    ServedAtLatestDue(0.0, interval, arrivals, i);
    assert Times(i + 1, interval) == Times(i, interval) + interval;
    assert DueBecauseOf(0.0, interval, arrivals, i, -1) <= DueBecauseOf(0.0, interval, arrivals, i, 0);
    var j :| -1 <= j <= i && DueBecauseOf(0.0, interval, arrivals, i, j) == Served(0.0, interval, arrivals)[i];
    if j == -1 {
      assert DueBecauseOf(0.0, interval, arrivals, i, 0) == Served(0.0, interval, arrivals)[i];
    }
  }

  /** A schedule that sends nothing before it arrives and keeps the spacing. */
  predicate Respects(last: real, interval: real, arrivals: seq<real>, schedule: seq<real>) {
    && |schedule| == |arrivals|
    && (forall i :: 0 <= i < |arrivals| ==> schedule[i] >= arrivals[i])
    && Spaced(schedule, interval)
    && (schedule != [] ==> schedule[0] - last >= interval)
  }

  /** No schedule that respects arrivals and spacing sends any request sooner; the throttler's own is one of them. */
  lemma {:induction false} ServedIsOptimal(last: real, interval: real, arrivals: seq<real>, schedule: seq<real>, i: nat)
    requires interval > 0.0 && i < |arrivals| && Respects(last, interval, arrivals, schedule)
    ensures Respects(last, interval, arrivals, Served(last, interval, arrivals))
    ensures Served(last, interval, arrivals)[i] <= schedule[i]
    decreases i
  {
    DispatchesAreSpaced(last, interval, Queue(last, interval, arrivals));
    forall k | 0 <= k < |arrivals| ensures Served(last, interval, arrivals)[k] >= arrivals[k] {
      ServedAt(last, interval, arrivals, k);
    }
    ServedAt(last, interval, arrivals, i);
    if i > 0 {
      ServedIsOptimal(last, interval, arrivals, schedule, i - 1);
    }
  }

  // ---- The session ----------------------------------------------------------------------------

  class ThrottledSession {
    const minInterval: real
    var lastRequestTime: real
    ghost var passes: seq<Call>

    ghost predicate Valid()
      reads this
    {
      CallsOk(passes) && lastRequestTime == Last(0.0, Dispatches(0.0, minInterval, passes))
    }

    constructor (minIntervalSeconds: real)
      ensures Valid() && minInterval == minIntervalSeconds && lastRequestTime == 0.0 && passes == []
    {
      minInterval := minIntervalSeconds;
      lastRequestTime := 0.0;
      passes := [];
    }

    /** `_wait_if_needed`, inside the lock; `c` is what the clock shows. The pass is recorded as the specification says,
        so its instants obey the window bound. */
    method WaitIfNeeded(c: Call)
      requires Valid() && c.overrun >= 0.0
      modifies this
      ensures Valid() && passes == old(passes) + [c]
      ensures Dispatches(0.0, minInterval, passes) == old(Dispatches(0.0, minInterval, passes)) + [lastRequestTime]
      ensures old(passes) != [] ==> lastRequestTime - old(lastRequestTime) >= minInterval
    {
      var clock := c.now;
      var elapsed := clock - lastRequestTime;
      if elapsed < minInterval {
        clock := clock + (minInterval - elapsed);
      }
      clock := clock + c.overrun;
      DispatchesSnoc(0.0, minInterval, passes, c);
      lastRequestTime := clock;
      passes := passes + [c];
    }
  }
}
