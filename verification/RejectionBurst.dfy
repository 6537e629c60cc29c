/**
 The burst window of `unhandled-rejection.handler.ts`. The handler is a closure over two
 counters; a run is the sequence of clock readings of its calls.
 */
module RejectionBurst {

  const WINDOW_MS: nat := 60_000
  const THRESHOLD: nat := 20

  datatype Window = Window(start: nat, count: nat)

  function Init(): Window { Window(0, 0) }

  /** One call of the handler at time `now`. JavaScript numbers may go below zero here, so the
      comparison `now - start > WINDOW_MS` is on integers. */
  function Observe(w: Window, now: nat): Window {
    if now - w.start > WINDOW_MS then Window(now, 1) else Window(w.start, w.count + 1)
  }

  predicate Exits(w: Window) {
    w.count >= THRESHOLD
  }

  /** The closure returned by `createUnhandledRejectionHandler`. */
  class Handler {
    var windowStart: nat
    var countInWindow: nat

    constructor ()
      ensures Window(windowStart, countInWindow) == Init()
    {
      windowStart, countInWindow := 0, 0;
    }

    method Handle(now: nat) returns (exits: bool)
      modifies this
      ensures Window(windowStart, countInWindow) == Observe(old(Window(windowStart, countInWindow)), now)
      ensures exits == Exits(Window(windowStart, countInWindow))
    {
      if now - windowStart > WINDOW_MS {
        windowStart := now;
        countInWindow := 0;
      }
      countInWindow := countInWindow + 1;
      exits := countInWindow >= THRESHOLD;
    }
  }

  /** The window after the first `n` of the rejections at `times`. */
  function After(times: seq<nat>, n: nat): Window
    requires n <= |times|
  {
    if n == 0 then Init() else Observe(After(times, n - 1), times[n - 1])
  }

  /** Drives a fresh handler through a whole run and reports the first call that exits. */
  method Drive(times: seq<nat>) returns (exitAt: int)
    ensures exitAt == -1 || 0 <= exitAt < |times|
    ensures forall n :: 0 < n <= (if exitAt == -1 then |times| else exitAt) ==> !Exits(After(times, n))
    ensures exitAt >= 0 ==> Exits(After(times, exitAt + 1))
  {
    var handler := new Handler();
    for k := 0 to |times|
      invariant Window(handler.windowStart, handler.countInWindow) == After(times, k)
      invariant forall n :: 0 < n <= k ==> !Exits(After(times, n))
    {
      var exits := handler.Handle(times[k]);
      if exits { return k; }
    }
    return -1;
  }

  predicate Nondecreasing(times: seq<nat>) {
    forall i, j :: 0 <= i < j < |times| ==> times[i] <= times[j]
  }

  /** The last `count` rejections all fall in the open window, and so within its length. */
  lemma {:induction false} WindowHoldsLastCalls(times: seq<nat>, n: nat)
    requires Nondecreasing(times) && 0 < n <= |times|
    ensures var w := After(times, n);
            && 1 <= w.count <= n
            && w.start <= times[n - w.count]
            && times[n - 1] - w.start <= WINDOW_MS
            && (WINDOW_MS < times[0] ==> w.start == times[n - w.count])
  {
    if n > 1 { WindowHoldsLastCalls(times, n - 1); }
  }

  /** Soundness: an exit means the last 20 rejections lie within 60 s. */
  lemma ExitMeansBurst(times: seq<nat>, n: nat)
    requires Nondecreasing(times) && 0 < n <= |times| && Exits(After(times, n))
    ensures THRESHOLD <= n && times[n - 1] - times[n - THRESHOLD] <= WINDOW_MS
  {
    WindowHoldsLastCalls(times, n);
  }

  /** While no call exits, a window that was open at `first` and is still open at `n` has counted
      every call in between. */
  lemma {:induction false} NoResetCounts(times: seq<nat>, first: nat, n: nat)
    requires Nondecreasing(times) && 0 < first <= n <= |times|
    requires times[n - 1] - After(times, first).start <= WINDOW_MS
    ensures After(times, n) == Window(After(times, first).start, After(times, first).count + (n - first))
  {
    if first < n {
      NoResetCounts(times, first, n - 1);
    }
  }

  /** The first call at or after `first`, up to `last`, that opens a new window, or `last` + 1. */
  lemma FirstReset(times: seq<nat>, first: nat, last: nat) returns (k: nat)
    requires Nondecreasing(times) && 0 < first <= last <= |times|
    ensures first <= k <= last
    ensures After(times, k) == Window(After(times, first).start, After(times, first).count + (k - first))
    ensures k < last ==> times[k] - After(times, first).start > WINDOW_MS
  {
    k := first;
    while k < last && times[k] - After(times, first).start <= WINDOW_MS
      invariant first <= k <= last
      invariant After(times, k) == Window(After(times, first).start, After(times, first).count + (k - first))
    {
      k := k + 1;
    }
  }

  predicate SpanWithoutExit(times: seq<nat>, first: nat, calls: nat) {
    && Nondecreasing(times)
    && 0 < calls && first + calls <= |times|
    && times[first + calls - 1] - times[first] <= WINDOW_MS
    && forall n :: first < n <= first + calls ==> !Exits(After(times, n))
  }

  /** Completeness: at most 37 rejections fit in a 60 s span without an exit. */
  lemma SpanBound(times: seq<nat>, first: nat, calls: nat)
    requires SpanWithoutExit(times, first, calls)
    requires WINDOW_MS < times[0]
    ensures calls <= 37
  {
    var end := first + calls;
    WindowHoldsLastCalls(times, first + 1);
    var w := After(times, first + 1);
    var k := FirstReset(times, first + 1, end);
    assert !Exits(After(times, k));
    if k < end {
      // The second window opens inside the span, so the first one opened before the span did.
      assert w.count >= 2;
      assert After(times, k + 1) == Window(times[k], 1);
      NoResetCounts(times, k + 1, end);
      assert !Exits(After(times, end));
    }
  }

  /** 1 rejection, then 18 at the end of its window, then 19 a millisecond later. */
  function TightTimes(): seq<nat> {
    seq(38, i => if i == 0 then 100_000 else if i <= 18 then 160_000 else 160_001)
  }

  lemma {:induction false} TightWindow(n: nat)
    requires 0 < n <= 38
    ensures After(TightTimes(), n) == if n <= 19 then Window(100_000, n) else Window(160_001, n - 19)
  {
    if n > 1 { TightWindow(n - 1); }
  }

  /** 37 rejections within one millisecond, and no exit. */
  lemma BoundIsAttained()
    ensures WINDOW_MS < TightTimes()[0] && SpanWithoutExit(TightTimes(), 1, 37)
    ensures TightTimes()[37] - TightTimes()[1] == 1
  {
    forall n | 1 < n <= 38 ensures !Exits(After(TightTimes(), n)) { TightWindow(n); }
  }

  ghost predicate CanSpanWithoutExit(calls: nat) {
    exists times, first :: SpanWithoutExit(times, first, calls) && WINDOW_MS < times[0]
  }

  lemma ShorterSpan(times: seq<nat>, first: nat, calls: nat, fewer: nat)
    requires SpanWithoutExit(times, first, calls) && 0 < fewer <= calls
    ensures SpanWithoutExit(times, first, fewer)
  {
  }

  /** A run of `calls` rejections within 60 s can pass without an exit exactly when it has at most
      37 of them: 38 always force one. */
  lemma BurstThresholdIsTight(calls: nat)
    requires 0 < calls
    ensures CanSpanWithoutExit(calls) <==> calls <= 37
  {
    if CanSpanWithoutExit(calls) {
      var times, first :| SpanWithoutExit(times, first, calls) && WINDOW_MS < times[0];
      SpanBound(times, first, calls);
    }
    if calls <= 37 {
      BoundIsAttained();
      ShorterSpan(TightTimes(), 1, 37, calls);
    }
  }
}
