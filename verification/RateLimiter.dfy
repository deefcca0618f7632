/**
 The fixed-window rate limiter.  Each check runs under a lock and reads the clock once, and a second
 time when it opens a new window.  Times are in nanoseconds.
 */
module RateLimiter {
  import opened Common

  const NANOS_PER_SECOND := 1_000_000_000
  const WINDOW_SECONDS := 60
  const WINDOW := WINDOW_SECONDS * NANOS_PER_SECOND

  datatype Window = Window(start: int, count: nat)

  /** The two clock readings of one check: the first for the elapsed time, the second for a reset. */
  datatype Reading = Reading(first: int, second: int)

  datatype Verdict = Admitted | Rejected(retryAfter: int)

  predicate Expired(w: Window, now: int) {
    now - w.start >= WINDOW
  }

  function Refreshed(w: Window, r: Reading): Window {
    if Expired(w, r.first) then Window(r.second, 0) else w
  }

  function VerdictOf(w: Window, r: Reading, limit: nat): Verdict {
    if Refreshed(w, r).count >= limit
    then Rejected(Max(Max(WINDOW_SECONDS - (r.first - w.start) / NANOS_PER_SECOND, 0), 1))
    else Admitted
  }

  function After(w: Window, r: Reading, limit: nat): Window {
    var current := Refreshed(w, r);
    if current.count >= limit then current else Window(current.start, current.count + 1)
  }

  class RateState {
    var windowStart: int
    var count: nat

    constructor (now: int)
      ensures windowStart == now && count == 0
    {
      windowStart := now;
      count := 0;
    }

    method Check(r: Reading, limit: nat) returns (v: Verdict)
      modifies this
      ensures v == VerdictOf(Window(old(windowStart), old(count)), r, limit)
      ensures Window(windowStart, count) == After(Window(old(windowStart), old(count)), r, limit)
    {
      var elapsed := r.first - windowStart;
      if elapsed >= WINDOW {
        windowStart := r.second;
        count := 0;
      }
      if count >= limit {
        return Rejected(Max(Max(WINDOW_SECONDS - elapsed / NANOS_PER_SECOND, 0), 1));
      }
      count := count + 1;
      return Admitted;
    }
  }

  // ---- Runs -----------------------------------------------------------------------------------

  /** The clock never runs backwards, within a check or between checks. */
  ghost predicate Monotone(start: int, readings: seq<Reading>) {
    && (forall k :: 0 <= k < |readings| ==> start <= readings[k].first <= readings[k].second)
    && (forall k :: 0 < k < |readings| ==> readings[k - 1].second <= readings[k].first)
  }

  function WindowAfter(start: int, readings: seq<Reading>, limit: nat): Window {
    if readings == [] then Window(start, 0)
    else After(WindowAfter(start, readings[..|readings| - 1], limit), readings[|readings| - 1], limit)
  }

  /** How many of the checks are admitted at a time in [from, from + WINDOW). */
  function AdmittedWithin(start: int, readings: seq<Reading>, limit: nat, from: int): nat {
    if readings == [] then 0
    else
      var front, r := readings[..|readings| - 1], readings[|readings| - 1];
      AdmittedWithin(start, front, limit, from)
      + if from <= r.first < from + WINDOW && VerdictOf(WindowAfter(start, front, limit), r, limit).Admitted?
        then 1 else 0
  }

  /** The clock of the last check, or the start. */
  function LastClock(start: int, readings: seq<Reading>): int {
    if readings == [] then start else readings[|readings| - 1].second
  }

  /**
   Why two windows are all an interval can meet: what was admitted in it so far fits the current
   window, or this window opened inside it and one full window came before, or the interval is over.
   */
  ghost predicate Bounded(w: Window, clock: int, n: nat, limit: nat, from: int) {
    && w.count <= limit && w.start <= clock
    && (n > 0 ==> from <= clock)
    && (n <= w.count
        || (from <= w.start && n <= limit + w.count)
        || (from + WINDOW <= clock && n <= 2 * limit))
  }

  lemma {:induction false} RunIsBounded(start: int, readings: seq<Reading>, limit: nat, from: int)
    requires Monotone(start, readings)
    ensures Bounded(WindowAfter(start, readings, limit), LastClock(start, readings),
                    AdmittedWithin(start, readings, limit, from), limit, from)
  {
    if readings != [] {
      var front, r := readings[..|readings| - 1], readings[|readings| - 1];
      assert Monotone(start, front);
      RunIsBounded(start, front, limit, from);
      assert LastClock(start, front) <= r.first;
    }
  }

  /** Any half-open interval of sixty seconds contains at most twice the limit. */
  lemma AtMostTwiceTheLimit(start: int, readings: seq<Reading>, limit: nat, from: int)
    requires Monotone(start, readings)
    ensures AdmittedWithin(start, readings, limit, from) <= 2 * limit
  {
    RunIsBounded(start, readings, limit, from);
  }

  lemma OneMoreFits(w: Window, r: Reading, limit: nat)
    requires !Expired(w, r.first) && w.count < limit
    ensures VerdictOf(w, r, limit).Admitted? && After(w, r, limit) == Window(w.start, w.count + 1)
  {
  }

  /** The same reading `n` times. */
  function Repeated(r: Reading, n: nat): (readings: seq<Reading>)
    ensures |readings| == n && forall i :: 0 <= i < n ==> readings[i] == r
  {
    if n == 0 then [] else Repeated(r, n - 1) + [r]
  }

  lemma {:induction false} RepeatedFromFront(r: Reading, n: nat)
    requires n > 0
    ensures Repeated(r, n) == [r] + Repeated(r, n - 1)
  {
    if n > 1 {
      RepeatedFromFront(r, n - 1);
    }
  }

  lemma LastOfRun(start: int, front: seq<Reading>, r: Reading, limit: nat, from: int)
    ensures WindowAfter(start, front + [r], limit) == After(WindowAfter(start, front, limit), r, limit)
    ensures AdmittedWithin(start, front + [r], limit, from)
         == AdmittedWithin(start, front, limit, from)
            + if from <= r.first < from + WINDOW && VerdictOf(WindowAfter(start, front, limit), r, limit).Admitted?
              then 1 else 0
  {
    assert (front + [r])[..|front|] == front;
  }

  /** Checks in a window with room are all admitted. */
  lemma {:induction false} Burst(start: int, before: seq<Reading>, r: Reading, n: nat, limit: nat, from: int)
    requires var w := WindowAfter(start, before, limit);
             !Expired(w, r.first) && w.count + n <= limit && from <= r.first < from + WINDOW
    ensures var w, all := WindowAfter(start, before, limit), before + Repeated(r, n);
            && WindowAfter(start, all, limit) == Window(w.start, w.count + n)
            && AdmittedWithin(start, all, limit, from) == AdmittedWithin(start, before, limit, from) + n
  {
    if n == 0 {
      assert before + [] == before;
    } else {
      Burst(start, before, r, n - 1, limit, from);
      var w := WindowAfter(start, before, limit);
      ConcatIsAssociative(before, Repeated(r, n - 1), [r]);
      LastOfRun(start, before + Repeated(r, n - 1), r, limit, from);
      OneMoreFits(Window(w.start, w.count + n - 1), r, limit);
    }
  }

  /** The first check after the window expired opens a new one, and the rest of a burst follows. */
  lemma SecondBurst(start: int, before: seq<Reading>, r: Reading, n: nat, limit: nat, from: int)
    requires Expired(WindowAfter(start, before, limit), r.first) && r.first == r.second
    requires 0 < n <= limit && from <= r.first < from + WINDOW
    ensures AdmittedWithin(start, before + Repeated(r, n), limit, from)
         == AdmittedWithin(start, before, limit, from) + n
  {
    LastOfRun(start, before, r, limit, from);
    Burst(start, before + [r], r, n - 1, limit, from);
    RepeatedFromFront(r, n);
    ConcatIsAssociative(before, [r], Repeated(r, n - 1));
  }

  lemma BurstsAreMonotone(start: int, limit: nat, early: Reading, late: Reading)
    requires start <= early.first == early.second <= late.first == late.second
    ensures Monotone(start, Repeated(early, limit) + Repeated(late, limit))
  {
  }

  /** The factor two is reached: a full burst at the end of one window and another right after it. */
  lemma TwiceTheLimitIsReached(start: int, limit: nat)
    ensures var readings := Repeated(Reading(start + WINDOW - 1, start + WINDOW - 1), limit)
                          + Repeated(Reading(start + WINDOW, start + WINDOW), limit);
            Monotone(start, readings) && AdmittedWithin(start, readings, limit, start + WINDOW - 1) == 2 * limit
  {
    var early := Reading(start + WINDOW - 1, start + WINDOW - 1);
    var late := Reading(start + WINDOW, start + WINDOW);
    BurstsAreMonotone(start, limit, early, late);
    Burst(start, [], early, limit, limit, start + WINDOW - 1);
    assert [] + Repeated(early, limit) == Repeated(early, limit);
    if limit > 0 {
      SecondBurst(start, Repeated(early, limit), late, limit, limit, start + WINDOW - 1);
    }
  }

  // ---- The retry hint -------------------------------------------------------------------------

  lemma RetryAfterIsBetween1And60(w: Window, r: Reading, limit: nat)
    requires w.start <= r.first && VerdictOf(w, r, limit).Rejected?
    ensures 1 <= VerdictOf(w, r, limit).retryAfter <= 60
  {
    assert (r.first - w.start) / NANOS_PER_SECOND >= 0;
  }

  /**
   Waiting as long as told guarantees that the rejecting window has expired, exactly when the check
   did not itself open that window; a check opens a window and rejects only under a limit of zero.
   */
  lemma WaitingExpiresWindowExactlyWhen(w: Window, r: Reading, limit: nat, later: int)
    requires w.start <= r.first <= r.second && VerdictOf(w, r, limit).Rejected?
    requires later == r.second + VerdictOf(w, r, limit).retryAfter * NANOS_PER_SECOND
    ensures Expired(After(w, r, limit), later) <==> !Expired(w, r.first)
    ensures Expired(w, r.first) ==> limit == 0
  {
    var elapsed := r.first - w.start;
    assert elapsed < (elapsed / NANOS_PER_SECOND + 1) * NANOS_PER_SECOND;
    assert elapsed / NANOS_PER_SECOND * NANOS_PER_SECOND <= elapsed;
  }

  /** The hint is no longer than needed: one second less than told does not expire the window. */
  lemma ShorterWaitIsTooShort(w: Window, r: Reading, limit: nat)
    requires w.start <= r.first && VerdictOf(w, r, limit).Rejected? && !Expired(w, r.first)
    ensures !Expired(After(w, r, limit), r.first + (VerdictOf(w, r, limit).retryAfter - 1) * NANOS_PER_SECOND)
  {
    var elapsed := r.first - w.start;
    assert elapsed < (elapsed / NANOS_PER_SECOND + 1) * NANOS_PER_SECOND;
    assert elapsed / NANOS_PER_SECOND * NANOS_PER_SECOND <= elapsed;
  }
}
