/** `run_with_index_lock_retry` against a world that answers each attempt as it likes and whose clock runs
    at least as fast as the time slept. Times are seconds. The schedule of sleeps is that of the code: each twice the
    one before, up to a ceiling, and the last cut short where the window ends. */
module Retry {
  import opened Wire

  const INITIAL_BACKOFF := 0.1
  const MAX_BACKOFF := 2.0

  datatype Attempt = Success | Contention | OtherFailure

  datatype Outcome = Answered(attempt: Attempt) | PreconditionFailed

  datatype Event = Checked | Tried | Slept(seconds: real)

  function Min(a: real, b: real): real {
    if a < b then a else b
  }

  /** The wait after the `k`-th failure, if the window allows it. */
  function Backoff(k: nat): (b: real)
    ensures INITIAL_BACKOFF <= b <= MAX_BACKOFF
  {
    if k == 0 then INITIAL_BACKOFF else Min(Backoff(k - 1) * 2.0, MAX_BACKOFF)
  }

  function PowerOfTwo(k: nat): real {
    if k == 0 then 1.0 else 2.0 * PowerOfTwo(k - 1)
  }

  /** The wait doubles with every failure until it comes to the ceiling, and then stays there. */
  lemma {:induction false} BackoffDoubles(k: nat)
    ensures PowerOfTwo(k) >= 1.0 && Backoff(k) == Min(INITIAL_BACKOFF * PowerOfTwo(k), MAX_BACKOFF)
  {
    if k > 0 {
      BackoffDoubles(k - 1);
    }
  }

  function TotalSleep(sleeps: seq<real>): real {
    if sleeps == [] then 0.0 else TotalSleep(sleeps[..|sleeps| - 1]) + sleeps[|sleeps| - 1]
  }

  /** What a call has done when it turns to its next attempt, having slept these times: the precondition, if
      there is one, comes before every attempt. */
  function Trace(checking: bool, sleeps: seq<real>): seq<Event> {
    if sleeps == [] then []
    else Trace(checking, sleeps[..|sleeps| - 1]) + Once(checking) + [Slept(sleeps[|sleeps| - 1])]
  }

  function Once(checking: bool): seq<Event> {
    if checking then [Checked, Tried] else [Tried]
  }

  /** Every sleep but the last is the full backoff; the last may be cut short by the window. */
  ghost predicate Scheduled(sleeps: seq<real>) {
    && (forall k :: 0 <= k < |sleeps| ==> 0.0 < sleeps[k] <= Backoff(k))
    && (forall k :: 0 <= k < |sleeps| - 1 ==> sleeps[k] == Backoff(k))
  }

  /** Sleeps within the window; `cut` when the last one was cut short. */
  ghost predicate Within(sleeps: seq<real>, window: real, cut: bool) {
    && Scheduled(sleeps) && 0.0 <= TotalSleep(sleeps) <= window
    && (cut ==> sleeps != [])
    && (!cut ==> forall k :: 0 <= k < |sleeps| ==> sleeps[k] == Backoff(k))
    && |sleeps| as real <= 10.0 * TotalSleep(sleeps) + if cut then 1.0 else 0.0
  }

  lemma SleepAppend(sleeps: seq<real>, wait: real)
    ensures TotalSleep(sleeps + [wait]) == TotalSleep(sleeps) + wait
  {
    assert (sleeps + [wait])[..|sleeps|] == sleeps;
  }

  lemma ScheduledAppend(sleeps: seq<real>, wait: real)
    requires forall k :: 0 <= k < |sleeps| ==> sleeps[k] == Backoff(k)
    requires 0.0 < wait <= Backoff(|sleeps|)
    ensures Scheduled(sleeps + [wait])
    ensures wait == Backoff(|sleeps|) ==> forall k :: 0 <= k < |sleeps + [wait]| ==> (sleeps + [wait])[k] == Backoff(k)
  {
    var more := sleeps + [wait];
    assert forall k :: 0 <= k < |sleeps| ==> more[k] == sleeps[k];
  }

  lemma SleepWithin(sleeps: seq<real>, window: real, remaining: real)
    requires Within(sleeps, window, false) && 0.0 < remaining && TotalSleep(sleeps) + remaining <= window
    ensures var wait := Min(Backoff(|sleeps|), remaining);
            && TotalSleep(sleeps + [wait]) == TotalSleep(sleeps) + wait
            && Within(sleeps + [wait], window, wait < Backoff(|sleeps|))
            && (wait >= Backoff(|sleeps|) ==> wait >= INITIAL_BACKOFF)
  {
    var wait := Min(Backoff(|sleeps|), remaining);
    SleepAppend(sleeps, wait);
    ScheduledAppend(sleeps, wait);
    hide Scheduled, TotalSleep, Backoff;
    assert |sleeps + [wait]| as real == |sleeps| as real + 1.0;
  }

  lemma TraceAppend(checking: bool, sleeps: seq<real>, wait: real)
    ensures Trace(checking, sleeps + [wait]) == Trace(checking, sleeps) + Once(checking) + [Slept(wait)]
  {
    assert (sleeps + [wait])[..|sleeps|] == sleeps;
  }

  lemma WithinMeans(sleeps: seq<real>, window: real, cut: bool)
    requires Within(sleeps, window, cut)
    ensures Scheduled(sleeps) && 0.0 <= TotalSleep(sleeps) <= window
    ensures |sleeps| as real + 1.0 <= 2.0 + 10.0 * window
  {
  }

  /** The other processes, Git and the clock, as this call meets them. */
  class World {
    const attempts: nat -> Attempt
    const holds: nat -> bool
    var clock: real
    var tried: nat
    var checked: nat
    ghost var log: seq<Event>

    constructor (attempts: nat -> Attempt, holds: nat -> bool, clock: real)
      ensures this.attempts == attempts && this.holds == holds && this.clock == clock
      ensures tried == 0 && checked == 0 && log == []
    {
      this.attempts, this.holds, this.clock := attempts, holds, clock;
      tried, checked, log := 0, 0, [];
    }

    method Monotonic(lag: real) returns (t: real)
      requires lag >= 0.0
      modifies `clock
      ensures clock == old(clock) + lag == t
    {
      clock := clock + lag;
      t := clock;
    }

    method Sleep(seconds: real)
      requires seconds > 0.0
      modifies `clock, `log
      ensures clock == old(clock) + seconds && log == old(log) + [Slept(seconds)]
    {
      clock, log := clock + seconds, log + [Slept(seconds)];
    }

    /** `before_attempt`, if there is one, and the command. */
    method CheckAndTry(checking: bool) returns (outcome: Outcome)
      modifies `checked, `tried, `log
      ensures checked == old(checked) + if checking then 1 else 0
      ensures if checking && !holds(old(checked))
              then outcome == PreconditionFailed && tried == old(tried) && log == old(log) + [Checked]
              else outcome == Answered(attempts(old(tried))) && tried == old(tried) + 1 && log == old(log) + Once(checking)
    {
      if checking {
        var ok := holds(checked);
        checked, log := checked + 1, log + [Checked];
        if !ok {
          return PreconditionFailed;
        }
      }
      outcome := Answered(attempts(tried));
      tried, log := tried + 1, log + [Tried];
    }

    /** Whatever the world answers: only contention is retried, each attempt follows its own check, sleeps
        follow the schedule and never add up to more than the window, and a call that gives up on contention
        has used the whole window. `lag` is the time that passes unslept before each reading of the clock. */
    method RunWithRetry(checking: bool, window: Option<real>, lag: nat -> real)
      returns (outcome: Outcome, ghost sleeps: seq<real>)
      requires tried == 0 && checked == 0 && log == [] && forall k :: lag(k) >= 0.0
      modifies this
      ensures Scheduled(sleeps) && forall k :: 0 <= k < |sleeps| ==> attempts(k) == Contention
      ensures forall k :: 0 <= k < |sleeps| ==> checking ==> holds(k)
      ensures if checking && !holds(|sleeps|)
              then outcome == PreconditionFailed && log == Trace(checking, sleeps) + [Checked] && tried == |sleeps|
              else outcome == Answered(attempts(|sleeps|)) && log == Trace(checking, sleeps) + Once(checking)
                   && tried == |sleeps| + 1
      ensures window.None? || window.value <= 0.0 ==> sleeps == []
      ensures window.Some? && window.value > 0.0 ==>
                && TotalSleep(sleeps) <= window.value
                && tried as real <= 2.0 + 10.0 * window.value
                && (outcome == Answered(Contention) ==> clock >= old(clock) + window.value)
    {
      sleeps := [];
      if window.None? || window.value <= 0.0 {
        outcome := CheckAndTry(checking);
        return;
      }
      var now := Monotonic(lag(0));
      var deadline, backoff, reading: nat := now + window.value, INITIAL_BACKOFF, 1;
      ghost var cut := false;
      assert Within([], window.value, false);
      hide Within, Scheduled, TotalSleep, Trace, Once;
      while true
        invariant Within(sleeps, window.value, cut) && backoff == Backoff(|sleeps|)
        invariant tried == |sleeps| && checked == if checking then |sleeps| else 0
        invariant forall k :: 0 <= k < |sleeps| ==> attempts(k) == Contention && (checking ==> holds(k))
        invariant log == Trace(checking, sleeps)
        invariant deadline >= old(clock) + window.value && clock >= deadline - window.value + TotalSleep(sleeps)
        invariant cut ==> clock >= deadline
        decreases if cut then 0.0 else 1.0 + 10.0 * (window.value - TotalSleep(sleeps))
      {
        WithinMeans(sleeps, window.value, cut);
        outcome := CheckAndTry(checking);
        if outcome != Answered(Contention) {
          return;
        }
        now := Monotonic(lag(reading));
        var remaining := deadline - now;
        if remaining <= 0.0 {
          return;
        }
        var wait := Min(backoff, remaining);
        SleepWithin(sleeps, window.value, remaining);
        TraceAppend(checking, sleeps, wait);
        Sleep(wait);
        cut := wait < backoff;
        sleeps, reading, backoff := sleeps + [wait], reading + 1, Min(backoff * 2.0, MAX_BACKOFF);
      }
    }
  }
}
