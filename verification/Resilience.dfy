/** The circuit breaker over whole runs, and retrying with backoff. */
module Resilience {
  import opened Wrappers

  type Time = int
  const DEFAULT_THRESHOLD := 5
  const DEFAULT_RECOVERY := 30_000_000_000

  datatype State = Closed | Open | HalfOpen

  class CircuitBreaker {
    var state: State
    var failures: int
    var lastFailure: Time
    var halfOpenCalls: int
    const threshold: int
    const recoveryTimeout: int
    const halfOpenMax: int

    ghost function View(): Breaker
      reads this
    {
      Breaker(state, failures, lastFailure, halfOpenCalls, Settings(threshold, recoveryTimeout, halfOpenMax))
    }

    constructor (threshold: int, recovery: int)
      ensures View() == Fresh(threshold, recovery)
    {
      this.threshold := if threshold <= 0 then DEFAULT_THRESHOLD else threshold;
      this.recoveryTimeout := if recovery <= 0 then DEFAULT_RECOVERY else recovery;
      this.halfOpenMax := 1;
      state, failures, lastFailure, halfOpenCalls := Closed, 0, 0, 0;
    }

    method Allow(now: Time) returns (admitted: bool)
      modifies this
      ensures admitted == Admits(old(View()), now)
      ensures View() == After(old(View()), Event.Allow(now))
    {
      match state
      case Closed => return true;
      case Open =>
        if now - lastFailure >= recoveryTimeout {
          state, halfOpenCalls := HalfOpen, 0;
          return true;
        }
        return false;
      case HalfOpen =>
        if halfOpenCalls < halfOpenMax {
          halfOpenCalls := halfOpenCalls + 1;
          return true;
        }
        return false;
    }

    method RecordSuccess()
      modifies this
      ensures View() == After(old(View()), Success)
    {
      failures, state, halfOpenCalls := 0, Closed, 0;
    }

    method RecordFailure(now: Time)
      modifies this
      ensures View() == After(old(View()), Failure(now))
    {
      failures, lastFailure := failures + 1, now;
      if state == HalfOpen || failures >= threshold {
        state := Open;
      }
    }
  }

  // ---------- On values ----------

  datatype Settings = Settings(threshold: int, recovery: int, halfOpenMax: int)

  datatype Breaker = Breaker(state: State, failures: int, lastFailure: Time, halfOpenCalls: int, settings: Settings)

  datatype Event = Allow(now: Time) | Success | Failure(now: Time)

  function Fresh(threshold: int, recovery: int): Breaker {
    Breaker(Closed, 0, 0, 0, Settings(if threshold <= 0 then DEFAULT_THRESHOLD else threshold,
                                      if recovery <= 0 then DEFAULT_RECOVERY else recovery, 1))
  }

  predicate Admits(b: Breaker, now: Time) {
    match b.state
    case Closed => true
    case Open => now - b.lastFailure >= b.settings.recovery
    case HalfOpen => b.halfOpenCalls < b.settings.halfOpenMax
  }

  function After(b: Breaker, event: Event): Breaker {
    match event
    case Allow(now) =>
      if !Admits(b, now) || b.state.Closed? then b
      else if b.state.Open? then b.(state := HalfOpen, halfOpenCalls := 0)
      else b.(halfOpenCalls := b.halfOpenCalls + 1)
    case Success => b.(failures := 0, state := Closed, halfOpenCalls := 0)
    case Failure(now) =>
      b.(failures := b.failures + 1, lastFailure := now,
         state := if b.state.HalfOpen? || b.failures + 1 >= b.settings.threshold then Open else b.state)
  }

  function AfterAll(b: Breaker, events: seq<Event>): Breaker {
    if events == [] then b else After(AfterAll(b, events[..|events| - 1]), events[|events| - 1])
  }

  // ---------- What a run determines, told from its events alone ----------

  /** Failures recorded since the last success. */
  function FailureStreak(events: seq<Event>): nat {
    if events == [] then 0
    else match events[|events| - 1]
      case Success => 0
      case Failure(_) => FailureStreak(events[..|events| - 1]) + 1
      case Allow(_) => FailureStreak(events[..|events| - 1])
  }

  /** The time of the last failure. */
  function LastFailure(events: seq<Event>): Time {
    if events == [] then 0
    else match events[|events| - 1]
      case Failure(now) => now
      case _ => LastFailure(events[..|events| - 1])
  }

  /** Admission by the rule the breaker is meant to follow: always below the threshold; once tripped, a first
      probe when the recovery time has passed since the last failure, and then `halfOpenMax` more. */
  predicate MayPass(events: seq<Event>, now: Time, settings: Settings)
    decreases |events|, 1
  {
    || FailureStreak(events) < settings.threshold
    || (Probes(events, settings) == 0 && now - LastFailure(events) >= settings.recovery)
    || 1 <= Probes(events, settings) <= settings.halfOpenMax
  }

  /** Calls admitted since the last outcome. */
  function Probes(events: seq<Event>, settings: Settings): nat
    decreases |events|, 0
  {
    if events == [] then 0
    else
      var front := events[..|events| - 1];
      match events[|events| - 1]
      case Allow(now) => Probes(front, settings) + (if MayPass(front, now, settings) then 1 else 0)
      case _ => 0
  }

  /** Five failures and thirty seconds unless other positive numbers are given, and one more probe after the first. */
  function Configured(threshold: int, recovery: int): Settings {
    Settings(if threshold > 0 then threshold else 5, if recovery > 0 then recovery else 30 * 1_000_000_000, 1)
  }

  /** In every run the breaker is closed exactly while fewer failures than the threshold have been recorded
      since the last success, and it admits exactly the calls the rule admits; once it has tripped, at most
      `halfOpenMax + 1` of them before the next outcome. */
  lemma {:induction false} RunIsByTheRule(threshold: int, recovery: int, events: seq<Event>)
    ensures var b, settings := AfterAll(Fresh(threshold, recovery), events), Configured(threshold, recovery);
      && b.settings == settings && (b.state.Closed? ==> b.halfOpenCalls == 0)
      && (b.state.Closed? <==> FailureStreak(events) < settings.threshold)
      && b.failures == FailureStreak(events) && b.lastFailure == LastFailure(events)
      && (forall now :: Admits(b, now) <==> MayPass(events, now, settings))
      && (b.state.Open? ==> Probes(events, settings) == 0)
      && (b.state.HalfOpen? ==> Probes(events, settings) == b.halfOpenCalls + 1)
      && (!b.state.Closed? ==> Probes(events, settings) <= settings.halfOpenMax + 1)
  {
    if events != [] {
      RunIsByTheRule(threshold, recovery, events[..|events| - 1]);
    }
  }

  /** Probes that never report an outcome lock the breaker for good: after `halfOpenMax + 1` of them no later
      call is admitted, however much time passes. */
  lemma {:induction false} SilentProbesLockOut(b: Breaker, calls: seq<Event>, now: Time)
    requires b.state.HalfOpen? && b.halfOpenCalls >= b.settings.halfOpenMax
    requires forall i | 0 <= i < |calls| :: calls[i].Allow?
    ensures AfterAll(b, calls) == b && !Admits(AfterAll(b, calls), now)
  {
    if calls != [] {
      SilentProbesLockOut(b, calls[..|calls| - 1], now);
    }
  }

  /** A tripped breaker rejects every call until the recovery time has passed since the last failure. */
  lemma {:induction false} RejectsUntilRecovery(threshold: int, recovery: int, events: seq<Event>,
      calls: seq<Event>, now: Time)
    requires AfterAll(Fresh(threshold, recovery), events).state.Open?
    requires forall i | 0 <= i < |calls| ::
      calls[i].Allow? && calls[i].now - LastFailure(events) < Configured(threshold, recovery).recovery
    requires now - LastFailure(events) < Configured(threshold, recovery).recovery
    ensures !Admits(AfterAll(AfterAll(Fresh(threshold, recovery), events), calls), now)
  {
    RunIsByTheRule(threshold, recovery, events);
    StaysOpen(AfterAll(Fresh(threshold, recovery), events), calls);
  }

  lemma {:induction false} StaysOpen(b: Breaker, calls: seq<Event>)
    requires b.state.Open?
    requires forall i | 0 <= i < |calls| :: calls[i].Allow? && calls[i].now - b.lastFailure < b.settings.recovery
    ensures AfterAll(b, calls) == b
  {
    if calls != [] {
      StaysOpen(b, calls[..|calls| - 1]);
    }
  }

  // ---------- Retrying ----------

  datatype Error = Canceled | DeadlineExceeded | CircuitOpen | OtherError(text: string)

  /** `IsTransient` on errors proper. */
  predicate IsTransient(error: Error) {
    error.OtherError?
  }

  /** The error says to try again: the context goes on and no breaker is open. */
  predicate Retryable(error: Error) {
    error != Canceled && error != DeadlineExceeded && error != CircuitOpen
  }

  /** `outcomes` is what the attempts return one after the other, `interrupted` the waits that the context
      ends, with its error. */
  method RetryWithBackoff(maxRetries: int, outcomes: nat -> Option<Error>, interrupted: nat -> Option<Error>)
    returns (result: Option<Error>, calls: nat)
    ensures 1 <= calls <= (if maxRetries <= 0 then 1 else maxRetries + 1)
    ensures forall k | 0 <= k < calls - 1 ::
      outcomes(k).Some? && Retryable(outcomes(k).value) && interrupted(k).None?
    ensures maxRetries > 0 && calls <= maxRetries && outcomes(calls - 1).Some? && Retryable(outcomes(calls - 1).value)
      ==> interrupted(calls - 1).Some? && result == interrupted(calls - 1)
    ensures !(maxRetries > 0 && calls <= maxRetries && outcomes(calls - 1).Some?
        && Retryable(outcomes(calls - 1).value))
      ==> result == outcomes(calls - 1)
  {
    if maxRetries <= 0 {
      return outcomes(0), 1;
    }
    result, calls := None, 0;
    for attempt := 0 to maxRetries + 1
      invariant calls == attempt
      invariant forall k | 0 <= k < attempt ::
        outcomes(k).Some? && IsTransient(outcomes(k).value) && interrupted(k).None? && k < maxRetries
    {
      result := outcomes(attempt);
      calls := attempt + 1;
      if result.None? || !IsTransient(result.value) || attempt == maxRetries {
        return;
      }
      if interrupted(attempt).Some? {
        result := interrupted(attempt);
        return;
      }
    }
  }
}
