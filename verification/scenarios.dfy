/** The library's own test scenarios for the retry and fallback policies,
    each stated for every bound on attempts large enough to let the call
    finish and for every timing of the attempts it does not depend on. */
module Scenarios {
  import opened Optional
  import opened Errors
  import opened Context
  import opened Classifier
  import opened Executor
  import RetryPolicy
  import FallbackPolicy

  const ErrConnecting := Sentinel("ErrConnecting")
  const ErrInvalidArgument := Sentinel("ErrInvalidArgument")
  const ErrInvalidState := Sentinel("ErrInvalidState")
  const ErrTimeout := Sentinel("ErrTimeout")

  /** Go's `any` as the tests use it: nil or a boolean. */
  datatype Any = Nil | Bool(b: bool)

  /** TestFallbackOfResult: a failing call becomes (true, nil) in one attempt. */
  lemma FallbackOfResult(took: Clock, fuel: nat)
    ensures var r := Get([Fallback(FallbackPolicy.OfResult(true))],
                         e => Outcome(false, Some(ErrInvalidArgument)), took, fuel);
      && r.Some? && r.value.outcome == Outcome(true, None)
      && r.value.exec.attempts == 1 && r.value.exec.executions == 1
  {
    FallbackAlone(FallbackPolicy.OfResult(true), e => Outcome(false, Some(ErrInvalidArgument)), took, fuel);
  }

  /** TestShouldFallbackOfError: the configured error is the final error. */
  lemma FallbackOfError(took: Clock, fuel: nat)
    ensures var r := Get([Fallback(FallbackPolicy.OfError(false, ErrInvalidArgument))],
                         e => Outcome(false, Some(ErrInvalidArgument)), took, fuel);
      && r.Some? && r.value.outcome.error == Some(ErrInvalidArgument)
      && r.value.exec.attempts == 1 && r.value.exec.executions == 1
  {
    FallbackAlone(FallbackPolicy.OfError(false, ErrInvalidArgument), e => Outcome(false, Some(ErrInvalidArgument)), took, fuel);
  }

  /** The function the Fn test configures: wrap the last error in a CompositeError. */
  function WrapLastError(exec: Execution<bool>): Outcome<bool>
  {
    Outcome(false, Some(Composite(exec.LastError())))
  }

  /** TestShouldFallbackOfFn: the function sees ErrConnecting as LastError and
      its composite error is returned as it is, still matching its cause. */
  lemma FallbackOfFn(took: Clock, fuel: nat)
    ensures var r := Get([Fallback(FallbackPolicy.OfFn(WrapLastError))],
                         e => Outcome(false, Some(ErrConnecting)), took, fuel);
      && r.Some? && r.value.outcome.error == Some(Composite(Some(ErrConnecting)))
      && Is(r.value.outcome.error.value, ErrConnecting)
      && r.value.exec.attempts == 1 && r.value.exec.executions == 1
  {
    FallbackAlone(FallbackPolicy.OfFn(WrapLastError), e => Outcome(false, Some(ErrConnecting)), took, fuel);
  }

  /** TestShouldNotFallback: a successful call passes through unchanged. */
  lemma NoFallbackOnSuccess(took: Clock, fuel: nat)
    ensures var r := Get([Fallback(FallbackPolicy.OfResult(true))],
                         e => Outcome(false, None), took, fuel);
      && r.Some? && r.value.outcome == Outcome(false, None)
      && r.value.exec.attempts == 1 && r.value.exec.executions == 1
  {
    FallbackAlone(FallbackPolicy.OfResult(true), e => Outcome(false, None), took, fuel);
  }

  /** The fallback of TestShouldFallbackWithFailureConditions. */
  function InvalidStateFallback(): FallbackPolicy.Config<bool>
  {
    FallbackPolicy.Config(FallbackPolicy.WithResult(true), HandleErrors([], [ErrInvalidState]))
  }

  /** TestShouldFallbackWithFailureConditions: ErrInvalidArgument is not
      handled and passes through; ErrInvalidState is replaced by true. */
  lemma FallbackWithFailureConditions(took: Clock, fuel: nat)
    ensures var r := Get([Fallback(InvalidStateFallback())],
                         e => Outcome(false, Some(ErrInvalidArgument)), took, fuel);
      && r.Some? && r.value.outcome == Outcome(false, Some(ErrInvalidArgument))
      && r.value.exec.attempts == 1 && r.value.exec.executions == 1
    ensures var r := Get([Fallback(InvalidStateFallback())],
                         e => Outcome(false, Some(ErrInvalidState)), took, fuel);
      && r.Some? && r.value.outcome == Outcome(true, None)
      && r.value.exec.attempts == 1 && r.value.exec.executions == 1
  {
    var fb := InvalidStateFallback();
    FallbackAlone(fb, e => Outcome(false, Some(ErrInvalidArgument)), took, fuel);
    FallbackAlone(fb, e => Outcome(false, Some(ErrInvalidState)), took, fuel);
    assert !Handles(fb.handle, Outcome(false, Some(ErrInvalidArgument)));
    assert Handles(fb.handle, Outcome(false, Some(ErrInvalidState))) by {
      assert Matches(fb.handle[0], Outcome(false, Some(ErrInvalidState)));
    }
  }

  /** TestShouldVerifyFallbackResult: a substituted error is still a failure,
      and a substituted result after a failure is a success. */
  lemma VerifyFallbackResult(took: Clock, fuel: nat)
    ensures var fb := FallbackPolicy.OfError(Nil, ErrInvalidArgument);
      var r := Get([Fallback(fb)], e => Outcome(Bool(false), Some(New(0, "test"))), took, fuel);
      && r.Some? && r.value.outcome.error == Some(ErrInvalidArgument)
      && !FallbackPolicy.Succeeded(fb, r.value.outcome)
      && r.value.exec.attempts == 1 && r.value.exec.executions == 1
    ensures var fb := FallbackPolicy.OfResult(Bool(true));
      var r := Get([Fallback(fb)], e => Outcome(Bool(false), Some(New(0, "test"))), took, fuel);
      && r.Some? && r.value.outcome == Outcome(Bool(true), None)
      && FallbackPolicy.Succeeded(fb, r.value.outcome)
      && r.value.exec.attempts == 1 && r.value.exec.executions == 1
  {
    FallbackAlone(FallbackPolicy.OfError(Nil, ErrInvalidArgument), e => Outcome(Bool(false), Some(New(0, "test"))), took, fuel);
    FallbackAlone(FallbackPolicy.OfResult(Bool(true)), e => Outcome(Bool(false), Some(New(0, "test"))), took, fuel);
  }

  /** TestShouldRetryOnFailure and TestShouldReturnRetriesExceededError: with
      the defaults, an operation that always fails with ErrConnecting runs 3
      times and ends in a RetriesExceededError whose cause is ErrConnecting. */
  lemma RetryOnFailure(took: Clock, fuel: nat)
    requires fuel >= 3
    ensures var r := Get([Retry(RetryPolicy.WithDefaults())], e => Outcome(false, Some(ErrConnecting)), took, fuel);
      && r.Some?
      && r.value.exec.attempts == 3 && r.value.exec.executions == 3
      && r.value.outcome.error == Some(RetriesExceeded(Some(ErrConnecting)))
      && Is(r.value.outcome.error.value, ErrConnecting)
      && AsRetriesExceeded(r.value.outcome.error.value).Some?
  {
    var c := RetryPolicy.WithDefaults<bool>();
    var op: Operation<bool> := e => Outcome(false, Some(ErrConnecting));
    var f: nat -> Outcome<bool> := j => Outcome(false, Some(ErrConnecting));
    RetryAlone(c, op, took, fuel);
    RetryPolicy.ExhaustsAttemptBudget(c, op, f, took, Start(), fuel);
  }

  /** TestShouldNotRetryOnSuccess: a first-attempt success is one attempt, unchanged. */
  lemma NoRetryOnSuccess(took: Clock, fuel: nat)
    requires fuel >= 1
    ensures var r := Get([Retry(RetryPolicy.WithDefaults())], e => Outcome(false, None), took, fuel);
      && r.Some? && r.value.outcome == Outcome(false, None)
      && r.value.exec.attempts == 1 && r.value.exec.executions == 1
  {
    var c := RetryPolicy.WithDefaults<bool>();
    var op: Operation<bool> := e => Outcome(false, None);
    var f: nat -> Outcome<bool> := j => Outcome(false, None);
    RetryAlone(c, op, took, fuel);
    RetryPolicy.StopsAtFirstNonRetryable(c, op, f, took, Start(), 1, fuel);
  }

  /** The operation of TestShouldNotRetryOnNonRetriableFailure. */
  function ConnectingThenTimeout(exec: Execution<Any>): Option<Error>
  {
    if exec.attempts <= 2 then Some(ErrConnecting) else Some(ErrTimeout)
  }

  /** The policy of TestShouldNotRetryOnNonRetriableFailure: unlimited retries of ErrConnecting. */
  function RetryConnecting(): RetryPolicy.Config<Any>
  {
    RetryPolicy.WithDefaults().(maxRetries := -1, handle := HandleErrors([], [ErrConnecting]))
  }

  /** TestShouldNotRetryOnNonRetriableFailure: despite unlimited retries, the
      unhandled ErrTimeout of the third attempt ends the call unwrapped. */
  lemma NoRetryOnNonRetriableFailure(took: Clock, fuel: nat)
    requires fuel >= 3
    ensures var r := Run([Retry(RetryConnecting())], ConnectingThenTimeout, Nil, took, fuel);
      && r.Some? && r.value.error == Some(ErrTimeout)
      && r.value.exec.attempts == 3 && r.value.exec.executions == 3
  {
    var c := RetryConnecting();
    var op := Lift(ConnectingThenTimeout, Nil);
    var f: nat -> Outcome<Any> := j => Outcome(Nil, if j <= 2 then Some(ErrConnecting) else Some(ErrTimeout));
    assert PerAttempt(op, f) by {
      forall e ensures op(e) == f(e.attempts) {
        assert op(e) == Outcome(Nil, ConnectingThenTimeout(e));
      }
    }
    assert RetryPolicy.RetryableAt(c, f, 1) && RetryPolicy.RetryableAt(c, f, 2) by {
      assert f(1) == f(2) == Outcome(Nil, Some(ErrConnecting));
      assert Matches(c.handle[0], Outcome(Nil, Some(ErrConnecting)));
    }
    assert !RetryPolicy.Retryable(c, f(3)) by {
      assert f(3) == Outcome(Nil, Some(ErrTimeout));
      assert !Is(ErrTimeout, ErrConnecting);
    }
    RetryAlone(c, op, took, fuel);
    RetryPolicy.StopsAtFirstNonRetryable(c, op, f, took, Start(), 3, fuel);
  }

  /** The policy of TestShouldCompleteWhenMaxDurationExceeded: handle a false
      result, give up after 100 time units. */
  function RetryFalseFor100(): RetryPolicy.Config<bool>
  {
    RetryPolicy.WithDefaults().(handle := HandleResult([], false), maxDuration := 100)
  }

  /** TestShouldCompleteWhenMaxDurationExceeded: an attempt taking 120 units
      exceeds the 100-unit budget, so no second attempt runs. */
  lemma CompleteWhenMaxDurationExceeded(fuel: nat)
    requires fuel >= 1
    ensures var r := Get([Retry(RetryFalseFor100())], e => Outcome(false, Some(New(0, "Asdf"))), k => 120, fuel);
      && r.Some?
      && r.value.exec.attempts == 1 && r.value.exec.executions == 1
      && r.value.outcome.error == Some(RetriesExceeded(Some(New(0, "Asdf"))))
  {
    var c := RetryFalseFor100();
    var op: Operation<bool> := e => Outcome(false, Some(New(0, "Asdf")));
    var f: nat -> Outcome<bool> := j => Outcome(false, Some(New(0, "Asdf")));
    assert RetryPolicy.Retryable(c, f(1)) by {
      assert Matches(c.handle[0], f(1));
    }
    RetryAlone(c, op, k => 120, fuel);
    RetryPolicy.DurationStopsAfterAttempt(c, op, f, k => 120, fuel);
  }

  /** TestScheduledRetryDelay: with a fixed 10-unit delay, both scheduled
      retries announce a delay of exactly 10. */
  lemma ScheduledRetryDelay(took: Clock, fuel: nat)
    requires fuel >= 3
    ensures var c := RetryPolicy.WithDefaults<Any>().(delay := 10);
      var r := RetryPolicy.Loop(c, User(Lift(e => Some(ErrConnecting), Nil), took), Start(), 0, fuel);
      && r.Some? && r.value.scheduled == [10, 10]
  {
    var c := RetryPolicy.WithDefaults<Any>().(delay := 10);
    var op := Lift(e => Some(ErrConnecting), Nil);
    var f: nat -> Outcome<Any> := j => Outcome(Nil, Some(ErrConnecting));
    assert PerAttempt(op, f);
    RetryPolicy.ExhaustsAttemptBudget(c, op, f, took, Start(), fuel);
    RetryPolicy.FixedDelayAnnounced(c, User(op, took), Start(), 0, fuel);
    RetryPolicy.LoopSchedules(c, User(op, took), Start(), 0, fuel);
    var sched := RetryPolicy.Loop(c, User(op, took), Start(), 0, fuel).value.scheduled;
    assert |sched| == 2;
    assert sched == [sched[0], sched[1]];
  }

  /** An abort condition that matches ends the call after one attempt with
      the raw error, not a RetriesExceededError. */
  lemma AbortReturnsRawError(e: Error, took: Clock, fuel: nat)
    requires fuel >= 1
    ensures var c := RetryPolicy.WithDefaults<bool>().(abortOn := HandleErrors([], [e]));
      var r := Get([Retry(c)], x => Outcome(false, Some(e)), took, fuel);
      && r.Some? && r.value.outcome == Outcome(false, Some(e))
      && r.value.exec.attempts == 1 && r.value.exec.executions == 1
  {
    var c := RetryPolicy.WithDefaults<bool>().(abortOn := HandleErrors([], [e]));
    var op: Operation<bool> := x => Outcome(false, Some(e));
    var f: nat -> Outcome<bool> := j => Outcome(false, Some(e));
    assert Matches(c.abortOn[0], f(1));
    RetryAlone(c, op, took, fuel);
    RetryPolicy.StopsAtFirstNonRetryable(c, op, f, took, Start(), 1, fuel);
  }

  /** A retry policy allowing one retry, as used twice, nested, below. */
  function RetryOnce(): RetryPolicy.Config<bool>
  {
    RetryPolicy.WithDefaults().(maxRetries := 1)
  }

  function AlwaysConnecting(e: Execution<bool>): Outcome<bool>
  {
    Outcome(false, Some(ErrConnecting))
  }

  /** One run of RetryOnce around AlwaysConnecting, from any context: two
      attempts, then RetriesExceeded wrapping ErrConnecting. */
  lemma RetryOnceGivesUp(took: Clock, e: Execution<bool>, fuel: nat)
    requires fuel >= 2
    ensures var r := RetryPolicy.Loop(RetryOnce(), User(AlwaysConnecting, took), e, 0, fuel);
      && r.Some? && r.value.outcome == Outcome(false, Some(RetriesExceeded(Some(ErrConnecting))))
      && r.value.exec.attempts == e.attempts + 2 && r.value.exec.executions == e.executions + 2
  {
    var c := RetryOnce();
    var u := User(AlwaysConnecting, took);
    var s1 := Attempt(AlwaysConnecting, took, e);
    assert u(e) == Some(s1);
    RetryPolicy.LoopRetries(c, u, e, 0, fuel, s1);
    assert s1.exec.(elapsed := s1.exec.elapsed + RetryPolicy.DelayFor(c, 1)) == s1.exec;
    var s2 := Attempt(AlwaysConnecting, took, s1.exec);
    assert u(s1.exec) == Some(s2);
    RetryPolicy.LoopGivesUp(c, u, s1.exec, 1, fuel - 1, s2);
  }

  /** RetryOnce around any layer whose first two runs fail: it retries once
      and then gives up, wrapping the second run's error. */
  lemma RetryOnceAround(inner: Executable<bool>, e: Execution<bool>, t1: Step<bool>, t2: Step<bool>, fuel: nat)
    requires fuel >= 2
    requires inner(e) == Some(t1) && inner(t1.exec) == Some(t2)
    requires t1.outcome.error.Some? && t2.outcome.error.Some?
    ensures var r := RetryPolicy.Loop(RetryOnce(), inner, e, 0, fuel);
      && r.Some? && r.value.exec == t2.exec
      && r.value.outcome == Outcome(t2.outcome.result, Some(RetriesExceeded(t2.outcome.error)))
  {
    var c := RetryOnce();
    RetryPolicy.LoopRetries(c, inner, e, 0, fuel, t1);
    assert t1.exec.(elapsed := t1.exec.elapsed + RetryPolicy.DelayFor(c, 1)) == t1.exec;
    RetryPolicy.LoopGivesUp(c, inner, t1.exec, 1, fuel - 1, t2);
  }

  /** Two nested retry policies allowing one retry each, around an operation
      that always fails: each run of the inner policy starts its own count
      of tries, so the call makes four attempts and the error wraps the
      inner policy's exhaustion error. */
  lemma NestedRetriesCountPerLayer(took: Clock, fuel: nat)
    requires fuel >= 2
    ensures var r := Get([Retry(RetryOnce()), Retry(RetryOnce())], AlwaysConnecting, took, fuel);
      && r.Some? && r.value.exec.attempts == 4 && r.value.exec.executions == 4
      && r.value.outcome.error == Some(RetriesExceeded(Some(RetriesExceeded(Some(ErrConnecting)))))
  {
    var c := RetryOnce();
    var u := User(AlwaysConnecting, took);
    var inner := RetryPolicy.Decorate(c, u, fuel);
    ComposeOne(Retry(c), u, fuel);
    ComposeCons(Retry(c), [Retry(c)], u, fuel);
    assert [Retry(c)] + [Retry(c)] == [Retry(c), Retry(c)];
    var e0 := Start<bool>();
    RetryOnceGivesUp(took, e0, fuel);
    var r1 := RetryPolicy.Loop(c, u, e0, 0, fuel).value;
    var t1 := Step(r1.outcome, r1.exec);
    assert inner(e0) == Some(t1);
    RetryOnceGivesUp(took, t1.exec, fuel);
    var r2 := RetryPolicy.Loop(c, u, t1.exec, 0, fuel).value;
    var t2 := Step(r2.outcome, r2.exec);
    assert inner(t1.exec) == Some(t2);
    RetryOnceAround(inner, e0, t1, t2, fuel);
  }
}
