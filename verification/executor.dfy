/** The executor: policies wrap the user's operation as nested layers, the
    first policy given being the outermost, and a call runs the outermost
    layer on a fresh execution. */
module Executor {
  import opened Optional
  import opened Errors
  import opened Context
  import opened Classifier
  import RetryPolicy
  import FallbackPolicy

  datatype Policy<!R> =
    | Retry(retry: RetryPolicy.Config<R>)
    | Fallback(fallback: FallbackPolicy.Config<R>)

  /** One policy as a layer around `inner`; `fuel` bounds each retry loop. */
  function Layer<R(==)>(p: Policy<R>, inner: Executable<R>, fuel: nat): Executable<R>
  {
    match p
    case Retry(c) => RetryPolicy.Decorate(c, inner, fuel)
    case Fallback(c) => FallbackPolicy.Decorate(c, inner)
  }

  /** The chain for `ps` around `inner`: ps[0] outermost, the last policy
      closest to the operation. */
  function Compose<R(==)>(ps: seq<Policy<R>>, inner: Executable<R>, fuel: nat): Executable<R>
    decreases |ps|
  {
    if |ps| == 0 then inner else Layer(ps[0], Compose(ps[1..], inner, fuel), fuel)
  }

  /** The Get form: the final (result, error) and the execution it leaves. */
  function Get<R(==)>(ps: seq<Policy<R>>, op: Operation<R>, took: Clock, fuel: nat): Option<Step<R>>
  {
    Compose(ps, User(op, took), fuel)(Start())
  }

  /** An operation that returns only an error, as the Run form takes it,
      seen as one whose result is always the zero value. */
  function Lift<R>(op: Execution<R> -> Option<Error>, zero: R): Operation<R>
  {
    e => Outcome(zero, op(e))
  }

  /** The end of a Run-form call: only the error is surfaced. */
  datatype Completion<R> = Completion(error: Option<Error>, exec: Execution<R>)

  /** The Run form. */
  function Run<R(==)>(ps: seq<Policy<R>>, op: Execution<R> -> Option<Error>, zero: R, took: Clock, fuel: nat): Option<Completion<R>>
  {
    match Get(ps, Lift(op, zero), took, fuel)
    case None => None
    case Some(s) => Some(Completion(s.outcome.error, s.exec))
  }

  /** Every retry policy in `ps` has an attempt limit that `fuel` covers. */
  predicate Bounded<R>(ps: seq<Policy<R>>, fuel: nat)
  {
    forall i :: 0 <= i < |ps| && ps[i].Retry? ==> 0 <= ps[i].retry.maxRetries < fuel
  }

  /** Each layer keeps the inner chain counting every attempt as an execution
      and running at least one attempt; with bounded retry policies it also
      keeps the chain completing. */
  lemma LayerKeeps<R(!new)>(p: Policy<R>, inner: Executable<R>, fuel: nat)
    ensures Counts(inner) ==> Counts(Layer(p, inner, fuel))
    ensures Total(inner) && (p.Retry? ==> 0 <= p.retry.maxRetries < fuel) ==> Total(Layer(p, inner, fuel))
  {
    match p
    case Fallback(c) =>
      FallbackPolicy.KeepsCounts(c, inner);
    case Retry(c) =>
      var x := Layer(p, inner, fuel);
      if Counts(inner) {
        forall e | x(e).Some?
          ensures x(e).value.exec.attempts > e.attempts
          ensures x(e).value.exec.attempts - e.attempts == x(e).value.exec.executions - e.executions
        {
          RetryPolicy.LoopCounts(c, inner, e, 0, fuel);
        }
      }
      if Total(inner) && 0 <= c.maxRetries < fuel {
        forall e ensures x(e).Some? {
          RetryPolicy.BoundedLoopCompletes(c, inner, e, 0, fuel);
        }
      }
  }

  /** A whole chain around the user's operation: every attempt is an
      execution, at least one attempt runs, and the call completes whenever
      every retry policy in it has an attempt limit the bound covers. */
  lemma {:induction false} ChainKeeps<R(!new)>(ps: seq<Policy<R>>, op: Operation<R>, took: Clock, fuel: nat)
    ensures Counts(Compose(ps, User(op, took), fuel))
    ensures Bounded(ps, fuel) ==> Total(Compose(ps, User(op, took), fuel))
    decreases |ps|
  {
    if |ps| == 0 {
      UserCounts(op, took);
    } else {
      ChainKeeps(ps[1..], op, took, fuel);
      if Bounded(ps, fuel) {
        assert Bounded(ps[1..], fuel) by {
          forall i | 0 <= i < |ps[1..]| ensures ps[1..][i] == ps[i + 1] { }
        }
        assert ps[0].Retry? ==> 0 <= ps[0].retry.maxRetries < fuel;
      }
      LayerKeeps(ps[0], Compose(ps[1..], User(op, took), fuel), fuel);
    }
  }

  lemma ComposeCons<R(!new)>(p: Policy<R>, ps: seq<Policy<R>>, inner: Executable<R>, fuel: nat)
    ensures Compose([p] + ps, inner, fuel) == Layer(p, Compose(ps, inner, fuel), fuel)
  {
    assert ([p] + ps)[1..] == ps;
  }

  lemma ComposeOne<R(!new)>(p: Policy<R>, inner: Executable<R>, fuel: nat)
    ensures Compose([p], inner, fuel) == Layer(p, inner, fuel)
  {
    assert [p][1..] == [];
    assert Compose([], inner, fuel) == inner;
  }

  /** What a Get call reports: attempts and executions agree and are at
      least one; with bounded retry policies the call completes. */
  lemma GetCounts<R(!new)>(ps: seq<Policy<R>>, op: Operation<R>, took: Clock, fuel: nat)
    ensures var r := Get(ps, op, took, fuel);
      r.Some? ==> r.value.exec.attempts == r.value.exec.executions >= 1
    ensures Bounded(ps, fuel) ==> Get(ps, op, took, fuel).Some?
  {
    ChainKeeps(ps, op, took, fuel);
    var x := Compose(ps, User(op, took), fuel);
    assert x(Start()).Some? ==> x(Start()).value.exec.attempts > 0;
  }

  /** What a Run call reports: attempts and executions agree and are at
      least one; with bounded retry policies the call completes. */
  lemma RunCounts<R(!new)>(ps: seq<Policy<R>>, op: Execution<R> -> Option<Error>, zero: R, took: Clock, fuel: nat)
    ensures var r := Run(ps, op, zero, took, fuel);
      r.Some? ==> r.value.exec.attempts == r.value.exec.executions >= 1
    ensures Bounded(ps, fuel) ==> Run(ps, op, zero, took, fuel).Some?
  {
    GetCounts(ps, Lift(op, zero), took, fuel);
  }

  /** An executor with one retry policy runs that policy's loop on the operation. */
  lemma RetryAlone<R(!new)>(c: RetryPolicy.Config<R>, op: Operation<R>, took: Clock, fuel: nat)
    ensures Get([Retry(c)], op, took, fuel) ==
      match RetryPolicy.Loop(c, User(op, took), Start(), 0, fuel)
      case None => None
      case Some(r) => Some(Step(r.outcome, r.exec))
  {
    ComposeOne(Retry(c), User(op, took), fuel);
  }

  /** An executor built from one retry policy ends the way its loop does,
      with the loop's attempts being the execution's own: the outcome the
      execution records last surfaces unchanged when it is not retryable,
      and otherwise a budget is spent on the execution's attempt count or
      elapsed time and the result is kept with a RetriesExceededError
      wrapping the last error. */
  lemma SingleRetry<R(!new)>(c: RetryPolicy.Config<R>, op: Operation<R>, took: Clock, fuel: nat)
    ensures var g := Get([Retry(c)], op, took, fuel);
      g.Some? ==>
        && g.value.exec.attempts == g.value.exec.executions >= 1
        && g.value.exec.last.Some?
        && var raw := g.value.exec.last.value;
           if RetryPolicy.Retryable(c, raw) then
             && (RetryPolicy.LimitReached(c, g.value.exec.attempts) || RetryPolicy.DurationReached(c, g.value.exec.elapsed))
             && g.value.outcome == Outcome(raw.result, Some(RetriesExceeded(raw.error)))
           else
             g.value.outcome == raw
  {
    RetryAlone(c, op, took, fuel);
    RetryPolicy.LoopEnds(c, User(op, took), Start(), 0, fuel);
    RetryPolicy.UserLoopCounts(c, op, took, Start(), 0, fuel);
  }

  /** An executor with one fallback policy applies it to the single attempt's step. */
  lemma FallbackAlone<R(!new)>(c: FallbackPolicy.Config<R>, op: Operation<R>, took: Clock, fuel: nat)
    ensures Get([Fallback(c)], op, took, fuel) == Some(FallbackPolicy.Apply(c, Attempt(op, took, Start())))
  {
    ComposeOne(Fallback(c), User(op, took), fuel);
    assert User(op, took)(Start()) == Some(Attempt(op, took, Start()));
  }

  /** Fallback registered before retry wraps it: it sees only the loop's
      terminal outcome, so an operation that always fails is still tried
      maxRetries + 1 times and the configured result replaces the
      RetriesExceededError. */
  lemma {:induction false} FallbackAfterRetries<R(!new)>(
    rc: RetryPolicy.Config<R>, v: R, op: Operation<R>, f: nat -> Outcome<R>, took: Clock, fuel: nat)
    requires PerAttempt(op, f)
    requires rc.maxRetries >= 0 && rc.maxDuration == 0 && fuel > rc.maxRetries
    requires forall j :: 0 < j <= rc.maxRetries + 1 ==> RetryPolicy.Retryable(rc, f(j))
    ensures var r := Get([Fallback(FallbackPolicy.OfResult(v)), Retry(rc)], op, took, fuel);
      && r.Some? && r.value.outcome == Outcome(v, None)
      && r.value.exec.attempts == rc.maxRetries + 1 && r.value.exec.executions == rc.maxRetries + 1
  {
    var fb := FallbackPolicy.OfResult(v);
    ComposeOne(Retry(rc), User(op, took), fuel);
    ComposeCons(Fallback(fb), [Retry(rc)], User(op, took), fuel);
    assert [Fallback(fb)] + [Retry(rc)] == [Fallback(fb), Retry(rc)];
    RetryPolicy.ExhaustsAttemptBudget(rc, op, f, took, Start(), fuel);
    var run := RetryPolicy.Loop(rc, User(op, took), Start(), 0, fuel).value;
    var inner := RetryPolicy.Decorate(rc, User(op, took), fuel);
    assert inner(Start()) == Some(Step(run.outcome, run.exec));
    assert Handles(fb.handle, run.outcome);
  }

  /** Retry registered before fallback wraps it: the fallback turns the first
      failure into a success, so under the retry's default classifier (any
      non-nil error) the retry policy never retries. */
  lemma FallbackInsideRetry<R(!new)>(
    rc: RetryPolicy.Config<R>, v: R, op: Operation<R>, took: Clock, fuel: nat)
    requires rc.handle == [] && fuel >= 1
    ensures var r := Get([Retry(rc), Fallback(FallbackPolicy.OfResult(v))], op, took, fuel);
      && r.Some?
      && r.value.exec.attempts == 1 && r.value.exec.executions == 1
      && r.value.outcome == (if op(Start().(attempts := 1)).error.Some?
                             then Outcome(v, None) else op(Start().(attempts := 1)))
  {
    var fb := FallbackPolicy.OfResult(v);
    ComposeOne(Fallback(fb), User(op, took), fuel);
    ComposeCons(Retry(rc), [Fallback(fb)], User(op, took), fuel);
    assert [Retry(rc)] + [Fallback(fb)] == [Retry(rc), Fallback(fb)];
    var inner := FallbackPolicy.Decorate(fb, User(op, took));
    var s := FallbackPolicy.Apply(fb, Attempt(op, took, Start()));
    assert User(op, took)(Start()) == Some(Attempt(op, took, Start()));
    assert inner(Start()) == Some(s);
    assert s.outcome.error.None?;
    assert !RetryPolicy.Retryable(rc, s.outcome);
    RetryPolicy.LoopCompletes(rc, inner, Start(), 0, fuel, s);
  }
}
