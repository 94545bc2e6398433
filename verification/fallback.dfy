/** The fallback policy: run the inner chain once and, when its final
    outcome is a handled failure, replace that outcome with a configured
    result, a configured error, or the output of a function of the
    execution. The replacement is returned as it is. */
module FallbackPolicy {
  import opened Optional
  import opened Errors
  import opened Context
  import opened Classifier

  /** What a handled failure is replaced with. `WithError` carries the zero
      value of the result type, which Go supplies implicitly. */
  datatype Substitute<!R> =
    | WithResult(value: R)
    | WithError(zero: R, err: Error)
    | WithFn(fn: Execution<R> -> Outcome<R>)

  /** A built fallback policy; with no matchers it handles any non-nil error. */
  datatype Config<!R> = Config(substitute: Substitute<R>, handle: seq<Matcher<R>>)

  /** fallback.WithResult, WithError and WithFn: handle any error. */
  function OfResult<R>(v: R): Config<R> { Config(WithResult(v), []) }
  function OfError<R>(zero: R, e: Error): Config<R> { Config(WithError(zero, e), []) }
  function OfFn<R>(fn: Execution<R> -> Outcome<R>): Config<R> { Config(WithFn(fn), []) }

  /** The outcome a handled failure is replaced with; a function substitute
      is given the execution as the failed attempt left it. */
  function Replacement<R>(sub: Substitute<R>, exec: Execution<R>): Outcome<R>
  {
    match sub
    case WithResult(v) => Outcome(v, None)
    case WithError(z, e) => Outcome(z, Some(e))
    case WithFn(fn) => fn(exec)
  }

  /** The fallback step on the inner chain's final step: an unhandled
      outcome passes through, a handled one is replaced, and the execution
      (attempts, executions, last outcome) is left as the inner chain left it. */
  function Apply<R(==)>(c: Config<R>, s: Step<R>): (r: Step<R>)
    ensures r.exec == s.exec
    ensures !Handles(c.handle, s.outcome) ==> r.outcome == s.outcome
    ensures Handles(c.handle, s.outcome) && c.substitute.WithResult? ==> r.outcome == Outcome(c.substitute.value, None)
    ensures Handles(c.handle, s.outcome) && c.substitute.WithError? ==> r.outcome == Outcome(c.substitute.zero, Some(c.substitute.err))
    ensures Handles(c.handle, s.outcome) && c.substitute.WithFn? ==> r.outcome == c.substitute.fn(s.exec)
  {
    if Handles(c.handle, s.outcome) then Step(Replacement(c.substitute, s.exec), s.exec) else s
  }

  /** The policy as a layer of the chain around `inner`. */
  function Decorate<R(==)>(c: Config<R>, inner: Executable<R>): Executable<R>
  {
    e => match inner(e)
         case None => None
         case Some(s) => Some(Apply(c, s))
  }

  /** The policy's own verdict on the outcome it returns: a success when its
      classifier does not handle it. */
  predicate Succeeded<R(==)>(c: Config<R>, o: Outcome<R>)
  {
    !Handles(c.handle, o)
  }

  /** Fallback never runs the operation: the layer completes exactly when the
      inner chain does, with the same attempts and executions. */
  lemma AddsNoAttempts<R(!new)>(c: Config<R>, inner: Executable<R>, e: Execution<R>)
    ensures Decorate(c, inner)(e).Some? <==> inner(e).Some?
    ensures inner(e).Some? ==> Decorate(c, inner)(e).value.exec == inner(e).value.exec
  {
  }

  /** The layer keeps the completion and counting properties of its inner chain. */
  lemma KeepsCounts<R(!new)>(c: Config<R>, inner: Executable<R>)
    ensures Total(inner) ==> Total(Decorate(c, inner))
    ensures Counts(inner) ==> Counts(Decorate(c, inner))
  {
    forall e ensures Decorate(c, inner)(e).Some? <==> inner(e).Some?
      ensures inner(e).Some? ==> Decorate(c, inner)(e).value.exec == inner(e).value.exec
    {
      AddsNoAttempts(c, inner, e);
    }
  }

  /** A substitute that does not look at the execution makes the policy
      idempotent: falling back a second time changes nothing. */
  lemma ConstantIdempotent<R>(c: Config<R>, s: Step<R>)
    requires !c.substitute.WithFn?
    ensures Apply(c, Apply(c, s)) == Apply(c, s)
  {
  }

  /** The substituted outcome decides the verdict. Under the default
      classifier a constant result is a success and a constant error is a
      failure, whatever the inner outcome was. */
  lemma SubstituteDecidesVerdict<R>(c: Config<R>, s: Step<R>)
    requires c.handle == []
    ensures s.outcome.error.Some? && c.substitute.WithResult? ==> Succeeded(c, Apply(c, s).outcome)
    ensures s.outcome.error.Some? && c.substitute.WithError? ==> !Succeeded(c, Apply(c, s).outcome)
    ensures s.outcome.error.None? ==> Apply(c, s) == s && Succeeded(c, Apply(c, s).outcome)
  {
  }

  /** Around the user's operation alone: one attempt, one execution, and the
      function substitute sees that attempt's error as LastError. */
  lemma AroundOperation<R(!new)>(c: Config<R>, op: Operation<R>, took: Clock)
    ensures var r := Decorate(c, User(op, took))(Start());
      && r.Some?
      && r.value.exec.attempts == 1 && r.value.exec.executions == 1
      && r.value.exec.LastError() == op(Start().(attempts := 1)).error
      && var inner := op(Start().(attempts := 1));
         r.value.outcome == (if Handles(c.handle, inner) then Replacement(c.substitute, r.value.exec) else inner)
  {
    var s := Attempt(op, took, Start());
    assert User(op, took)(Start()) == Some(s);
  }
}
