/** The execution context: the per-call record of attempts, elapsed time and
    the last outcome that every policy reads and extends, and the single
    invocation of the user's operation that advances it. */
module Context {
  import opened Optional
  import opened Errors

  /** What an operation returns: a result and an error, `None` standing for nil. */
  datatype Outcome<R> = Outcome(result: R, error: Option<Error>)

  /** One logical call's progress. `elapsed` is the time since the first
      attempt started, in abstract units; `last` is the outcome of the most
      recent attempt. */
  datatype Execution<R> = Execution(attempts: nat, executions: nat, elapsed: nat, last: Option<Outcome<R>>)
  {
    /** Execution.LastError(): the error of the most recent attempt, nil before the first. */
    function LastError(): Option<Error>
    {
      if last.Some? then last.value.error else None
    }
  }

  /** The context a call begins with. */
  function Start<R>(): Execution<R>
  {
    Execution(0, 0, 0, None)
  }

  /** What running a (possibly decorated) operation leaves behind. */
  datatype Step<R> = Step(outcome: Outcome<R>, exec: Execution<R>)

  /** The user's operation; it may inspect the context it is given. */
  type Operation<!R> = Execution<R> -> Outcome<R>

  /** How long the k-th attempt takes; real time is not modelled. */
  type Clock = nat -> nat

  /** A runnable layer of the policy chain; `None` means the model's bound on
      the number of attempts ran out before the call completed. */
  type Executable<!R> = Execution<R> -> Option<Step<R>>

  /** An operation whose outcome depends only on the attempt number. */
  ghost predicate PerAttempt<R(!new)>(op: Operation<R>, f: nat -> Outcome<R>)
  {
    forall e :: op(e) == f(e.attempts)
  }

  /** One invocation of the user's operation. The attempt counter is raised
      before the call, so the operation sees its own attempt number; the
      execution counter is raised once the call has returned, so it counts
      completed invocations only. The outcome is recorded as the last one. */
  function Attempt<R>(op: Operation<R>, took: Clock, exec: Execution<R>): (s: Step<R>)
    ensures s.outcome == op(exec.(attempts := exec.attempts + 1))
    ensures s.exec.attempts == exec.attempts + 1 && s.exec.executions == exec.executions + 1
    ensures s.exec.last == Some(s.outcome)
    ensures s.exec.elapsed == exec.elapsed + took(exec.attempts + 1)
    ensures s.exec.last.Some? && s.exec.LastError() == s.outcome.error
  {
    var started := exec.(attempts := exec.attempts + 1);
    var o := op(started);
    Step(o, started.(executions := exec.executions + 1, elapsed := started.elapsed + took(started.attempts), last := Some(o)))
  }

  /** An operation that depends only on the attempt number sees the attempt
      number after the increment. */
  lemma AttemptSeesItsNumber<R(!new)>(op: Operation<R>, f: nat -> Outcome<R>, took: Clock, exec: Execution<R>)
    requires PerAttempt(op, f)
    ensures Attempt(op, took, exec).outcome == f(exec.attempts + 1)
  {
    var started := exec.(attempts := exec.attempts + 1);
    assert op(started) == f(started.attempts);
  }

  /** The innermost layer of every chain: the user's operation, run once. */
  function User<R>(op: Operation<R>, took: Clock): Executable<R>
  {
    e => Some(Attempt(op, took, e))
  }

  /** A layer that completes on every context. */
  ghost predicate Total<R(!new)>(x: Executable<R>)
  {
    forall e :: x(e).Some?
  }

  /** A layer that runs at least one attempt and counts every attempt as an
      execution (no policy modelled here short-circuits an attempt). */
  ghost predicate Counts<R(!new)>(x: Executable<R>)
  {
    forall e :: x(e).Some? ==>
      x(e).value.exec.attempts > e.attempts &&
      x(e).value.exec.attempts - e.attempts == x(e).value.exec.executions - e.executions
  }

  /** The user's operation alone completes and counts one attempt as one execution. */
  lemma UserCounts<R(!new)>(op: Operation<R>, took: Clock)
    ensures Total(User(op, took)) && Counts(User(op, took))
    ensures forall e ::
              && User(op, took)(e).Some?
              && User(op, took)(e).value.exec.attempts == e.attempts + 1
              && User(op, took)(e).value.exec.executions == e.executions + 1
  {
    forall e: Execution<R> ensures User(op, took)(e) == Some(Attempt(op, took, e)) { }
  }
}
