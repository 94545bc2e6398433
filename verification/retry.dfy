/** The retry policy: run an attempt, classify its outcome, and either stop
    (success, unhandled failure or abort), give up with a
    RetriesExceededError (attempt or time budget spent), or schedule the
    next attempt after a delay. */
module RetryPolicy {
  import opened Optional
  import opened Errors
  import opened Context
  import opened Classifier

  /** How the delay before the next attempt grows. */
  datatype Backoff =
    | Fixed                                // every retry waits `delay`
    | Exponential(factor: nat, maxDelay: nat)  // delay * factor^(tries-1), capped at maxDelay

  /** A built retry policy. `maxRetries` of -1 means no limit on the number
      of attempts; a `maxDuration` of 0 means no time budget. */
  datatype Config<!R> = Config(
    handle: seq<Matcher<R>>,
    abortOn: seq<Matcher<R>>,
    maxRetries: int,
    maxDuration: nat,
    delay: nat,
    backoff: Backoff)

  const DefaultMaxRetries := 2

  /** retrypolicy.WithDefaults: up to two retries of any error, no delay. */
  function WithDefaults<R(==,!new)>(): (c: Config<R>)
    ensures forall o :: Retryable(c, o) <==> o.error.Some?
    ensures !LimitReached(c, DefaultMaxRetries) && LimitReached(c, DefaultMaxRetries + 1)
    ensures forall elapsed :: !DurationReached(c, elapsed)
    ensures forall tries :: tries >= 1 ==> DelayFor(c, tries) == 0
  {
    Config([], [], DefaultMaxRetries, 0, 0, Fixed)
  }

  /** A handled outcome that no abort condition matches: the only kind that can be retried. */
  predicate Retryable<R(==)>(c: Config<R>, o: Outcome<R>)
  {
    Handles(c.handle, o) && !AnyMatches(c.abortOn, o)
  }

  /** The operation's outcome on attempt `j`, seen through `f`, is retryable. */
  ghost predicate RetryableAt<R>(c: Config<R>, f: nat -> Outcome<R>, j: nat)
  {
    Retryable(c, f(j))
  }

  /** After `tries` attempts, the attempt budget is spent. */
  predicate LimitReached<R>(c: Config<R>, tries: nat)
  {
    c.maxRetries >= 0 && tries - 1 >= c.maxRetries
  }

  /** After `elapsed` time since the first attempt, the time budget is spent. */
  predicate DurationReached<R>(c: Config<R>, elapsed: nat)
  {
    c.maxDuration > 0 && elapsed >= c.maxDuration
  }

  function Pow(b: nat, k: nat): nat
  {
    if k == 0 then 1 else b * Pow(b, k - 1)
  }

  function Min(a: nat, b: nat): nat
  {
    if a <= b then a else b
  }

  /** The delay scheduled after the `tries`-th attempt fails. */
  function DelayFor<R>(c: Config<R>, tries: nat): (d: nat)
    requires tries >= 1
    ensures c.backoff.Fixed? ==> d == c.delay
    ensures c.backoff.Exponential? ==> d <= c.backoff.maxDelay
    ensures c.backoff.Exponential? && c.backoff.factor >= 1 ==> d >= Min(c.delay, c.backoff.maxDelay)
  {
    match c.backoff
    case Fixed => c.delay
    case Exponential(f, m) =>
      GrowthKeepsBase(c.delay, f, tries - 1);
      Min(c.delay * Pow(f, tries - 1), m)
  }

  /** A growth factor of at least one never scales the base delay down. */
  lemma {:induction false} GrowthKeepsBase(a: nat, b: nat, k: nat)
    ensures b >= 1 ==> a * Pow(b, k) >= a
    decreases k
  {
    if k > 0 && b >= 1 {
      GrowthKeepsBase(1, b, k - 1);
      MulMonotone(b, 1, Pow(b, k - 1));
      MulMonotone(a, 1, Pow(b, k));
    }
  }

  lemma {:induction false} PowGrows(b: nat, k: nat)
    requires b >= 1
    ensures Pow(b, k) <= Pow(b, k + 1)
  {
    assert Pow(b, k + 1) == b * Pow(b, k);
  }

  /** With a growth factor of at least one, delays never shrink from one retry to the next. */
  lemma BackoffNonDecreasing<R>(c: Config<R>, tries: nat)
    requires tries >= 1 && c.backoff.Exponential? && c.backoff.factor >= 1
    ensures DelayFor(c, tries) <= DelayFor(c, tries + 1)
  {
    PowGrows(c.backoff.factor, tries - 1);
    assert c.delay * Pow(c.backoff.factor, tries - 1) <= c.delay * Pow(c.backoff.factor, tries) by {
      MulMonotone(c.delay, Pow(c.backoff.factor, tries - 1), Pow(c.backoff.factor, tries));
    }
  }

  lemma MulMonotone(a: nat, x: nat, y: nat)
    requires x <= y
    ensures a * x <= a * y
  {
  }

  /** What the policy does with the outcome of its `tries`-th attempt. */
  datatype Decision = Complete | Exceeded | RetryAfter(delay: nat)

  /** The evaluation step: an outcome that is not handled, or that matches an
      abort condition, completes the call as it is; a retryable outcome gives
      up once either budget is spent and is otherwise retried after the
      delay for this attempt. */
  function Decide<R(==)>(c: Config<R>, tries: nat, elapsed: nat, o: Outcome<R>): (d: Decision)
    requires tries >= 1
    ensures d.Complete? <==> !Retryable(c, o)
    ensures d.Exceeded? <==> Retryable(c, o) && (LimitReached(c, tries) || DurationReached(c, elapsed))
    ensures d.RetryAfter? ==> d.delay == DelayFor(c, tries)
  {
    if !Handles(c.handle, o) then Complete
    else if AnyMatches(c.abortOn, o) then Complete
    else if LimitReached(c, tries) then Exceeded
    else if DurationReached(c, elapsed) then Exceeded
    else RetryAfter(DelayFor(c, tries))
  }

  /** The end of a retry loop: the surfaced outcome, the raw outcome of the
      last attempt, the context after it, how many attempts this loop ran,
      the delays announced to OnRetryScheduled, and whether the loop gave up
      (the case in which OnRetriesExceeded fires). */
  datatype Run<R> = Run(outcome: Outcome<R>, raw: Outcome<R>, exec: Execution<R>,
                        tries: nat, scheduled: seq<nat>, exceeded: bool)

  /** The retry loop, after `tries` attempts of its own, runs at most `fuel`
      more; `None` when that bound is reached first. */
  function Loop<R(==)>(c: Config<R>, inner: Executable<R>, exec: Execution<R>, tries: nat, fuel: nat): (r: Option<Run<R>>)
    ensures r.Some? ==> tries < r.value.tries <= tries + fuel
    decreases fuel, 1
  {
    if fuel == 0 then None else Turn(c, inner, tries, fuel - 1, inner(exec))
  }

  /** The evaluation of attempt `tries + 1`, whose step is `attempt`, with
      `fuel` attempts left after it. */
  function Turn<R(==)>(c: Config<R>, inner: Executable<R>, tries: nat, fuel: nat, attempt: Option<Step<R>>): (r: Option<Run<R>>)
    ensures r.Some? ==> tries < r.value.tries <= tries + 1 + fuel
    decreases fuel, 2
  {
    match attempt
    case None => None
    case Some(s) =>
      var t := tries + 1;
      match Decide(c, t, s.exec.elapsed, s.outcome)
      case Complete => Some(Run(s.outcome, s.outcome, s.exec, t, [], false))
      case Exceeded =>
        // The result of the last attempt is kept; only the error is replaced.
        Some(Run(Outcome(s.outcome.result, Some(RetriesExceeded(s.outcome.error))), s.outcome, s.exec, t, [], true))
      case RetryAfter(d) =>
        Then(d, Loop(c, inner, s.exec.(elapsed := s.exec.elapsed + d), t, fuel))
  }

  /** The rest of a loop, preceded by the retry scheduled with delay `d`. */
  function Then<R>(d: nat, rest: Option<Run<R>>): Option<Run<R>>
  {
    match rest
    case None => None
    case Some(r) => Some(r.(scheduled := [d] + r.scheduled))
  }

  /** One turn of the loop whose attempt completes the call. */
  lemma LoopCompletes<R(!new)>(c: Config<R>, inner: Executable<R>, exec: Execution<R>, tries: nat, fuel: nat, s: Step<R>)
    requires fuel > 0 && inner(exec) == Some(s)
    requires !Retryable(c, s.outcome)
    ensures Loop(c, inner, exec, tries, fuel) == Some(Run(s.outcome, s.outcome, s.exec, tries + 1, [], false))
  {
  }

  /** One turn of the loop whose attempt spends a budget. */
  lemma LoopGivesUp<R(!new)>(c: Config<R>, inner: Executable<R>, exec: Execution<R>, tries: nat, fuel: nat, s: Step<R>)
    requires fuel > 0 && inner(exec) == Some(s)
    requires Retryable(c, s.outcome) && (LimitReached(c, tries + 1) || DurationReached(c, s.exec.elapsed))
    ensures Loop(c, inner, exec, tries, fuel) ==
      Some(Run(Outcome(s.outcome.result, Some(RetriesExceeded(s.outcome.error))), s.outcome, s.exec, tries + 1, [], true))
  {
  }

  /** One turn of the loop whose attempt is retried. */
  lemma LoopRetries<R(!new)>(c: Config<R>, inner: Executable<R>, exec: Execution<R>, tries: nat, fuel: nat, s: Step<R>)
    requires fuel > 0 && inner(exec) == Some(s)
    requires Retryable(c, s.outcome) && !LimitReached(c, tries + 1) && !DurationReached(c, s.exec.elapsed)
    ensures Loop(c, inner, exec, tries, fuel) ==
      Then(DelayFor(c, tries + 1),
           Loop(c, inner, s.exec.(elapsed := s.exec.elapsed + DelayFor(c, tries + 1)), tries + 1, fuel - 1))
  {
  }

  /** The user's operation as the loop's inner layer. */
  lemma UserStep<R(!new)>(op: Operation<R>, f: nat -> Outcome<R>, took: Clock, exec: Execution<R>)
    requires PerAttempt(op, f)
    ensures User(op, took)(exec) == Some(Attempt(op, took, exec))
    ensures Attempt(op, took, exec).outcome == f(exec.attempts + 1)
  {
    AttemptSeesItsNumber(op, f, took, exec);
  }

  /** One delay is scheduled per retry, the one for that attempt's number. */
  lemma {:induction false} LoopSchedules<R(!new)>(c: Config<R>, inner: Executable<R>, exec: Execution<R>, tries: nat, fuel: nat)
    ensures var r := Loop(c, inner, exec, tries, fuel);
      r.Some? ==>
        && |r.value.scheduled| == r.value.tries - tries - 1
        && forall i :: 0 <= i < |r.value.scheduled| ==> r.value.scheduled[i] == DelayFor(c, tries + 1 + i)
    decreases fuel
  {
    if fuel > 0 && inner(exec).Some? {
      var s := inner(exec).value;
      var t := tries + 1;
      if Retryable(c, s.outcome) && !LimitReached(c, t) && !DurationReached(c, s.exec.elapsed) {
        var d := DelayFor(c, t);
        var next := s.exec.(elapsed := s.exec.elapsed + d);
        LoopRetries(c, inner, exec, tries, fuel, s);
        LoopSchedules(c, inner, next, t, fuel - 1);
        var rest := Loop(c, inner, next, t, fuel - 1);
        if rest.Some? {
          var sched := [d] + rest.value.scheduled;
          forall i | 0 <= i < |sched| ensures sched[i] == DelayFor(c, tries + 1 + i) {
            if i > 0 { assert sched[i] == rest.value.scheduled[i - 1]; }
          }
        }
      } else if Retryable(c, s.outcome) {
        LoopGivesUp(c, inner, exec, tries, fuel, s);
      } else {
        LoopCompletes(c, inner, exec, tries, fuel, s);
      }
    }
  }

  /** How a finished loop ended. Either it gave up: the last raw outcome was
      retryable, a budget was spent, and the surfaced outcome keeps the
      result but replaces the error by a RetriesExceededError wrapping the
      raw one. Or it did not: the raw outcome was not retryable and surfaces
      unchanged. */
  lemma {:induction false} LoopEnds<R(!new)>(c: Config<R>, inner: Executable<R>, exec: Execution<R>, tries: nat, fuel: nat)
    ensures var r := Loop(c, inner, exec, tries, fuel);
      && (r.Some? && r.value.exceeded ==>
            Retryable(c, r.value.raw) &&
            (LimitReached(c, r.value.tries) || DurationReached(c, r.value.exec.elapsed)) &&
            r.value.outcome == Outcome(r.value.raw.result, Some(RetriesExceeded(r.value.raw.error))))
      && (r.Some? && !r.value.exceeded ==> !Retryable(c, r.value.raw) && r.value.outcome == r.value.raw)
    decreases fuel
  {
    if fuel > 0 && inner(exec).Some? {
      var s := inner(exec).value;
      var t := tries + 1;
      if Retryable(c, s.outcome) && !LimitReached(c, t) && !DurationReached(c, s.exec.elapsed) {
        var next := s.exec.(elapsed := s.exec.elapsed + DelayFor(c, t));
        LoopRetries(c, inner, exec, tries, fuel, s);
        LoopEnds(c, inner, next, t, fuel - 1);
      } else if Retryable(c, s.outcome) {
        LoopGivesUp(c, inner, exec, tries, fuel, s);
      } else {
        LoopCompletes(c, inner, exec, tries, fuel, s);
      }
    }
  }

  /** Around the user's operation, the loop's tries are its attempts and its executions. */
  lemma {:induction false} UserLoopCounts<R(!new)>(c: Config<R>, op: Operation<R>, took: Clock, exec: Execution<R>, tries: nat, fuel: nat)
    ensures var r := Loop(c, User(op, took), exec, tries, fuel);
      r.Some? ==>
        r.value.exec.attempts == exec.attempts + (r.value.tries - tries) &&
        r.value.exec.executions == exec.executions + (r.value.tries - tries) &&
        r.value.exec.last == Some(r.value.raw)
    decreases fuel
  {
    if fuel > 0 {
      var s := Attempt(op, took, exec);
      assert User(op, took)(exec) == Some(s);
      var t := tries + 1;
      if Retryable(c, s.outcome) && !LimitReached(c, t) && !DurationReached(c, s.exec.elapsed) {
        LoopRetries(c, User(op, took), exec, tries, fuel, s);
        UserLoopCounts(c, op, took, s.exec.(elapsed := s.exec.elapsed + DelayFor(c, t)), t, fuel - 1);
      } else if Retryable(c, s.outcome) {
        LoopGivesUp(c, User(op, took), exec, tries, fuel, s);
      } else {
        LoopCompletes(c, User(op, took), exec, tries, fuel, s);
      }
    }
  }

  /** The policy as a layer of the chain around `inner`. */
  function Decorate<R(==)>(c: Config<R>, inner: Executable<R>, fuel: nat): Executable<R>
  {
    e => match Loop(c, inner, e, 0, fuel)
         case None => None
         case Some(r) => Some(Step(r.outcome, r.exec))
  }

  /** With a fixed delay, every scheduled retry announces exactly the configured delay. */
  lemma FixedDelayAnnounced<R(!new)>(c: Config<R>, inner: Executable<R>, exec: Execution<R>, tries: nat, fuel: nat)
    requires c.backoff.Fixed?
    ensures var r := Loop(c, inner, exec, tries, fuel);
      r.Some? ==> forall i :: 0 <= i < |r.value.scheduled| ==> r.value.scheduled[i] == c.delay
  {
    LoopSchedules(c, inner, exec, tries, fuel);
  }

  /** The loop keeps retrying the user's operation while its outcomes are
      retryable and no budget is spent, and stops at the first attempt `k`
      whose outcome is not retryable, surfacing that outcome unchanged. */
  lemma {:induction false} StopsAtFirstNonRetryable<R(!new)>(
    c: Config<R>, op: Operation<R>, f: nat -> Outcome<R>, took: Clock, exec: Execution<R>, k: nat, fuel: nat)
    requires PerAttempt(op, f)
    requires exec.attempts < k && fuel >= k - exec.attempts
    requires forall j :: exec.attempts < j < k ==> RetryableAt(c, f, j)
    requires !Retryable(c, f(k))
    requires c.maxRetries < 0 || k - 1 <= c.maxRetries
    requires c.maxDuration == 0
    ensures var r := Loop(c, User(op, took), exec, exec.attempts, fuel);
      && r.Some? && !r.value.exceeded
      && r.value.outcome == f(k)
      && r.value.tries == k && r.value.exec.attempts == k
      && r.value.exec.executions == exec.executions + (k - exec.attempts)
      && r.value.exec.LastError() == f(k).error
    decreases k - exec.attempts
  {
    var s := Attempt(op, took, exec);
    UserStep(op, f, took, exec);
    var t := exec.attempts + 1;
    if t < k {
      assert RetryableAt(c, f, t);
      var next := s.exec.(elapsed := s.exec.elapsed + DelayFor(c, t));
      LoopRetries(c, User(op, took), exec, exec.attempts, fuel, s);
      StopsAtFirstNonRetryable(c, op, f, took, next, k, fuel - 1);
      var rest := Loop(c, User(op, took), next, t, fuel - 1).value;
      assert Loop(c, User(op, took), exec, exec.attempts, fuel) == Some(rest.(scheduled := [DelayFor(c, t)] + rest.scheduled));
    } else {
      LoopCompletes(c, User(op, took), exec, exec.attempts, fuel, s);
    }
  }

  /** When every attempt is retryable and only the attempt budget applies,
      the loop runs exactly maxRetries + 1 attempts and surfaces a
      RetriesExceededError wrapping the last attempt's error; the model keeps
      that attempt's result. */
  lemma {:induction false} ExhaustsAttemptBudget<R(!new)>(
    c: Config<R>, op: Operation<R>, f: nat -> Outcome<R>, took: Clock, exec: Execution<R>, fuel: nat)
    requires PerAttempt(op, f)
    requires c.maxRetries >= 0 && c.maxDuration == 0
    requires exec.attempts <= c.maxRetries && fuel > c.maxRetries - exec.attempts
    requires forall j :: exec.attempts < j <= c.maxRetries + 1 ==> RetryableAt(c, f, j)
    ensures var r := Loop(c, User(op, took), exec, exec.attempts, fuel);
      && r.Some? && r.value.exceeded
      && r.value.tries == c.maxRetries + 1 && r.value.exec.attempts == c.maxRetries + 1
      && r.value.exec.executions == exec.executions + (c.maxRetries + 1 - exec.attempts)
      && r.value.outcome == Outcome(f(c.maxRetries + 1).result, Some(RetriesExceeded(f(c.maxRetries + 1).error)))
    decreases c.maxRetries - exec.attempts
  {
    var s := Attempt(op, took, exec);
    UserStep(op, f, took, exec);
    var t := exec.attempts + 1;
    assert RetryableAt(c, f, t);
    if t <= c.maxRetries {
      var next := s.exec.(elapsed := s.exec.elapsed + DelayFor(c, t));
      LoopRetries(c, User(op, took), exec, exec.attempts, fuel, s);
      ExhaustsAttemptBudget(c, op, f, took, next, fuel - 1);
      var rest := Loop(c, User(op, took), next, t, fuel - 1).value;
      assert Loop(c, User(op, took), exec, exec.attempts, fuel) == Some(rest.(scheduled := [DelayFor(c, t)] + rest.scheduled));
    } else {
      LoopGivesUp(c, User(op, took), exec, exec.attempts, fuel, s);
    }
  }

  /** An attempt that by itself uses up the time budget is the last one:
      its retryable outcome surfaces as a RetriesExceededError. */
  lemma DurationStopsAfterAttempt<R(!new)>(
    c: Config<R>, op: Operation<R>, f: nat -> Outcome<R>, took: Clock, fuel: nat)
    requires PerAttempt(op, f)
    requires c.maxDuration > 0 && took(1) >= c.maxDuration
    requires Retryable(c, f(1)) && fuel >= 1
    ensures var r := Loop(c, User(op, took), Start(), 0, fuel);
      && r.Some? && r.value.exceeded && r.value.tries == 1
      && r.value.exec.attempts == 1 && r.value.exec.executions == 1
      && r.value.scheduled == []
      && r.value.outcome == Outcome(f(1).result, Some(RetriesExceeded(f(1).error)))
  {
    var s := Attempt(op, took, Start());
    UserStep(op, f, took, Start());
    LoopGivesUp(c, User(op, took), Start(), 0, fuel, s);
  }

  /** With no attempt limit (-1) and no time budget, outcomes that stay
      retryable are retried for ever: no bound on the number of attempts is
      enough for the loop to complete. */
  lemma {:induction false} UnlimitedNeverGivesUp<R(!new)>(
    c: Config<R>, op: Operation<R>, f: nat -> Outcome<R>, took: Clock, exec: Execution<R>, tries: nat, fuel: nat)
    requires PerAttempt(op, f)
    requires c.maxRetries < 0 && c.maxDuration == 0
    requires forall j :: j > exec.attempts ==> RetryableAt(c, f, j)
    ensures Loop(c, User(op, took), exec, tries, fuel).None?
    decreases fuel
  {
    if fuel > 0 {
      var s := Attempt(op, took, exec);
      UserStep(op, f, took, exec);
      assert RetryableAt(c, f, exec.attempts + 1);
      LoopRetries(c, User(op, took), exec, tries, fuel, s);
      UnlimitedNeverGivesUp(c, op, f, took, s.exec.(elapsed := s.exec.elapsed + DelayFor(c, tries + 1)), tries + 1, fuel - 1);
    }
  }

  /** The bound on attempts only decides whether the loop is seen to finish,
      never how it finishes. */
  lemma {:induction false} MoreFuelSameRun<R(!new)>(
    c: Config<R>, inner: Executable<R>, exec: Execution<R>, tries: nat, fuel: nat, more: nat)
    requires Loop(c, inner, exec, tries, fuel).Some? && fuel <= more
    ensures Loop(c, inner, exec, tries, more) == Loop(c, inner, exec, tries, fuel)
    decreases fuel
  {
    var s := inner(exec).value;
    var t := tries + 1;
    match Decide(c, t, s.exec.elapsed, s.outcome)
    case Complete =>
    case Exceeded =>
    case RetryAfter(d) =>
      MoreFuelSameRun(c, inner, s.exec.(elapsed := s.exec.elapsed + d), t, fuel - 1, more - 1);
  }

  /** Around an inner layer that always completes, a loop with an attempt
      limit completes once the bound covers maxRetries + 1 attempts. */
  lemma {:induction false} BoundedLoopCompletes<R(!new)>(
    c: Config<R>, inner: Executable<R>, exec: Execution<R>, tries: nat, fuel: nat)
    requires Total(inner) && c.maxRetries >= 0
    requires fuel >= 1 && tries + fuel > c.maxRetries
    ensures Loop(c, inner, exec, tries, fuel).Some?
    decreases fuel
  {
    var s := inner(exec).value;
    var t := tries + 1;
    match Decide(c, t, s.exec.elapsed, s.outcome)
    case Complete =>
    case Exceeded =>
    case RetryAfter(d) =>
      assert !LimitReached(c, t);
      BoundedLoopCompletes(c, inner, s.exec.(elapsed := s.exec.elapsed + d), t, fuel - 1);
  }

  /** Around a layer that counts every attempt as an execution, so does the loop,
      and it runs at least as many attempts as it made tries. */
  lemma {:induction false} LoopCounts<R(!new)>(
    c: Config<R>, inner: Executable<R>, exec: Execution<R>, tries: nat, fuel: nat)
    requires Counts(inner)
    ensures var r := Loop(c, inner, exec, tries, fuel);
      r.Some? ==>
        r.value.exec.attempts - exec.attempts == r.value.exec.executions - exec.executions &&
        r.value.exec.attempts - exec.attempts >= r.value.tries - tries
    decreases fuel
  {
    if fuel > 0 && inner(exec).Some? {
      var s := inner(exec).value;
      var t := tries + 1;
      match Decide(c, t, s.exec.elapsed, s.outcome)
      case Complete =>
      case Exceeded =>
      case RetryAfter(d) =>
        LoopCounts(c, inner, s.exec.(elapsed := s.exec.elapsed + d), t, fuel - 1);
    }
  }

  /** Time spent in attempts `from + 1` to `to`. */
  function Spent(took: Clock, from: nat, to: nat): nat
    decreases to - from
  {
    if to <= from then 0 else took(from + 1) + Spent(took, from + 1, to)
  }

  function Sum(s: seq<nat>): nat
  {
    if |s| == 0 then 0 else s[0] + Sum(s[1..])
  }

  /** The time budget is measured from the first attempt and includes the
      waits between attempts: around the user's operation, the elapsed time
      at the end is the time of every attempt plus every scheduled delay. */
  lemma {:induction false} ElapsedCountsAttemptsAndDelays<R(!new)>(
    c: Config<R>, op: Operation<R>, took: Clock, exec: Execution<R>, tries: nat, fuel: nat)
    ensures var r := Loop(c, User(op, took), exec, tries, fuel);
      r.Some? ==>
        r.value.exec.elapsed == exec.elapsed + Spent(took, exec.attempts, r.value.exec.attempts) + Sum(r.value.scheduled)
    decreases fuel
  {
    if fuel > 0 {
      var s := Attempt(op, took, exec);
      assert User(op, took)(exec) == Some(s);
      var t := tries + 1;
      if Retryable(c, s.outcome) && !LimitReached(c, t) && !DurationReached(c, s.exec.elapsed) {
        var d := DelayFor(c, t);
        var next := s.exec.(elapsed := s.exec.elapsed + d);
        LoopRetries(c, User(op, took), exec, tries, fuel, s);
        ElapsedCountsAttemptsAndDelays(c, op, took, next, t, fuel - 1);
        UserLoopCounts(c, op, took, next, t, fuel - 1);
        var rest := Loop(c, User(op, took), next, t, fuel - 1);
        if rest.Some? {
          assert next.attempts == exec.attempts + 1 && next.elapsed == exec.elapsed + took(exec.attempts + 1) + d;
          ElapsedAfterRetry(took, exec.attempts, exec.elapsed, d, rest.value.exec.elapsed, rest.value.exec.attempts, rest.value.scheduled);
        }
      } else if Retryable(c, s.outcome) {
        LoopGivesUp(c, User(op, took), exec, tries, fuel, s);
        assert Spent(took, exec.attempts, exec.attempts + 1) == took(exec.attempts + 1);
      } else {
        LoopCompletes(c, User(op, took), exec, tries, fuel, s);
        assert Spent(took, exec.attempts, exec.attempts + 1) == took(exec.attempts + 1);
      }
    }
  }

  /** The time accounting of one retry: attempt a + 1, then a wait of `d`, then the rest. */
  lemma ElapsedAfterRetry(took: Clock, a: nat, start: nat, d: nat, end: nat, attempts: nat, rest: seq<nat>)
    requires attempts > a + 1
    requires end == start + took(a + 1) + d + Spent(took, a + 1, attempts) + Sum(rest)
    ensures end == start + Spent(took, a, attempts) + Sum([d] + rest)
  {
    assert ([d] + rest)[1..] == rest;
  }
}
