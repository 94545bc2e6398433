# Retry and fallback policies of failsafe-go, modelled in Dafny

failsafe-go wraps a user operation returning `(result, error)` with
resilience policies. This project models two of them, and the executor
that chains them, as pure functions:

- **Errors** (`errors.dfy`): error values with a wrap chain.
  `RetriesExceeded(lastError)` stands for `retrypolicy.RetriesExceededError`.
  `Composite(cause)` stands for a user error type that wraps a cause.
  `Is` and `AsRetriesExceeded` follow the chain the way `errors.Is` and
  `errors.As` do.
- **Context** (`context.dfy`): the execution context. It holds the
  attempts and executions counters, the elapsed time since the first
  attempt and the last outcome. `Attempt` is one invocation of the user's
  operation.
- **Classifier** (`classifier.dfy`): the outcome classifier, built by
  `HandleErrors` and `HandleResult`; the `When` matcher stands for a
  custom condition on the result and error. Matchers combine by OR. A
  policy with no matchers handles any non-nil error.
- **RetryPolicy** (`retry.dfy`): the retry state machine. After each
  attempt, `Decide` picks one of three moves:
  - complete: the outcome is not handled, or it matches an abort
    condition;
  - give up with a `RetriesExceededError`: `tries - 1 >= maxRetries`
    (with `-1` meaning no limit), or `elapsed >= maxDuration`. Here
    `tries` counts the attempts this policy's loop has made; see the
    policy-order note below for how it relates to the execution's
    attempt count;
  - retry after the configured delay.

  `Loop` runs the machine, and `Turn` is its evaluation of one attempt.
  The loop records every delay announced to `OnRetryScheduled`.
- **FallbackPolicy** (`fallback.dfy`): the fallback policy. A handled
  final outcome is replaced by one of three things: a constant result, a
  constant error, or the output of a function given the execution. The
  replacement is returned as it is. The execution is left untouched.
- **Executor** (`executor.dfy`): the policy chain and the `Get` / `Run`
  entry points. The first policy given is the outermost layer.
- **Scenarios** (`scenarios.dfy`): lemmas restating what the tests in
  `test/retrypolicy_test.go` and `test/fallback_test.go` assert, mostly
  one per test (`RetryOnFailure` covers both `TestShouldRetryOnFailure`
  and `TestShouldReturnRetriesExceededError`). Each holds for every
  attempt timing the test does not fix, and for every bound on attempts
  large enough. `AbortReturnsRawError` corresponds to no test, and
  `NestedRetriesCountPerLayer` shows a consequence of the per-layer count
  of tries listed under "## Left out".

Real time is abstract. A `Clock` gives the duration of the k-th attempt.
The elapsed time also includes every scheduled delay, because the loop
waits that long. An unlimited retry loop need not end, so `Loop` takes a
bound `fuel` on its attempts and returns `None` when that bound runs out.
`MoreFuelSameRun` proves the bound never changes how a finished loop ends.

Four choices shape the model:
- Policy order. Policies given to `failsafe.With` nest with the first one
  outermost: `With(fallback, retryPolicy)` falls back only after the
  retries are exhausted. `Executor.FallbackAfterRetries` and
  `Executor.FallbackInsideRetry` show that the order matters. Each retry
  layer counts its own tries from zero every time the layer is run. With a
  single retry policy these tries are exactly the execution's attempts, and
  `Executor.SingleRetry` proves the give-up rule on the execution's own
  attempt count. When one retry policy is nested inside another, the
  inner one starts counting again on every outer retry (see "## Left out").
- Time budget. It is checked as `elapsed >= maxDuration`. The test (a
  120-unit attempt against a budget of 100) cannot tell it apart from `>`.
- Counters. `attempts` is raised before the operation runs, so the
  operation sees its own attempt number; `executions` is raised once the
  operation has returned, so it counts completed invocations.
- Result on exhaustion. When the retry policy gives up, the surfaced
  outcome keeps the last attempt's result and replaces its error by a
  `RetriesExceededError` wrapping it. No test fixes that result: every
  test that exhausts its retries returns `false`, which is also the zero
  value of `bool` (see the "RetryPolicy.LoopEnds:" line under
  "## Left out").

## Model

| member | source | states |
|---|---|---|
| Errors.Chain | test/fallback_test.go:37-39 | The wrap chain starts at the error itself. Each next element is what the previous one unwraps to. The last element wraps nothing. |
| Errors.IsMeansOnChain | test/retrypolicy_test.go:22-26 | `Errors.Is`, the model of `errors.Is`: an error "is" a target exactly when the target is on its wrap chain. So a RetriesExceededError wrapping ErrConnecting still matches ErrConnecting. |
| Errors.IsTransitive | test/fallback_test.go:36-48 | Wrapping keeps causes visible. If `a` wraps `b` and `b` wraps `c`, then `a` matches `c`. |
| Errors.AsRetriesExceeded | test/retrypolicy_test.go:34-38 | Returns the first RetriesExceededError on the wrap chain (no earlier chain element is one), or nothing when the chain holds none. |
| Context.Attempt | test/retrypolicy_test.go:64-67 | The outcome is the operation's on the context with the attempt counter already raised. One invocation adds one attempt and one execution. Its outcome becomes the last one, so LastError is that attempt's error. Its duration is added to the elapsed time. |
| Context.AttemptSeesItsNumber | test/retrypolicy_test.go:65-68 | An operation that branches on `Attempts()` sees its own attempt number: 1 on the first call. |
| Context.UserCounts | test/fallback_test.go:16-20 | The bare operation always completes, and from any context it adds exactly one attempt and exactly one execution. |
| Classifier.AnyMatches | test/retrypolicy_test.go:57-60 | A list of matchers matches an outcome exactly when some matcher in it does. |
| Classifier.Handles | test/fallback_test.go:61-78 | With no matchers a policy handles exactly the outcomes with a non-nil error. With matchers, it handles exactly the outcomes some matcher matches. |
| Classifier.HandleErrors | test/fallback_test.go:62-64 | After HandleErrors(errs), an outcome is matched when the earlier matchers match it, or when its non-nil error has one of `errs` on its chain. |
| Classifier.HandleResult | test/retrypolicy_test.go:77-78 | After HandleResult(v), an outcome is matched when the earlier matchers match it or its result equals `v`. |
| Classifier.ErrorMatchersNarrowDefault | test/fallback_test.go:61-78 | A classifier built only from HandleErrors handles nothing the default would not: it never handles a nil error. A non-empty one handles an error exactly when one of its targets is on the error's chain. |
| Classifier.HandlesUnion | test/fallback_test.go:62-64 | For two non-empty matcher lists, the combined classifier handles exactly what either list handles. (Starting from the empty list does not widen: the empty list's default handles any error.) |
| RetryPolicy.WithDefaults | test/retrypolicy_test.go:19-26 | The default policy retries exactly the outcomes with a non-nil error. Its attempt budget is not spent after 2 attempts and is spent after 3. No elapsed time spends its time budget, and every delay is 0. |
| RetryPolicy.DelayFor | test/retrypolicy_test.go:93-99 | A fixed backoff waits exactly the configured delay. An exponential one never waits longer than its cap, and with a growth factor of at least one never less than the smaller of the base delay and the cap. |
| RetryPolicy.Decide | test/retrypolicy_test.go:55-88 | Completes exactly when the outcome is not retryable (unhandled or aborting). Gives up exactly when it is retryable and a budget is spent. Otherwise it retries, and the delay is the one for that attempt number. |
| RetryPolicy.Loop | test/retrypolicy_test.go:22-38 | A finished loop made at least one attempt and no more than its bound allows. How it ended is stated by `LoopEnds`, what it announced by `LoopSchedules`, and its counts by `UserLoopCounts`. |
| RetryPolicy.LoopEnds | test/retrypolicy_test.go:22-38 | A finished loop either gave up or did not. If it gave up, the last raw outcome was retryable, a budget was spent, and the surfaced error is RetriesExceeded wrapping the raw error, with the result kept. If not, the raw outcome was not retryable and surfaces unchanged. The kept result is a modelling choice no test fixes (see "## Left out"). |
| RetryPolicy.LoopSchedules | test/retrypolicy_test.go:94-104 | A finished loop announced one delay per retry, one fewer than its attempts, and the k-th announced delay is the delay for attempt k. |
| RetryPolicy.UserLoopCounts | test/retrypolicy_test.go:26 | Around the user's operation, every attempt of the loop adds one attempt and one execution to the context. The last outcome the context records is the loop's raw final outcome. |
| RetryPolicy.FixedDelayAnnounced | test/retrypolicy_test.go:94-99 | With a fixed delay, every OnRetryScheduled event carries exactly the configured delay. |
| RetryPolicy.StopsAtFirstNonRetryable | test/retrypolicy_test.go:42-70 | With no time budget: attempts before k are retryable, attempt k is not, and the attempt budget is not spent before k (including maxRetries = -1). Then the call makes exactly k attempts and k executions and returns attempt k's outcome unchanged. |
| RetryPolicy.ExhaustsAttemptBudget | test/retrypolicy_test.go:17-38 | With no time budget, when every attempt is retryable and maxRetries = n >= 0, the call makes exactly n+1 attempts and n+1 executions. It ends in RetriesExceeded wrapping attempt n+1's error, with attempt n+1's result kept. The kept result is a modelling choice no test fixes (see "## Left out"). |
| RetryPolicy.DurationStopsAfterAttempt | test/retrypolicy_test.go:74-88 | A first attempt that alone uses up maxDuration is the only attempt. Its retryable outcome surfaces as RetriesExceeded, and no delay is scheduled. |
| RetryPolicy.UnlimitedNeverGivesUp | test/retrypolicy_test.go:57-58 | With maxRetries = -1, no time budget and outcomes that stay retryable, the loop never completes within any bound on attempts. |
| RetryPolicy.MoreFuelSameRun | test/retrypolicy_test.go:57-58 | Once the loop completes within a bound on attempts, any larger bound gives the same run. |
| RetryPolicy.BoundedLoopCompletes | test/retrypolicy_test.go:19-26 | Around a layer that always completes, a loop with maxRetries >= 0 completes once the bound covers maxRetries+1 attempts. |
| RetryPolicy.LoopCounts | test/retrypolicy_test.go:26 | If the inner layer counts every attempt as an execution, so does the loop. The loop makes at least as many attempts as it has tries. |
| RetryPolicy.ElapsedCountsAttemptsAndDelays | test/retrypolicy_test.go:79-85 | The elapsed time that maxDuration is checked against is the sum of the attempts' durations plus every scheduled delay. |
| FallbackPolicy.Apply | test/fallback_test.go:13-57 | An unhandled outcome passes through unchanged. A handled one becomes `(v, nil)` for WithResult, becomes `(zero, e)` with the configured zero result and error for WithError, and is the function's output on the execution for WithFn. The execution is unchanged in every case. |
| FallbackPolicy.AddsNoAttempts | test/fallback_test.go:16-20 | The fallback layer completes exactly when its inner chain does. It leaves that chain's attempts and executions as they are. |
| FallbackPolicy.KeepsCounts | test/fallback_test.go:42-48 | Wrapping a chain in a fallback keeps it completing and keeps its attempts and executions in step. |
| FallbackPolicy.SubstituteDecidesVerdict | test/fallback_test.go:81-96 | Under the default classifier, a substituted error after a failure is still a failure. A substituted result after a failure is a success. A success passes through as a success. |
| FallbackPolicy.AroundOperation | test/fallback_test.go:35-48 | Around the bare operation: one attempt and one execution. The function substitute sees that attempt's error as LastError, and the output is its result verbatim when the outcome is handled. |
| Executor.LayerKeeps | test/retrypolicy_test.go:22-26 | Each policy layer (the retry loop or the fallback as run by the chain) keeps attempts and executions in step and runs at least one attempt. A bounded retry layer, or a fallback layer, keeps the chain completing. |
| Executor.ChainKeeps | test/fallback_test.go:16-20 | `Executor.Compose`: a whole chain around the operation keeps attempts equal to executions. It completes when every retry policy in it has a limit that the bound covers. |
| Executor.GetCounts | test/retrypolicy_test.go:26 | `Executor.Get`: a Get call reports attempts equal to executions, at least 1. With bounded retry policies it always completes. |
| Executor.RunCounts | test/retrypolicy_test.go:57-70 | `Executor.Run`: a Run call reports attempts equal to executions, at least 1. With bounded retry policies it always completes. |
| Executor.SingleRetry | test/retrypolicy_test.go:22-38 | With one retry policy, attempts equal executions, at least 1. If the last recorded outcome is not retryable it surfaces unchanged. Otherwise the attempt budget is spent on the execution's attempt count (or the time budget on its elapsed time), and the result is kept with RetriesExceeded wrapping the last error. The kept result is a modelling choice no test fixes (see "## Left out"). |
| Scenarios.FallbackOfResult | test/fallback_test.go:13-20 | WithResult(true) on `(false, ErrInvalidArgument)` gives `(true, nil)` with 1 attempt and 1 execution. |
| Scenarios.FallbackOfError | test/fallback_test.go:24-31 | WithError(ErrInvalidArgument) on a failing call gives exactly ErrInvalidArgument, with 1 attempt and 1 execution. |
| Scenarios.FallbackOfFn | test/fallback_test.go:35-48 | The function fallback's CompositeError wrapping ErrConnecting is the final error verbatim and still matches ErrConnecting. Counts are 1 and 1. |
| Scenarios.NoFallbackOnSuccess | test/fallback_test.go:52-57 | `(false, nil)` passes through WithResult(true) unchanged, with counts 1 and 1. |
| Scenarios.FallbackWithFailureConditions | test/fallback_test.go:61-78 | With HandleErrors(ErrInvalidState), ErrInvalidArgument passes through unchanged and ErrInvalidState becomes `(true, nil)`. Counts are 1 and 1. |
| Scenarios.VerifyFallbackResult | test/fallback_test.go:82-96 | A substituted ErrInvalidArgument is the final error and a failure. A substituted `true` is a success with nil error. Counts are 1 and 1. |
| Scenarios.RetryOnFailure | test/retrypolicy_test.go:17-38 | With the defaults, an operation always failing with ErrConnecting runs 3 attempts and 3 executions. The final error is RetriesExceeded(ErrConnecting): it matches ErrConnecting and is found by errors.As. |
| Scenarios.NoRetryOnSuccess | test/retrypolicy_test.go:42-51 | A first-attempt `(false, nil)` runs once and is returned unchanged. |
| Scenarios.NoRetryOnNonRetriableFailure | test/retrypolicy_test.go:55-70 | With unlimited retries of ErrConnecting, the third attempt's ErrTimeout ends the call unwrapped, after 3 attempts and 3 executions. |
| Scenarios.CompleteWhenMaxDurationExceeded | test/retrypolicy_test.go:74-88 | HandleResult(false) with a 100-unit budget and a 120-unit attempt: 1 attempt, 1 execution, and RetriesExceeded wrapping the attempt's error. |
| Scenarios.ScheduledRetryDelay | test/retrypolicy_test.go:92-105 | With a delay of 10 and the default 2 retries, the scheduled delays are exactly [10, 10]. |

These members state behaviour of the library that no test in `test/`
exercises:
- `RetryPolicy.DelayFor` (its contract) and `RetryPolicy.BackoffNonDecreasing`:
  exponential backoff never exceeds its cap, and with a growth factor of
  at least one it never shrinks from one retry to the next.
- `FallbackPolicy.ConstantIdempotent`: falling back twice with a constant
  substitute equals falling back once.
- `Executor.FallbackAfterRetries`: a fallback outside a retry sees only
  the terminal RetriesExceededError, after maxRetries+1 attempts.
- `Executor.FallbackInsideRetry`: a fallback inside a retry turns the
  first failure into a success. Under the retry's default classifier
  (any non-nil error) nothing is then retried.
- `Scenarios.AbortReturnsRawError`: a matching abort condition ends the
  call after one attempt with the raw error.

## Left out

- Jitter (factor or range): it is random, and no test exercises it.
- Exponential backoff with float factors. Backoff is modelled with a
  natural-number factor only.
- Real wall-clock time and sleeping. Attempt durations come from an
  abstract `Clock`, and a delay is added to the elapsed time instead of
  being waited.
- Cancellation, context propagation and asynchronous execution: these are
  concurrency concerns of the runtime.
- The OnRetry, OnRetriesExceeded, OnAbort, OnSuccess and OnFailure
  listeners. Only their observable trace is kept: the list of delays
  passed to OnRetryScheduled, and the `exceeded` flag that marks when
  OnRetriesExceeded would fire.
- The statistics wrappers and assertion helpers of the test utilities.
- RetryPolicy.Decorate: a retry policy nested inside another retry
  policy starts its count of tries from zero every time the outer one
  runs it again, rather than reading the execution's attempt count. For
  example, two nested retry policies with `maxRetries = 1` around an
  always-failing operation make 4 attempts, and the error is
  RetriesExceeded wrapping RetriesExceeded
  (`Scenarios.NestedRetriesCountPerLayer` proves this consequence of the
  per-layer count). No test nests retry policies,
  and with a single retry policy the two counts agree (`Executor.SingleRetry`).
- RetryPolicy.LoopEnds: on exhaustion the surfaced result is the last
  attempt's result, not a zero value. The tests cannot tell the two
  apart, so the model does not promise which one the library returns;
  `ExhaustsAttemptBudget`, `DurationStopsAfterAttempt` and
  `Executor.SingleRetry` state the same choice.
- Go's zero values. A constant-error fallback and the Run form take the
  zero result explicitly.
- HandleErrorTypes (matching by `errors.As` on a type). Custom predicates
  are available through `When`.
- RetryPolicy.Loop: an unlimited loop that never completes is reported as
  `None` once its bound on attempts runs out. The model says nothing about
  it beyond that bound.
- Circuit breaker, timeout, bulkhead, rate limiter and hedging policies:
  they are other policies of the library.
