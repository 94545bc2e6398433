/** Errors as the resilience library sees them: values compared by identity
    that may wrap a cause. `Is` follows the wrap chain the way Go's
    `errors.Is` follows `Unwrap`, and `AsRetriesExceeded` finds the first
    `RetriesExceededError` on it the way `errors.As` does. */
module Errors {
  import opened Optional

  datatype Error =
    | Sentinel(name: string)                     // a package-level error value such as ErrConnecting
    | New(id: nat, text: string)                 // a value made by errors.New; `id` stands for its identity
    | RetriesExceeded(lastError: Option<Error>)  // the retry policy's exhaustion error
    | Composite(cause: Option<Error>)            // a user error type that wraps a cause

  /** The error one step down the wrap chain, if there is one. */
  function Unwrap(e: Error): Option<Error>
  {
    match e
    case RetriesExceeded(c) => c
    case Composite(c) => c
    case _ => None
  }

  /** The wrap chain of `e`: `e` itself, then what it wraps, and so on. */
  function Chain(e: Error): (c: seq<Error>)
    ensures |c| >= 1 && c[0] == e
    ensures forall i :: 0 <= i < |c| - 1 ==> Unwrap(c[i]) == Some(c[i + 1])
    ensures Unwrap(c[|c| - 1]).None?
  {
    match e
    case RetriesExceeded(Some(x)) => [e] + Chain(x)
    case Composite(Some(x)) => [e] + Chain(x)
    case _ => [e]
  }

  /** errors.Is: `target` is `e` or is reachable from `e` by unwrapping. */
  predicate Is(e: Error, target: Error)
  {
    e == target ||
    match e
    case RetriesExceeded(Some(x)) => Is(x, target)
    case Composite(Some(x)) => Is(x, target)
    case _ => false
  }

  /** `Is` is exactly membership in the wrap chain. */
  lemma {:induction false} IsMeansOnChain(e: Error, target: Error)
    ensures Is(e, target) <==> target in Chain(e)
  {
    match e
    case RetriesExceeded(Some(x)) => IsMeansOnChain(x, target);
    case Composite(Some(x)) => IsMeansOnChain(x, target);
    case _ =>
  }

  /** Wrapping never hides a cause: whatever a wrapped error is, its wrapper is too. */
  lemma {:induction false} IsTransitive(a: Error, b: Error, c: Error)
    requires Is(a, b) && Is(b, c)
    ensures Is(a, c)
  {
    if a != b {
      match a
      case RetriesExceeded(Some(x)) => IsTransitive(x, b, c);
      case Composite(Some(x)) => IsTransitive(x, b, c);
    }
  }

  /** errors.As for `*RetriesExceededError`: the first exhaustion error on the chain. */
  function AsRetriesExceeded(e: Error): (r: Option<Error>)
    ensures r.Some? ==> r.value.RetriesExceeded? && r.value in Chain(e)
    ensures r.Some? ==> exists i :: 0 <= i < |Chain(e)| && Chain(e)[i] == r.value &&
                          forall j :: 0 <= j < i ==> !Chain(e)[j].RetriesExceeded?
    ensures r.None? ==> forall x :: x in Chain(e) ==> !x.RetriesExceeded?
  {
    match e
    case RetriesExceeded(_) => Some(e)
    case Composite(Some(x)) =>
      var r := AsRetriesExceeded(x);
      assert Chain(e) == [e] + Chain(x);
      if r.Some? then
        var i :| 0 <= i < |Chain(x)| && Chain(x)[i] == r.value &&
                 forall j :: 0 <= j < i ==> !Chain(x)[j].RetriesExceeded?;
        assert Chain(e)[i + 1] == r.value;
        assert forall j :: 0 < j < i + 1 ==> Chain(e)[j] == Chain(x)[j - 1];
        r
      else
        r
    case _ => None
  }
}
