/** The outcome classifier: which (result, error) pairs a policy handles as
    failures. Matchers combine by OR; with none configured a policy handles
    any non-nil error. */
module Classifier {
  import opened Optional
  import opened Errors
  import opened Context

  datatype Matcher<!R> =
    | ErrorIs(target: Error)                   // HandleErrors(target): matched along the wrap chain
    | ResultIs(value: R)                       // HandleResult(value)
    | When(pred: (R, Option<Error>) -> bool)   // HandleIf(pred)

  predicate Matches<R(==)>(m: Matcher<R>, o: Outcome<R>)
  {
    match m
    case ErrorIs(t) => o.error.Some? && Is(o.error.value, t)
    case ResultIs(v) => o.result == v
    case When(p) => p(o.result, o.error)
  }

  /** Some matcher of `ms` matches `o`. */
  function AnyMatches<R(==)>(ms: seq<Matcher<R>>, o: Outcome<R>): (b: bool)
    ensures b <==> exists i :: 0 <= i < |ms| && Matches(ms[i], o)
  {
    if |ms| == 0 then false
    else if Matches(ms[0], o) then true
    else
      var rest := AnyMatches(ms[1..], o);
      assert forall i :: 1 <= i < |ms| ==> ms[i] == ms[1..][i - 1];
      rest
  }

  /** Whether a policy configured with `ms` treats `o` as a handled failure. */
  predicate Handles<R(==)>(ms: seq<Matcher<R>>, o: Outcome<R>): (b: bool)
    ensures |ms| == 0 ==> (b <==> o.error.Some?)
    ensures |ms| > 0 ==> (b <==> exists i :: 0 <= i < |ms| && Matches(ms[i], o))
  {
    if |ms| == 0 then o.error.Some? else AnyMatches(ms, o)
  }

  /** Builder step HandleErrors(errs...): one chain-matching matcher per error. */
  function HandleErrors<R(==,!new)>(ms: seq<Matcher<R>>, errs: seq<Error>): (r: seq<Matcher<R>>)
    ensures |r| == |ms| + |errs|
    ensures forall o :: AnyMatches(r, o) <==>
      AnyMatches(ms, o) || (o.error.Some? && exists i :: 0 <= i < |errs| && Is(o.error.value, errs[i]))
  {
    var added := seq(|errs|, i requires 0 <= i < |errs| => ErrorIs(errs[i]));
    assert forall o :: AnyMatches(ms + added, o) <==>
      AnyMatches(ms, o) || (o.error.Some? && exists i :: 0 <= i < |errs| && Is(o.error.value, errs[i])) by {
      forall o ensures AnyMatches(ms + added, o) <==>
        AnyMatches(ms, o) || (o.error.Some? && exists i :: 0 <= i < |errs| && Is(o.error.value, errs[i])) {
        AnyMatchesConcat(ms, added, o);
        assert forall i :: 0 <= i < |errs| ==> (Matches(added[i], o) <==> o.error.Some? && Is(o.error.value, errs[i]));
      }
    }
    ms + added
  }

  /** Builder step HandleResult(v): outcomes whose result equals `v` are handled. */
  function HandleResult<R(==,!new)>(ms: seq<Matcher<R>>, v: R): (r: seq<Matcher<R>>)
    ensures forall o :: AnyMatches(r, o) <==> AnyMatches(ms, o) || o.result == v
  {
    assert forall o :: AnyMatches(ms + [ResultIs(v)], o) <==> AnyMatches(ms, o) || o.result == v by {
      forall o ensures AnyMatches(ms + [ResultIs(v)], o) <==> AnyMatches(ms, o) || AnyMatches([ResultIs(v)], o) {
        AnyMatchesConcat(ms, [ResultIs(v)], o);
      }
    }
    ms + [ResultIs(v)]
  }

  /** A classifier made only of HandleErrors matchers narrows the default:
      it never handles a nil error, and handles an error exactly when one
      of its targets is on the error's wrap chain. */
  lemma ErrorMatchersNarrowDefault<R>(ms: seq<Matcher<R>>, o: Outcome<R>)
    requires forall i :: 0 <= i < |ms| ==> ms[i].ErrorIs?
    ensures Handles(ms, o) ==> Handles([], o)
    ensures |ms| > 0 ==>
      (Handles(ms, o) <==> o.error.Some? && exists i :: 0 <= i < |ms| && ms[i].target in Chain(o.error.value))
  {
    if |ms| > 0 && o.error.Some? {
      forall i | 0 <= i < |ms| ensures Matches(ms[i], o) <==> ms[i].target in Chain(o.error.value) {
        IsMeansOnChain(o.error.value, ms[i].target);
      }
    }
  }

  /** Configuring more matchers only widens what is handled (OR semantics). */
  lemma HandlesUnion<R>(a: seq<Matcher<R>>, b: seq<Matcher<R>>, o: Outcome<R>)
    requires |a| > 0 && |b| > 0
    ensures Handles(a + b, o) <==> Handles(a, o) || Handles(b, o)
  {
    AnyMatchesConcat(a, b, o);
  }

  lemma AnyMatchesConcat<R>(a: seq<Matcher<R>>, b: seq<Matcher<R>>, o: Outcome<R>)
    ensures AnyMatches(a + b, o) <==> AnyMatches(a, o) || AnyMatches(b, o)
  {
    var ab := a + b;
    if AnyMatches(a, o) {
      var i :| 0 <= i < |a| && Matches(a[i], o);
      assert ab[i] == a[i];
    } else if AnyMatches(b, o) {
      var i :| 0 <= i < |b| && Matches(b[i], o);
      assert ab[|a| + i] == b[i];
    } else {
      forall i | 0 <= i < |ab| ensures !Matches(ab[i], o) {
        if i < |a| { assert ab[i] == a[i]; } else { assert ab[i] == b[i - |a|]; }
      }
    }
  }
}
