/**
 * Properties of short sequences of validator operations: what `check`
 * returns and settles with, what repeating a call does, how `setRules`
 * and `setValidity` interact with the cache, and the race between input
 * evaluations that finish out of order.
 */
module ValidatorProperties {
  import opened Wrappers
  import opened JsValues
  import opened ValidatorState

  /**
   * When `check` evaluates, the promise it returns settles with the blur
   * rule's result, `undefined` read as `null`; the validity becomes that
   * result and the callback receives it when forced or when it differs from
   * the validity the check started from.
   */
  lemma CheckSettlesToNormalisedRuleResult<T, V>(s: State<T, V>, value: Value<T>, force: bool)
    requires Inv(s)
    requires !CheckSkips(s, value)
    ensures var c := Check(s, value, force);
      var want := Normalize(Evaluate(s.blur.value, value));
      && c.promise.Handle? && c.promise.id in c.state.jobs
      && Yield(c.state, c.promise).None?
      && var r := Settle(c.state, c.promise.id);
         && Yield(r, c.promise) == Some(want)
         && r.valid == want
         && r.log == (if force || s.valid != want then s.log + [want] else s.log)
  {
  }

  /**
   * A second `check` of the same value, with any `force`, does not start a
   * new evaluation and returns the promise the first call returned.
   */
  lemma RepeatedCheckSharesPromise<T, V>(s: State<T, V>, value: Value<T>, force1: bool, force2: bool)
    ensures var c1 := Check(s, value, force1);
      var c2 := Check(c1.state, value, force2);
      && c2.promise == c1.promise
      && c2.state.jobs == c1.state.jobs
      && c2.state.valid == c1.state.valid
  {
  }

  /**
   * `check` called with its default `force = true` when there is no blur
   * rule or on a value already checked announces the current validity
   * again, without re-evaluating.
   */
  lemma RecheckWithForceReannounces<T, V>(s: State<T, V>, value: Value<T>)
    requires CheckSkips(s, value)
    ensures var c := Check(s, value, true);
      c.state.log == s.log + [s.valid] && c.state.jobs == s.jobs && c.promise == s.promise
  {
  }

  /** The blur handler on a value already checked does nothing at all. */
  lemma BlurOfCheckedValueIsSilent<T, V>(s: State<T, V>, value: Value<T>)
    requires value == s.oldValue
    ensures Blur(s, value) == s
  {
  }

  /**
   * After `setRules`, a `check` of the value checked last evaluates the blur
   * rule again, provided a blur rule remains and the value is not `null`.
   */
  lemma SetRulesForcesRecheck<T, V>(
    s: State<T, V>, input: Update<T, V>, blur: Update<T, V>, value: Value<T>, force: bool)
    requires Apply(blur, s.blur).Some?
    requires !value.Null?
    ensures var c := Check(SetRules(s, input, blur), value, force);
      && c.promise == Handle(s.next)
      && c.state.jobs == s.jobs[s.next := BlurJob(Evaluate(Apply(blur, s.blur).value, value), force)]
  {
  }

  /**
   * The cleared cache is `null` itself, so after `setRules` a `check` of the
   * value `null` is not evaluated: it only returns the stored promise.
   */
  lemma NullValueIsNeverRechecked<T, V>(
    s: State<T, V>, input: Update<T, V>, blur: Update<T, V>, force: bool)
    ensures var c := Check(SetRules(s, input, blur), Null, force);
      c.promise == s.promise && c.state.jobs == s.jobs && c.state.valid == s.valid
  {
  }

  /**
   * Calling `setValidity` twice with the same value changes and announces
   * the validity at most once.
   */
  lemma SetValidityTwiceNotifiesOnce<T, V>(s: State<T, V>, valid: Value<V>)
    ensures var once := SetValidity(s, valid);
      && SetValidity(once, valid) == once
      && once.valid == Normalize(valid)
      && |once.log| <= |s.log| + 1
  {
  }

  /**
   * Input evaluations are not ordered: when the evaluation for an earlier
   * value `a` settles after the one for a later value `b`, the stale result
   * for `a` is the validity that remains, and the callback has seen it last.
   */
  lemma LateStaleInputResultWins<T, V>(s: State<T, V>, a: Value<T>, b: Value<T>)
    requires Inv(s)
    requires s.input.Some? && a != s.oldValue && !b.Null?
    ensures var s1 := Input(s, a);
      var s2 := Input(s1, b);
      && s2.jobs.Keys == s.jobs.Keys + {s.next, s.next + 1}
      && var s3 := Settle(s2, s.next + 1);
         && s3.valid == Normalize(Evaluate(s.input.value, b))
         && s.next in s3.jobs
         && var s4 := Settle(s3, s.next);
            && s4.valid == Normalize(Evaluate(s.input.value, a))
            && (s3.valid != s4.valid ==> s4.log == s3.log + [s4.valid])
  {
  }

  /**
   * The stored promise need not yield the current validity: an input
   * evaluation that settles after `setValidity` changes the validity but
   * not `_promise`, so a `check` that skips evaluation afterwards returns a
   * promise of the overridden value.
   */
  lemma StoredPromiseCanBeStale<T, V>(s: State<T, V>, valid: Value<V>, a: Value<T>)
    requires Inv(s)
    requires s.input.Some? && s.blur.None?
    requires Normalize(valid) != s.valid
    requires a != s.oldValue
    requires Normalize(Evaluate(s.input.value, a)) != Normalize(valid)
    ensures var s1 := SetValidity(s, valid);
      var s2 := Input(s1, a);
      && s1.next in s2.jobs
      && var s3 := Settle(s2, s1.next);
         var c := Check(s3, a, false);
         && s3.valid == Normalize(Evaluate(s.input.value, a))
         && Yield(c.state, c.promise) == Some(Normalize(valid))
         && Yield(c.state, c.promise) != Some(c.state.valid)
  {
  }
}
