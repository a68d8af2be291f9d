/**
 * Runs of a validator: any interleaving of calls from the page and
 * settlements of pending promises, in any order the event loop may choose,
 * and what holds of every such run.
 */
module ValidatorTraces {
  import opened Wrappers
  import opened JsValues
  import S = ValidatorState

  /**
   * One thing that happens to a validator: one of its handlers or methods is
   * called, or the pending promise reaction with ticket `id` runs.
   */
  datatype Event<!T, V> =
    | InputEvent(value: Value<T>)
    | BlurEvent(value: Value<T>)
    | CheckCall(value: Value<T>, force: bool)
    | SetRulesCall(input: Update<T, V>, blur: Update<T, V>)
    | SetValidityCall(valid: Value<V>)
    | Resolution(id: nat)

  /** A `check` whose callback fires whatever the validity does. */
  predicate Forced<T, V>(e: Event<T, V>)
  {
    e.CheckCall? && e.force
  }

  /** The state after one event; a settlement of no pending promise cannot happen and changes nothing. */
  function Step<T(==), V(==)>(s: S.State<T, V>, e: Event<T, V>): S.State<T, V>
  {
    match e
    case InputEvent(value) => S.Input(s, value)
    case BlurEvent(value) => S.Blur(s, value)
    case CheckCall(value, force) => S.Check(s, value, force).state
    case SetRulesCall(input, blur) => S.SetRules(s, input, blur)
    case SetValidityCall(valid) => S.SetValidity(s, valid)
    case Resolution(id) => if id in s.jobs then S.Settle(s, id) else s
  }

  /** The state after a sequence of events, first to last. */
  function Run<T(==), V(==)>(s: S.State<T, V>, es: seq<Event<T, V>>): S.State<T, V>
    decreases |es|
  {
    if es == [] then s else Run(Step(s, es[0]), es[1..])
  }

  /**
   * The validities a run passes through, one entry for each event after
   * which the validity differs from what it was before.
   */
  function Changes<T(==), V(==)>(s: S.State<T, V>, es: seq<Event<T, V>>): seq<Value<V>>
    decreases |es|
  {
    if es == [] then []
    else
      var s' := Step(s, es[0]);
      (if s'.valid != s.valid then [s'.valid] else []) + Changes(s', es[1..])
  }

  /** No pending reaction belongs to a forced check. */
  ghost predicate NoForcedJobs<T, V>(s: S.State<T, V>)
  {
    forall id | id in s.jobs :: !(s.jobs[id].BlurJob? && s.jobs[id].force)
  }

  lemma StepKeepsInv<T, V>(s: S.State<T, V>, e: Event<T, V>)
    requires S.Inv(s)
    ensures S.Inv(Step(s, e))
  {
  }

  /** Every event leaves the notifications alone or appends the new validity, once. */
  lemma StepNotifiesCurrentValidity<T, V>(s: S.State<T, V>, e: Event<T, V>)
    ensures Step(s, e).log == s.log || Step(s, e).log == s.log + [Step(s, e).valid]
  {
  }

  /** The invariant holds after any run that starts where it holds. */
  lemma {:induction false} RunKeepsInv<T, V>(s: S.State<T, V>, es: seq<Event<T, V>>)
    requires S.Inv(s)
    ensures S.Inv(Run(s, es))
    decreases |es|
  {
    if es != [] {
      StepKeepsInv(s, es[0]);
      RunKeepsInv(Step(s, es[0]), es[1..]);
    }
  }

  /**
   * Whatever a constructed validator goes through, its validity is never
   * `undefined`, the callback is never called with `undefined`, and the last
   * value the callback received is the current validity.
   */
  lemma ReachableStatesAreConsistent<T, V>(
    input: Option<Rule<T, V>>, blur: Option<Rule<T, V>>, es: seq<Event<T, V>>)
    ensures var r := Run(S.Create(input, blur), es);
      && !r.valid.Undefined?
      && (forall i | 0 <= i < |r.log| :: !r.log[i].Undefined?)
      && (if |r.log| == 0 then r.valid.Null? else r.log[|r.log| - 1] == r.valid)
  {
    RunKeepsInv(S.Create(input, blur), es);
  }

  /** Notifications are only ever appended, at most one per event. */
  lemma {:induction false} NotificationsOnlyAppend<T, V>(s: S.State<T, V>, es: seq<Event<T, V>>)
    ensures s.log <= Run(s, es).log
    ensures |Run(s, es).log| <= |s.log| + |es|
    decreases |es|
  {
    if es != [] {
      StepNotifiesCurrentValidity(s, es[0]);
      NotificationsOnlyAppend(Step(s, es[0]), es[1..]);
    }
  }

  /**
   * Validity changes only when a rule evaluation settles or `setValidity` is
   * called: input, blur, check and setRules never change it themselves.
   */
  lemma {:induction false} ValidityChangesOnlyOnSettleOrOverride<T, V>(
    s: S.State<T, V>, es: seq<Event<T, V>>)
    requires forall i | 0 <= i < |es| :: !es[i].Resolution? && !es[i].SetValidityCall?
    ensures Run(s, es).valid == s.valid
    decreases |es|
  {
    if es != [] {
      ValidityChangesOnlyOnSettleOrOverride(Step(s, es[0]), es[1..]);
    }
  }

  lemma UnforcedStepNotifiesOnChange<T, V>(s: S.State<T, V>, e: Event<T, V>)
    requires NoForcedJobs(s) && !Forced(e)
    ensures NoForcedJobs(Step(s, e))
    ensures Step(s, e).log == s.log + (if Step(s, e).valid != s.valid then [Step(s, e).valid] else [])
  {
  }

  /** One unfolding of `Run` and `Changes` on a non-empty run. */
  lemma RunUnfold<T, V>(s: S.State<T, V>, es: seq<Event<T, V>>)
    requires es != []
    ensures Run(s, es) == Run(Step(s, es[0]), es[1..])
    ensures Changes(s, es) == (if Step(s, es[0]).valid != s.valid then [Step(s, es[0]).valid] else []) + Changes(Step(s, es[0]), es[1..])
  {
  }

  /**
   * Without `force`, the callback is called exactly when the validity
   * changes, with the new validity: the notifications a run adds are the
   * sequence of validities it passes through.
   */
  lemma {:induction false} UnforcedCallbackSeesExactlyTheChanges<T, V>(
    s: S.State<T, V>, es: seq<Event<T, V>>)
    requires NoForcedJobs(s)
    requires forall i | 0 <= i < |es| :: !Forced(es[i])
    ensures Run(s, es).log == s.log + Changes(s, es)
    decreases |es|
  {
    if es != [] {
      var s' := Step(s, es[0]);
      var rest := es[1..];
      assert forall i | 0 <= i < |rest| :: !Forced(rest[i]) by {
        forall i | 0 <= i < |rest| ensures !Forced(rest[i]) {
          assert rest[i] == es[i + 1];
        }
      }
      var d := if s'.valid != s.valid then [s'.valid] else [];
      UnforcedStepNotifiesOnChange(s, es[0]);
      UnforcedCallbackSeesExactlyTheChanges(s', rest);
      RunUnfold(s, es);
      assert s.log + d + Changes(s', rest) == s.log + (d + Changes(s', rest));
    }
  }

  /**
   * The event owes a notification to `force` rather than to a change: a
   * forced `check` that skips evaluation, or the reaction of a forced check.
   */
  predicate ForcedOrigin<T(==), V>(s: S.State<T, V>, e: Event<T, V>)
  {
    || (e.CheckCall? && e.force && S.CheckSkips(s, e.value))
    || (e.Resolution? && e.id in s.jobs && s.jobs[e.id].BlurJob? && s.jobs[e.id].force)
  }

  /**
   * The notifications a run makes, one entry for each event after which the
   * validity differs from before or whose notification is forced.
   */
  function Announcements<T(==), V(==)>(s: S.State<T, V>, es: seq<Event<T, V>>): seq<Value<V>>
    decreases |es|
  {
    if es == [] then []
    else
      var s' := Step(s, es[0]);
      (if s'.valid != s.valid || ForcedOrigin(s, es[0]) then [s'.valid] else []) + Announcements(s', es[1..])
  }

  /** Any event notifies, once and with the new validity, exactly when it changes the validity or is forced. */
  lemma StepNotifiesOnChangeOrForce<T, V>(s: S.State<T, V>, e: Event<T, V>)
    ensures Step(s, e).log ==
      s.log + (if Step(s, e).valid != s.valid || ForcedOrigin(s, e) then [Step(s, e).valid] else [])
  {
  }

  lemma RunUnfoldAnnouncements<T, V>(s: S.State<T, V>, es: seq<Event<T, V>>)
    requires es != []
    ensures Announcements(s, es) ==
      (if Step(s, es[0]).valid != s.valid || ForcedOrigin(s, es[0]) then [Step(s, es[0]).valid] else [])
      + Announcements(Step(s, es[0]), es[1..])
  {
  }

  /**
   * Over any run, forced checks included, the callback receives exactly the
   * validities after the events that change the validity or are forced.
   */
  lemma {:induction false} CallbackSeesChangesAndForcedAnnouncements<T, V>(
    s: S.State<T, V>, es: seq<Event<T, V>>)
    ensures Run(s, es).log == s.log + Announcements(s, es)
    decreases |es|
  {
    if es != [] {
      var s' := Step(s, es[0]);
      var rest := es[1..];
      var d := if s'.valid != s.valid || ForcedOrigin(s, es[0]) then [s'.valid] else [];
      StepNotifiesOnChangeOrForce(s, es[0]);
      CallbackSeesChangesAndForcedAnnouncements(s', rest);
      RunUnfold(s, es);
      RunUnfoldAnnouncements(s, es);
      assert s.log + d + Announcements(s', rest) == s.log + (d + Announcements(s', rest));
    }
  }

  /** The promise with ticket `id` is still pending, its reaction being `job`. */
  ghost predicate Awaits<T, V>(s: S.State<T, V>, id: nat, job: S.Job<V>)
  {
    id in s.jobs && s.jobs[id] == job
  }

  /** The promise with ticket `id` has settled with `v`. */
  ghost predicate Yields<T, V>(s: S.State<T, V>, id: nat, v: Value<V>)
  {
    id !in s.jobs && id in s.settled && s.settled[id] == v
  }

  /**
   * No event changes the reaction of a pending promise or the value of a
   * settled one; the promise's own reaction settles it with its normalised
   * result.
   */
  lemma StepKeepsPromiseResult<T, V>(s: S.State<T, V>, e: Event<T, V>, id: nat, job: S.Job<V>)
    requires S.Inv(s)
    requires Awaits(s, id, job) || Yields(s, id, Normalize(job.raw))
    ensures Awaits(Step(s, e), id, job) || Yields(Step(s, e), id, Normalize(job.raw))
    ensures Yields(s, id, Normalize(job.raw)) ==> Yields(Step(s, e), id, Normalize(job.raw))
    ensures e.Resolution? && e.id == id ==> Yields(Step(s, e), id, Normalize(job.raw))
  {
  }

  /**
   * Whatever happens after a promise's reaction was queued, the promise is
   * pending with that reaction or settled with its normalised result, and
   * once the reaction has run it stays settled with that result.
   */
  lemma {:induction false} RunKeepsPromiseResult<T, V>(
    s: S.State<T, V>, es: seq<Event<T, V>>, id: nat, job: S.Job<V>)
    requires S.Inv(s)
    requires Awaits(s, id, job) || Yields(s, id, Normalize(job.raw))
    ensures Awaits(Run(s, es), id, job) || Yields(Run(s, es), id, Normalize(job.raw))
    ensures Yields(s, id, Normalize(job.raw)) ==> Yields(Run(s, es), id, Normalize(job.raw))
    ensures (exists i | 0 <= i < |es| :: es[i].Resolution? && es[i].id == id) ==>
      Yields(Run(s, es), id, Normalize(job.raw))
    decreases |es|
  {
    if es != [] {
      var s' := Step(s, es[0]);
      var rest := es[1..];
      StepKeepsInv(s, es[0]);
      StepKeepsPromiseResult(s, es[0], id, job);
      RunKeepsPromiseResult(s', rest, id, job);
      RunUnfold(s, es);
      if exists i | 0 <= i < |es| :: es[i].Resolution? && es[i].id == id {
        var i :| 0 <= i < |es| && es[i].Resolution? && es[i].id == id;
        if i > 0 {
          assert rest[i - 1] == es[i];
        }
      }
    }
  }

  /**
   * The promise an evaluating `check` returns keeps the blur rule's
   * normalised result through any later calls and settlements: it is
   * pending until its reaction runs and, from then on, yields that result.
   */
  lemma CheckPromiseYieldsRuleResult<T, V>(
    s: S.State<T, V>, value: Value<T>, force: bool, es: seq<Event<T, V>>)
    requires S.Inv(s)
    requires !S.CheckSkips(s, value)
    ensures var c := S.Check(s, value, force);
      var want := Normalize(Evaluate(s.blur.value, value));
      var r := Run(c.state, es);
      && c.promise.Handle?
      && (S.Yield(r, c.promise).None? || S.Yield(r, c.promise) == Some(want))
      && ((exists i | 0 <= i < |es| :: es[i].Resolution? && es[i].id == c.promise.id) ==>
            S.Yield(r, c.promise) == Some(want))
  {
    var c := S.Check(s, value, force);
    var job := S.BlurJob(Evaluate(s.blur.value, value), force);
    StepKeepsInv(s, CheckCall(value, force));
    assert Awaits(c.state, c.promise.id, job);
    RunKeepsPromiseResult(c.state, es, c.promise.id, job);
    RunKeepsInv(c.state, es);
  }
}
