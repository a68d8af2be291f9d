/**
 * The validator object itself: its fields are updated in place by its two
 * event handlers and three methods, and by the reactions of the promises it
 * creates, each of which runs later as a separate `Settle` step. Every
 * method keeps `Valid()` and leaves exactly the state the corresponding
 * function of `ValidatorState` describes.
 */
module Validator {
  import opened Wrappers
  import opened JsValues
  import S = ValidatorState

  class TextInputValidator<T(==), V(==)> {
    var input: Option<Rule<T, V>>
    var blur: Option<Rule<T, V>>
    var valid: Value<V>
    var oldValue: Value<T>
    var promise: S.Promise
    // promise reactions still queued, and promises settled, by ticket
    var jobs: map<nat, S.Job<V>>
    var settled: map<nat, Value<V>>
    var next: nat
    // every argument `onValidityChange` has been called with, oldest first
    ghost var log: seq<Value<V>>

    ghost function State(): S.State<T, V>
      reads this
    {
      S.State(input, blur, valid, oldValue, promise, jobs, settled, next, log)
    }

    ghost predicate Valid()
      reads this
    {
      S.Inv(State())
    }

    /** `new Validator({input, blur, onValidityChange})`. */
    constructor (input: Option<Rule<T, V>>, blur: Option<Rule<T, V>>)
      ensures Valid()
      ensures State() == S.Create(input, blur)
    {
      this.input := input;
      this.blur := blur;
      valid := Null;
      promise := S.NoPromise;
      oldValue := Null;
      jobs := map[];
      settled := map[];
      next := 0;
      log := [];
    }

    /** The `oninput` handler. */
    method OnInput(value: Value<T>)
      requires Valid()
      modifies this
      ensures Valid()
      ensures State() == S.Input(old(State()), value)
    {
      if input.None? || value == oldValue {
        return;
      }
      oldValue := Null;
      jobs := jobs[next := S.InputJob(Evaluate(input.value, value))];
      next := next + 1;
    }

    /** The `onblur` handler. */
    method OnBlur(value: Value<T>)
      requires Valid()
      modifies this
      ensures Valid()
      ensures State() == S.Blur(old(State()), value)
    {
      var _ := Check(value, false);
    }

    /** `check(value, force = true)`: returns the stored promise. */
    method Check(value: Value<T>, force: bool := true) returns (p: S.Promise)
      requires Valid()
      modifies this
      ensures Valid()
      ensures State() == S.Check(old(State()), value, force).state
      ensures p == S.Check(old(State()), value, force).promise
    {
      if blur.None? || value == oldValue {
        if force {
          log := log + [valid];
        }
        return promise;
      }
      oldValue := value;
      promise := S.Handle(next);
      jobs := jobs[next := S.BlurJob(Evaluate(blur.value, value), force)];
      next := next + 1;
      p := promise;
    }

    /** `setRules({input, blur})`, each key present or absent. */
    method SetRules(input: Update<T, V>, blur: Update<T, V>)
      requires Valid()
      modifies this
      ensures Valid()
      ensures State() == S.SetRules(old(State()), input, blur)
    {
      this.input := Apply(input, this.input);
      this.blur := Apply(blur, this.blur);
      oldValue := Null;
    }

    /** `setValidity(valid = null)`. */
    method SetValidity(valid: Value<V> := Null)
      requires Valid()
      modifies this
      ensures Valid()
      ensures State() == S.SetValidity(old(State()), valid)
    {
      var v := Normalize(valid);
      if this.valid == v {
        return;
      }
      this.valid := v;
      promise := S.Handle(next);
      settled := settled[next := v];
      next := next + 1;
      log := log + [v];
    }

    /**
     * The event loop runs the queued `.then` reaction of promise `id`, which
     * the validator created in `OnInput` or `Check`.
     */
    method Settle(id: nat)
      requires Valid()
      requires id in jobs
      modifies this
      ensures Valid()
      ensures State() == S.Settle(old(State()), id)
    {
      var job := jobs[id];
      var v := Normalize(job.raw);
      jobs := jobs - {id};
      settled := settled[id := v];
      if S.Notifies(job, valid) {
        valid := v;
        log := log + [v];
      }
    }
  }

  /**
   * A blur rule that accepts strings of decimal digits: `check("123")`
   * settles with `true` and announces it; checking the same value again with
   * the default `force` announces `true` once more without re-evaluating,
   * while the blur handler stays silent.
   */
  method DigitsRuleClient()
  {
    var digits := (v: Value<string>) =>
      v.Other? && |v.a| > 0 && forall i | 0 <= i < |v.a| :: '0' <= v.a[i] <= '9';
    var validator := new TextInputValidator<string, string>(None, Some(Pattern(digits)));
    var p := validator.Check(Other("123"));
    assert p == S.Handle(0) && validator.log == [];
    assert digits(Other("123"));
    assert validator.jobs[0] == S.BlurJob(Bool(true), true);
    validator.Settle(0);
    assert validator.valid == Bool(true) && validator.log == [Bool(true)];
    var q := validator.Check(Other("123"));
    assert q == p && validator.log == [Bool(true), Bool(true)] && 0 !in validator.jobs;
    validator.OnBlur(Other("123"));
    assert validator.log == [Bool(true), Bool(true)];
  }
}
