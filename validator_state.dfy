/**
 * The state of a text input validator as a value, and each of its operations
 * as a function from the state before to the state after. Rule evaluation is
 * split into a start step (which queues a pending promise reaction, a `Job`)
 * and a later `Settle` step (which runs that reaction), so that the order in
 * which evaluations finish is left to the caller. These functions are the
 * specification of the methods of `Validator.TextInputValidator`, which make
 * the same updates to the object's fields in place.
 */
module ValidatorState {
  import opened Wrappers
  import opened JsValues

  /** The `_promise` field: `null`, or the promise with the given ticket. */
  datatype Promise = NoPromise | Handle(id: nat)

  /**
   * A pending `.then` reaction: the value the rule's promise settles with,
   * and, for a blur-time check, the `force` flag its reaction closes over.
   */
  datatype Job<V> = InputJob(raw: Value<V>) | BlurJob(raw: Value<V>, force: bool)

  /**
   * The validator's fields (`input`, `blur`, `valid`, `_oldValue`,
   * `_promise`), the reactions still pending and the promises already settled
   * (both keyed by ticket), the next free ticket, and the arguments
   * `onValidityChange` has been called with, oldest first.
   */
  datatype State<!T, V> = State(
    input: Option<Rule<T, V>>,
    blur: Option<Rule<T, V>>,
    valid: Value<V>,
    oldValue: Value<T>,
    promise: Promise,
    jobs: map<nat, Job<V>>,
    settled: map<nat, Value<V>>,
    next: nat,
    log: seq<Value<V>>)

  /** The result of `check`: the new state and the promise it returns. */
  datatype Checked<!T, V> = Checked(state: State<T, V>, promise: Promise)

  /**
   * What holds of every state the operations can reach: validity is never
   * `undefined`, nor is any notification or settled value; the last
   * notification (or `null`, before the first) is the current validity;
   * tickets below `next` are the only ones in use, each is pending or settled
   * but not both; and the stored promise is one of them.
   */
  ghost predicate Inv<T, V>(s: State<T, V>)
  {
    && !s.valid.Undefined?
    && (forall i | 0 <= i < |s.log| :: !s.log[i].Undefined?)
    && (if |s.log| == 0 then s.valid.Null? else s.log[|s.log| - 1] == s.valid)
    && (forall id | id in s.jobs :: id < s.next)
    && (forall id | id in s.settled :: id < s.next && id !in s.jobs && !s.settled[id].Undefined?)
    && (s.promise.Handle? ==> s.promise.id in s.jobs || s.promise.id in s.settled)
  }

  /** What the promise `p` has settled with in state `s`, if it has. */
  function Yield<T, V>(s: State<T, V>, p: Promise): Option<Value<V>>
  {
    if p.Handle? && p.id in s.settled then Some(s.settled[p.id]) else None
  }

  /** The constructor: rules from the options, everything else empty. */
  function Create<T, V>(input: Option<Rule<T, V>>, blur: Option<Rule<T, V>>): (r: State<T, V>)
    ensures Inv(r)
    ensures r.input == input && r.blur == blur
    ensures r.valid.Null? && r.oldValue.Null? && r.promise.NoPromise?
    ensures r.jobs == map[] && r.log == []
  {
    State(input, blur, Null, Null, NoPromise, map[], map[], 0, [])
  }

  /** True when `oninput(value)` returns without doing anything. */
  predicate InputSkips<T(==), V>(s: State<T, V>, value: Value<T>)
  {
    s.input.None? || value == s.oldValue
  }

  /**
   * `oninput(value)`: unless it skips, clears the cached blur-checked value
   * and starts evaluating the input rule; the evaluation is ticket `s.next`.
   */
  function Input<T(==), V>(s: State<T, V>, value: Value<T>): (r: State<T, V>)
    ensures InputSkips(s, value) ==> r == s
    ensures !InputSkips(s, value) ==>
      && r.oldValue.Null?
      && r.valid == s.valid && r.promise == s.promise && r.log == s.log
      && r.input == s.input && r.blur == s.blur && r.settled == s.settled
      && r.next == s.next + 1
      && r.jobs == s.jobs[s.next := InputJob(Evaluate(s.input.value, value))]
  {
    if InputSkips(s, value) then s
    else
      s.(oldValue := Null,
         jobs := s.jobs[s.next := InputJob(Evaluate(s.input.value, value))],
         next := s.next + 1)
  }

  /** True when `check(value, force)` does not evaluate the blur rule. */
  predicate CheckSkips<T(==), V>(s: State<T, V>, value: Value<T>)
  {
    s.blur.None? || value == s.oldValue
  }

  /**
   * `check(value, force)`. When it skips, only the forced re-announcement of
   * the current validity happens and the stored promise is returned. When it
   * evaluates, it caches `value`, stores a fresh pending promise and returns
   * that same promise; validity and notifications wait for `Settle`.
   */
  function Check<T(==), V>(s: State<T, V>, value: Value<T>, force: bool): (r: Checked<T, V>)
    ensures CheckSkips(s, value) ==>
      && r.promise == s.promise
      && r.state.log == (if force then s.log + [s.valid] else s.log)
      && r.state == s.(log := r.state.log)
    ensures !CheckSkips(s, value) ==>
      && r.state.oldValue == value
      && r.promise == r.state.promise == Handle(s.next)
      && (Inv(s) ==> s.next !in s.jobs && s.next !in s.settled)
      && r.state.jobs == s.jobs[s.next := BlurJob(Evaluate(s.blur.value, value), force)]
      && r.state.valid == s.valid && r.state.log == s.log
      && r.state.input == s.input && r.state.blur == s.blur && r.state.settled == s.settled
      && r.state.next == s.next + 1
  {
    if CheckSkips(s, value) then
      Checked(if force then s.(log := s.log + [s.valid]) else s, s.promise)
    else
      var p := Handle(s.next);
      Checked(s.(oldValue := value,
                 promise := p,
                 jobs := s.jobs[s.next := BlurJob(Evaluate(s.blur.value, value), force)],
                 next := s.next + 1),
              p)
  }

  /** `onblur(value)`: a check that is not forced, whose promise is dropped. */
  function Blur<T(==), V>(s: State<T, V>, value: Value<T>): (r: State<T, V>)
    ensures CheckSkips(s, value) ==> r == s
    ensures !CheckSkips(s, value) ==>
      && r.oldValue == value && r.valid == s.valid && r.log == s.log
      && r.promise == Handle(s.next) && r.next == s.next + 1
      && r.jobs == s.jobs[s.next := BlurJob(Evaluate(s.blur.value, value), false)]
      && r.settled == s.settled && r.input == s.input && r.blur == s.blur
  {
    Check(s, value, false).state
  }

  /**
   * `setRules(rules)`: copies the keys that are present and clears the
   * cached blur-checked value; nothing else changes.
   */
  function SetRules<T, V>(s: State<T, V>, input: Update<T, V>, blur: Update<T, V>): (r: State<T, V>)
    ensures r.oldValue.Null?
    ensures input.Keep? ==> r.input == s.input
    ensures input.Assign? ==> r.input == input.rule
    ensures blur.Keep? ==> r.blur == s.blur
    ensures blur.Assign? ==> r.blur == blur.rule
    ensures r.valid == s.valid && r.log == s.log && r.promise == s.promise
    ensures r.jobs == s.jobs && r.settled == s.settled && r.next == s.next
  {
    s.(input := Apply(input, s.input), blur := Apply(blur, s.blur), oldValue := Null)
  }

  /**
   * `setValidity(valid)`: the argument (with `undefined` read as `null`)
   * becomes the validity, an already settled promise of it is stored, and it
   * is announced once, unless it already is the validity.
   */
  function SetValidity<T, V(==)>(s: State<T, V>, valid: Value<V>): (r: State<T, V>)
    ensures Normalize(valid) == s.valid ==> r == s
    ensures Normalize(valid) != s.valid ==>
      && r.valid == Normalize(valid)
      && r.log == s.log + [Normalize(valid)]
      && r.promise == Handle(s.next)
      && (Inv(s) ==> s.next !in s.jobs && s.next !in s.settled)
      && Yield(r, r.promise) == Some(Normalize(valid))
      && r.settled == s.settled[s.next := Normalize(valid)] && r.next == s.next + 1
      && r.oldValue == s.oldValue && r.jobs == s.jobs
      && r.input == s.input && r.blur == s.blur
  {
    var v := Normalize(valid);
    if s.valid == v then s
    else
      s.(valid := v,
         promise := Handle(s.next),
         settled := s.settled[s.next := v],
         next := s.next + 1,
         log := s.log + [v])
  }

  /** True when running `job` calls `onValidityChange`, given validity `valid`. */
  predicate Notifies<V(==)>(job: Job<V>, valid: Value<V>)
  {
    match job
    case InputJob(raw) => valid != Normalize(raw)
    case BlurJob(raw, force) => force || valid != Normalize(raw)
  }

  /**
   * The pending reaction `id` runs: its promise settles with the normalised
   * result, validity becomes that result, and the callback is called with
   * it when the validity changes or the job was a forced check.
   */
  function Settle<T, V(==)>(s: State<T, V>, id: nat): (r: State<T, V>)
    requires id in s.jobs
    ensures r.valid == Normalize(s.jobs[id].raw)
    ensures Yield(r, Handle(id)) == Some(r.valid)
    ensures r.settled == s.settled[id := r.valid]
    ensures id !in r.jobs && r.jobs == s.jobs - {id}
    ensures r.log == if Notifies(s.jobs[id], s.valid) then s.log + [r.valid] else s.log
    ensures r.oldValue == s.oldValue && r.promise == s.promise
    ensures r.input == s.input && r.blur == s.blur && r.next == s.next
  {
    var job := s.jobs[id];
    var v := Normalize(job.raw);
    var s' := s.(jobs := s.jobs - {id}, settled := s.settled[id := v]);
    if Notifies(job, s.valid) then s'.(valid := v, log := s.log + [v]) else s'
  }
}
