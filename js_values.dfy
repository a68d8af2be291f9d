/**
 * The JavaScript values a text input validator handles: the values of the
 * field, the results of its rules and its validity, and the two kinds of rule.
 */
module JsValues {
  import opened Wrappers

  /**
   * A JavaScript value as far as the validator distinguishes values:
   * `undefined`, `null`, a boolean, or any other application value (a
   * string typed into the field, a message, a strength score, ...).
   * Equality `==` on this type stands for strict equality `===`.
   */
  datatype Value<A> = Undefined | Null | Bool(b: bool) | Other(a: A)

  /**
   * The default parameter `valid = null`: JavaScript substitutes the default
   * exactly when the argument is `undefined`. Used on both rule paths and by
   * `setValidity`.
   */
  function Normalize<A>(x: Value<A>): (r: Value<A>)
    ensures !r.Undefined?
    ensures x.Undefined? ==> r.Null?
    ensures !x.Undefined? ==> r == x
  {
    if x.Undefined? then Null else x
  }

  /**
   * A rule: a regular expression whose `test` is applied to the value, or a
   * function called with the value. `call` gives the value that the
   * function's result settles with once `Promise.resolve` has wrapped it,
   * so synchronous and asynchronous functions are treated alike.
   */
  datatype Rule<!T, V> =
    | Pattern(test: Value<T> -> bool)
    | Predicate(call: Value<T> -> Value<V>)

  /** What the promise built from evaluating `rule` on `value` settles with. */
  function Evaluate<T, V>(rule: Rule<T, V>, value: Value<T>): (r: Value<V>)
    ensures rule.Pattern? ==> r.Bool? && r == Bool(rule.test(value))
    ensures rule.Predicate? ==> r == rule.call(value)
  {
    match rule
    case Pattern(test) => Bool(test(value))
    case Predicate(call) => call(value)
  }

  /**
   * One key (`input` or `blur`) of the object given to `setRules`: either the
   * key is absent and the rule is kept, or it is present and its value (a
   * rule, or a falsy value such as `undefined`, which switches the rule off)
   * replaces the rule.
   */
  datatype Update<!T, V> = Keep | Assign(rule: Option<Rule<T, V>>)

  /** The rule after `Object.assign` has copied the key, if present. */
  function Apply<T, V>(u: Update<T, V>, current: Option<Rule<T, V>>): (r: Option<Rule<T, V>>)
    ensures u.Keep? ==> r == current
    ensures u.Assign? ==> r == u.rule
  {
    match u
    case Keep => current
    case Assign(rule) => rule
  }
}
