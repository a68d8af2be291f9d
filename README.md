# Text input validator, modelled in Dafny

This project models the field validator of `progressive-validator`
(`src/TextInputValidator.js`): an object bound to a text field that runs an
optional *input rule* on every keystroke and an optional *blur rule* when the
field loses focus or when `check` is called, keeps a validity (`null`,
`true`, `false` or any application value), caches the value last checked on
blur, keeps `_promise` (the promise of the latest evaluating blur check, or
the already settled one `setValidity` stores, which can yield a value other
than the current validity), and calls
`onValidityChange(valid)` when the validity changes or when a check is forced.

Layout:

- `js_values.dfy` (`JsValues`): JavaScript values as the validator compares
  them (`undefined`, `null`, booleans, other values; `==` is `===`), the
  normalisation of `undefined` to `null` done by the default parameters
  `valid = null`, the two kinds of rule (`Pattern` for a regular expression,
  `Predicate` for a function) and the keys of a `setRules` argument.
- `validator_state.dfy` (`ValidatorState`): the validator's fields as a value
  and each operation as a function from the old state to the new one.
  Every rule evaluation is two steps: the operation queues a pending promise
  reaction under a fresh ticket, and `Settle(id)` later runs that reaction.
  The arguments passed to `onValidityChange` are kept as a log.
- `validator_traces.dfy` (`ValidatorTraces`): arbitrary interleavings of
  calls and settlements, and what holds of every run.
- `validator_properties.dfy` (`ValidatorProperties`): properties of short
  call sequences (repeated checks, `setRules` then `check`, `setValidity`
  twice, input evaluations settling out of order).
- `text_input_validator.dfy` (`Validator`): the validator as a class whose
  fields the methods update in place. The callback log is a ghost field.
  Each method keeps the invariant and leaves the state that the matching
  `ValidatorState` function describes; the functions are the specification
  of the methods, which make the same updates in place. `DigitsRuleClient`
  checks a digits-only blur rule: `check("123")` twice with the default
  `force`, then the blur handler.

The constructor sets `_promise` to `null` (src/TextInputValidator.js:26), so
a `check` that skips evaluation before any evaluating `check` or `onblur` and
before any `setValidity` returns `null`; `NoPromise` stands for it.

## Model

| member | source | states |
|---|---|---|
| `JsValues.Normalize` | src/TextInputValidator.js:36 | the result is never `undefined`; `undefined` becomes `null`; every other value is kept |
| `JsValues.Evaluate` | src/TextInputValidator.js:35 | the rule dispatch: a pattern gives the boolean its test returns for the value, a function gives what its result settles with for the value (blur path likewise at line 68) |
| `JsValues.Apply` | src/TextInputValidator.js:89 | the per-key copy of `Object.assign`: an absent key keeps the current rule, a present key replaces it with its value |
| `ValidatorState.Create` | src/TextInputValidator.js:23-27 | a new validator has the given rules, validity `null`, no cached value, no promise, no pending evaluation and no notification, and satisfies the invariant |
| `ValidatorState.Input` | src/TextInputValidator.js:29-35 | no change at all when there is no input rule or the value `===` the cached one; otherwise the cache becomes `null`, exactly one evaluation of the input rule on the value is queued, and validity, promise, settled promises and notifications are untouched |
| `ValidatorState.Check` | src/TextInputValidator.js:60-77 | when there is no blur rule or the value is the cached one, it returns the stored promise and changes nothing except announcing the current validity iff forced; otherwise the cache becomes the value, a fresh pending promise (a ticket not yet in use) is stored and returned before anything settles, one blur evaluation carrying `force` is queued, and validity and notifications wait |
| `ValidatorState.Blur` | src/TextInputValidator.js:46-48 | the blur handler is a check without force: silent and unchanged on a cached value; otherwise caches the value, stores a fresh promise `Handle(next)` as `_promise`, queues an unforced evaluation, and leaves validity, notifications, rules and settled promises alone |
| `ValidatorState.SetRules` | src/TextInputValidator.js:88-91 | only the rules whose keys are present are replaced; the cache is cleared; validity, notifications, promise and pending evaluations are unchanged |
| `ValidatorState.SetValidity` | src/TextInputValidator.js:101-107 | no change when the argument (with `undefined` read as `null`) equals the validity; otherwise validity becomes it, it is announced exactly once, and the stored promise is a new one (a ticket not yet in use) already settled with it; other settled promises, cache and pending evaluations unchanged |
| `ValidatorState.Settle` | src/TextInputValidator.js:69-76 | when a pending evaluation settles (blur reaction here, the input reaction of lines 36-43 likewise), its promise yields the normalised result, validity equals that result afterwards, the callback gets it once iff the validity changed or the check was forced (never forced on the input path), the ticket is no longer pending, and every other promise keeps what it settled with |
| `ValidatorTraces.StepKeepsInv` | src/TextInputValidator.js:29-107 | every handler, method and settlement keeps the invariant: validity and notifications never `undefined`, the last notification equals the validity, each promise pending or settled but not both |
| `ValidatorTraces.StepNotifiesCurrentValidity` | src/TextInputValidator.js:37-40 | every event either notifies nobody or appends one notification whose argument is the validity stored at that moment |
| `ValidatorTraces.RunKeepsInv` | src/TextInputValidator.js:29-107 | the invariant holds after any interleaving of calls and settlements that starts from a state where it holds |
| `ValidatorTraces.ReachableStatesAreConsistent` | src/TextInputValidator.js:23-27 | from construction, whatever happens, validity is never `undefined`, the callback never receives `undefined`, and the last value the callback received is the current validity (`null` before the first) |
| `ValidatorTraces.NotificationsOnlyAppend` | src/TextInputValidator.js:37-40 | notifications are only appended, at most one per event |
| `ValidatorTraces.ValidityChangesOnlyOnSettleOrOverride` | src/TextInputValidator.js:29-91 | a run made only of input, blur, check and setRules calls leaves the validity unchanged: only settlements and `setValidity` change it |
| `ValidatorTraces.UnforcedStepNotifiesOnChange` | src/TextInputValidator.js:37-40 | with no forced check pending or called, an event notifies exactly when it changes the validity, with the new validity, and queues no forced check |
| `ValidatorTraces.UnforcedCallbackSeesExactlyTheChanges` | src/TextInputValidator.js:70-73 | over any run without forced checks, the callback receives exactly the sequence of validities the run passes through (notification only on change) |
| `ValidatorTraces.StepNotifiesOnChangeOrForce` | src/TextInputValidator.js:60-76 | any event, forced or not, notifies exactly once with the new validity when it changes the validity or is forced (a forced skipping check, or a forced check's reaction), and otherwise not at all |
| `ValidatorTraces.CallbackSeesChangesAndForcedAnnouncements` | src/TextInputValidator.js:60-76 | over any run, `check`'s default `force = true` included, the callback receives exactly the validities after the changing or forced events, in order |
| `ValidatorTraces.StepKeepsPromiseResult` | src/TextInputValidator.js:67-76 | no event alters a pending promise's reaction or a settled promise's value; the promise's own reaction settles it with its normalised result |
| `ValidatorTraces.RunKeepsPromiseResult` | src/TextInputValidator.js:67-76 | over any run, a promise stays pending with its reaction or settled with its normalised result, and once its reaction has run it yields that result for good |
| `ValidatorTraces.CheckPromiseYieldsRuleResult` | src/TextInputValidator.js:66-77 | the promise an evaluating `check` returns, whatever calls and settlements follow, is either pending or yields the blur rule's normalised result, and yields it once its reaction has run |
| `ValidatorProperties.CheckSettlesToNormalisedRuleResult` | src/TextInputValidator.js:66-77 | the promise `check` returns is pending until its reaction runs, then yields the blur rule's result normalised; validity becomes it; the callback gets it iff forced or it differs from the validity before |
| `ValidatorProperties.RepeatedCheckSharesPromise` | src/TextInputValidator.js:61-63 | a second check of the same value, whatever its `force`, queues nothing new and returns the promise the first returned |
| `ValidatorProperties.RecheckWithForceReannounces` | src/TextInputValidator.js:62 | a forced check with no blur rule or of the cached value announces the current validity again without evaluating |
| `ValidatorProperties.BlurOfCheckedValueIsSilent` | src/TextInputValidator.js:46-48 | the blur handler on the cached value changes nothing and notifies nobody |
| `ValidatorProperties.SetRulesForcesRecheck` | src/TextInputValidator.js:88-91 | after `setRules`, checking any non-`null` value (the previously checked one included) evaluates the blur rule again with a new promise |
| `ValidatorProperties.NullValueIsNeverRechecked` | src/TextInputValidator.js:90 | the cleared cache is `null`, so after `setRules` a check of `null` does not evaluate and returns the old promise |
| `ValidatorProperties.SetValidityTwiceNotifiesOnce` | src/TextInputValidator.js:101-107 | calling `setValidity` twice with the same value equals calling it once: one notification at most |
| `ValidatorProperties.LateStaleInputResultWins` | src/TextInputValidator.js:34-43 | two input evaluations settling in reverse order leave the older value's result as the validity, announced last if it differs: the race is not guarded |
| `ValidatorProperties.StoredPromiseCanBeStale` | src/TextInputValidator.js:61-63 | after `setValidity`, an input evaluation that settles with another result changes the validity but not `_promise`, so a skipping `check` returns a promise yielding the overridden value, not the current validity |
| `Validator.TextInputValidator.constructor` | src/TextInputValidator.js:23-28 | fields start as `Create` says and the invariant holds |
| `Validator.TextInputValidator.OnInput` | src/TextInputValidator.js:29-44 | updates the fields in place as `Input` says, keeping the invariant |
| `Validator.TextInputValidator.OnBlur` | src/TextInputValidator.js:46-48 | calls `Check` with `force` false; the new state is `Blur`'s |
| `Validator.TextInputValidator.Check` | src/TextInputValidator.js:60-78 | `force` defaults to true; fields and the returned promise are as `Check` says, invariant kept |
| `Validator.TextInputValidator.SetRules` | src/TextInputValidator.js:88-91 | fields as `SetRules` says, invariant kept |
| `Validator.TextInputValidator.SetValidity` | src/TextInputValidator.js:101-107 | the argument defaults to `null`; fields as `SetValidity` says, invariant kept |
| `Validator.TextInputValidator.Settle` | src/TextInputValidator.js:36-43 | running a queued reaction updates the fields as `Settle` says, invariant kept |

## Left out

- Regular expressions: `RegExp.prototype.test` is a library call; a `Pattern` rule is an opaque predicate on the value, so the state a global regular expression keeps in `lastIndex` between calls is not modelled.
- Rule dispatch by `constructor === Function`: the model chooses by the `Rule` constructor. An `async` function, whose constructor is not `Function`, would be sent down the pattern branch and fail there; that case is not modelled.
- Promise and microtask scheduling: each evaluation's reaction is an explicit `Settle` step and any order of settlements is allowed. A rule is modelled by the value its (possibly asynchronous) result settles with, as a function of the value checked, so a rule whose answer for one value varies over time is not captured.
- Rule exceptions and promise rejections: rules always produce a value here. The model therefore does not capture that `check` caches the value (line 66) before calling the blur rule (line 68), so a blur rule that throws or rejects leaves the value cached: later checks of it skip evaluation and return the previous or the rejected promise, and a forced check re-announces the stale validity. A rejection on the input path is unobserved.
- `Object.assign` in the constructor and in `setRules` can copy any key onto the object (even over `valid` or `check`); only the `input` and `blur` rules are modelled, and replacing `onValidityChange` is not (the log records every call whichever function is installed).
- The callback's own effects, including a callback that calls back into the validator, are not modelled; each call is only appended to the log.
- `NaN`: `===` is not reflexive on `NaN`, while `==` on `Value` is; a rule that settles with `NaN` would notify on every input in the source.
- The promises of input evaluations are unreachable in the source; the model still records them as settled under their tickets, which nothing observes.
- A `Resolution` event for a ticket that is not pending cannot come from the event loop; `ValidatorTraces.Step` ignores it.
- Ordering input evaluations by sequence number, which would close the race in `LateStaleInputResultWins`, is not part of the source and is not modelled.
