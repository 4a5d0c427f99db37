# folke-ko-validation, modelled in Dafny

folke-ko-validation adds validation to Knockout observables. A *validable
observable* wraps a value and holds an ordered, append-only list of
validators. Each validator derives an error message from the value, and a
service validator also has a "validating" flag. The container aggregates them
into one error message (the first truthy one, in attachment order), one
"validating" flag (true if any validator's flag is set) and "valid" (neither).
The library ships predicate validators (e-mail format, required, minimum and
maximum length, numeric bounds, equality with another field), a validator that
asks a remote service, a `{0}` message formatter with a table of message
templates, and (in the module build) four change-detection helpers.

The model replaces Knockout's reactive graph with explicit state. A derived
value is a function of the objects it reads, and an event is a method call.

| file | module | what it models |
|---|---|---|
| `js_values.dfy` | `JsValues` | the JavaScript semantics the code relies on: truthiness, `==`, `String(n)`, `Number(s)`, `<`/`>` with NaN |
| `messages.dfy` | `Messages` | the message table (a record passed as a parameter) and `format` |
| `validators.dfy` | `Validators` | `isEmail`, both `isRequired` variants, `hasMinLength`, `hasMaxLength`, `isInRange`, `isAtLeast`, `isAtMost`, `areSame` |
| `async_validator.dfy` | `AsyncValidator` | `validateService`: its two cells as a class with one method per event, and a pure replay of event sequences |
| `container.dfy` | `Container` | `validableObservable`: a class with a `seq` of validators, `addValidator`, and the derived `errorMessage`, `validating` and `valid` |
| `change_detection.dfy` | `ChangeDetection` | `hasDateChanged`, `hasObjectChanged`, `hasArrayOfObjectsChanged`, `hasArrayChanged` |
| `scenarios.dfy` | `Scenarios` | concrete cases of the validators and two client methods of the container |
| `wrappers.dfy` | `Wrappers` | `Option`, used for `null` |

A value is `Null | Str(string) | Num(int)`. `Null` stands for both `null` and
`undefined`. None of the operations the code applies to a field value tells
them apart: `!value()`, `value() == null`, `value() === ""`, `==` against
another field, and `re.test(value())`. The last one turns the value into the
string "null" or "undefined", and the e-mail pattern rejects both.

## The three builds

The three source files differ. The model keeps each difference:

- `isRequired` uses `=== ""` in `dist/index.js` and `== ""` in the other two
  files. With `==` the number 0 equals `""`, so 0 fails. The two variants are
  `Validators.IsRequiredStrict` and `Validators.IsRequiredLoose`.
  `RequiredVariantsDifferOnlyOnZero` proves that they disagree on exactly one
  value, the number 0.
- `hasMaxLength`, `isAtLeast`, `isAtMost`, `valid`, the `maxLength` message
  and the initial value of `validableObservable` exist only in
  `dist/index.js`. The module builds create the container with `undefined`,
  which is the constructor called with `Null`.
- The change-detection helpers exist only in `folke-ko-validation.js`.

## Behaviour at the edges

- `hasMaxLength` fails on a falsy value, the empty string included, because
  it tests `!value()` before the length (dist/index.js:89).
  `Scenarios.MaxLengthCases` shows the empty string failing.
- `isAtMost` fails on a falsy value, 0 included, for the same reason
  (dist/index.js:114).
- `isRequired` in `dist/index.js` treats the number 0 as present, because it
  compares with `=== ""` (dist/index.js:72).
- `isEmail` accepts an address with more than one `@`, because `\S+` also
  matches `@` (dist/index.js:63).
- `isInRange`, `isAtLeast` and `isAtMost` accept a non-empty string that is
  not a number. Such a string converts to NaN, and every comparison with NaN is
  false (dist/index.js:98, 106, 114).
- `hasMinLength` and `hasMaxLength` count a string's length in UTF-16 code
  units, as JavaScript's `length` does (dist/index.js:80, 89). A character
  above U+FFFF counts twice; `Scenarios.AstralLengthCases` shows one.

## Model

| member | source | states |
|---|---|---|
| `Messages.FindPlaceholder` | dist/index.js:150 | finds the first index at or after `from` where `{0}` starts; returns none only if no such index exists |
| `Messages.Format` | dist/index.js:149-151 | a template with no `{0}` comes back unchanged; otherwise the first `{0}` is replaced by the argument, and the text before it and after it is kept |
| `Messages.FormatKeepsPrefixAndSuffix` | folke-ko-validation.ts:141-143 | with `p` free of placeholders, `Format(p + "{0}" + q, a) == p + a + q`; later placeholders in `q` survive |
| `Messages.FormatDefaultMinLength` | dist/index.js:21 | the shipped minLength template formats to "At least " + n + " characters long" |
| `JsValues.ToNumberOfNumberToString` | dist/index.js:80 | the string a bound is printed as, when substituted into a message, converts back to the same number |
| `JsValues.LooseEqualsReflexiveSymmetric` | dist/index.js:144 | `==` on field values is reflexive and symmetric |
| `JsValues.LooseEqualsSameKind` | folke-ko-validation.js:61 | on two strings, or on two numbers, `==` is plain equality |
| `JsValues.LooseEqualsNumberAndItsString` | folke-ko-validation.js:154 | a number is `==` to its decimal string |
| `Validators.MatchesEmailIffPattern` | dist/index.js:63 | the scanning matcher accepts a string iff it has no white space and splits as a@b.c with a, b and c non-empty |
| `Validators.OnlyStringsLookLikeEmail` | folke-ko-validation.ts:83 | `null` and numbers, converted to strings as `test` converts them, never match the pattern |
| `Validators.IsEmail` | dist/index.js:62-66 | no error iff the value is a string of the e-mail pattern; otherwise the email message |
| `Validators.IsRequiredStrict` | dist/index.js:70-73 | error (the required message) iff the value is null/undefined or exactly `""`; 0 and non-empty strings pass |
| `Validators.IsRequiredLoose` | folke-ko-validation.js:105-108 | error iff the value is falsy: null/undefined, `""` or 0 |
| `Validators.RequiredVariantsDifferOnlyOnZero` | folke-ko-validation.ts:90 | the `===` and `==` variants disagree exactly on the number 0 |
| `Validators.Utf16Length` | dist/index.js:80 | a string's `length` in UTF-16 code units is at least its number of characters, and equals it when no character is above U+FFFF |
| `Validators.HasMinLength` | dist/index.js:77-83 | error iff the value is falsy or a string shorter than n UTF-16 code units; the message is the minLength template with n |
| `Validators.HasMaxLength` | dist/index.js:86-92 | error iff the value is falsy or a string longer than n UTF-16 code units; the message is the maxLength template with n |
| `Validators.IsAtLeast` | dist/index.js:103-109 | no error iff the value is truthy and is not a number below min; otherwise the minValue message with min |
| `Validators.IsAtMost` | dist/index.js:111-117 | no error iff the value is truthy and is not a number above max; otherwise the maxValue message with max |
| `Validators.IsInRange` | dist/index.js:95-101 | no error iff the value is truthy and not a number outside [min, max]; a falsy value or one below min gets the minValue message |
| `Validators.InRangeIsAtLeastThenAtMost` | folke-ko-validation.ts:105 | isInRange is isAtLeast's error if there is one, else isAtMost's: the min check comes first and a value failing both reports only min |
| `Validators.AreSame` | dist/index.js:141-147 | no error iff the value is `==` to the other field's value; otherwise the areSame message |
| `Validators.AreSameSymmetricReflexive` | folke-ko-validation.ts:133-139 | areSame does not depend on which field carries it, accepts equal fields, and on strings is exact equality |
| `Validators.AreSameNumberAndString` | folke-ko-validation.js:154 | a number and its decimal string count as the same |
| `AsyncValidator.ReplayErrorIsLastResolution` | folke-ko-validation.ts:115-123 | after any event sequence the error message is the result of the last resolution, or the starting message if nothing resolved |
| `AsyncValidator.Step` | dist/index.js:124-131 | a change sets the flag; a resolution clears it and writes its result as the message; a rejection clears it and keeps the message |
| `AsyncValidator.Replay` | folke-ko-validation.ts:115-123 | no events leave the cells as they were; otherwise the flag is set iff the latest event is a value change, so any completion clears it |
| `AsyncValidator.StaleResolutionWins` | folke-ko-validation.js:134-142 | a resolution that arrives after newer changes still overwrites the message |
| `AsyncValidator.ServiceValidator.constructor` | dist/index.js:122-123 | a new service validator starts with no message and not validating |
| `AsyncValidator.ServiceValidator.OnChange` | dist/index.js:124-126 | a value change sets validating and leaves the message |
| `AsyncValidator.ServiceValidator.OnResolve` | dist/index.js:127-130 | a resolution writes its result and clears validating |
| `AsyncValidator.ServiceValidator.OnReject` | dist/index.js:131 | a failure clears validating and leaves the message |
| `Container.FirstError` | dist/index.js:31-40 | none iff no validator has a truthy message; otherwise a truthy message of some validator all of whose predecessors have none |
| `Container.FirstErrorAt` | dist/index.js:33-37 | if validator i has a truthy message and none before it does, the aggregate is exactly validator i's message |
| `Container.AnyValidating` | dist/index.js:41-50 | true iff some validator has a flag and it is set; validators without a flag count as false |
| `Container.FirstErrorAppend` | folke-ko-validation.js:68-77 | attaching a validator keeps an existing aggregated error; otherwise its own truthy message becomes the aggregate |
| `Container.AnyValidatingAppend` | folke-ko-validation.js:78-86 | attaching a validator ORs its flag into the aggregate |
| `Container.ValidableObservable.constructor` | dist/index.js:28-30 | a new container holds the initial value and no validators, so it has no error and is not validating |
| `Container.ValidableObservable.AddValidator` | dist/index.js:54-57 | appends exactly one validator at the end, keeps the earlier ones in order, and returns the container itself |
| `Container.ValidableObservable.ErrorMessage` | folke-ko-validation.ts:49-58 | the in-order scan with early return computes FirstError of the current statuses |
| `Container.ValidableObservable.Validating` | folke-ko-validation.ts:60-68 | the in-order scan with early return computes AnyValidating of the current statuses |
| `Container.ValidableObservable.Valid` | dist/index.js:53 | valid iff not validating and no error, that is, no validator has a truthy message or a set flag |
| `ChangeDetection.HasDateChanged` | folke-ko-validation.js:27-33 | unchanged iff both sides are null, or both are present and the parsed original is the same valid instant |
| `ChangeDetection.HasObjectChanged` | folke-ko-validation.js:38-44 | changed iff exactly one side is null, or the present object reports a change |
| `ChangeDetection.AnyChanged` | folke-ko-validation.js:52 | the `some` scan is true iff some element reports a change |
| `ChangeDetection.HasArrayOfObjectsChanged` | folke-ko-validation.js:47-53 | changed iff exactly one side is null, the lengths differ, or some element reports a change |
| `ChangeDetection.AnyDiffers` | folke-ko-validation.js:61 | the indexed `some` scan is true iff some index holds elements that are not `==` |
| `ChangeDetection.HasArrayChanged` | folke-ko-validation.js:56-62 | changed iff exactly one side is null, the lengths differ, or some index is not `==` |
| `ChangeDetection.NullHandlingAgrees` | folke-ko-validation.js:27-62 | all four helpers report no change for two nulls and a change for exactly one null |
| `ChangeDetection.HasArrayChangedSymmetricReflexive` | folke-ko-validation.js:56-62 | the array comparison is symmetric, and an array compared with itself is unchanged |
| `ChangeDetection.StringArraysChangedIffDifferent` | folke-ko-validation.js:61 | on arrays of strings the helper reports exactly sequence inequality |
| `ChangeDetection.LooseComparisonHidesTypeChange` | folke-ko-validation.js:61 | replacing the number 1 by the string "1" is not reported as a change |
| `Scenarios.EmailCases` | dist/index.js:63 | "a@b.co" passes; "a b@c.com" and "abc" fail |
| `Scenarios.RequiredCases` | dist/index.js:72 | "" and null fail, 0 and "x" pass in the bundled build; 0 fails in the module builds |
| `Scenarios.MinLengthCases` | dist/index.js:80 | with n = 3, "ab" and "" fail and "abc" passes |
| `Scenarios.MaxLengthCases` | dist/index.js:89 | with n = 3, "abcd" and "" fail and "abc" passes |
| `Scenarios.AstralLengthCases` | dist/index.js:80-89 | a single character above U+FFFF has length 2: it passes a minimum length of 2 and fails a maximum length of 1 |
| `Scenarios.RangeCases` | dist/index.js:98 | in [1, 10], 0 gets the min message, 11 gets the max message and 5 passes; 0 fails even in [-5, 5] |

## Left out

- The `validate` binding handler and `register()` (dist/index.js:153-179, folke-ko-validation.ts:145-168). They create a DOM label, set `innerHTML`, call jQuery and register a disposal callback. This is UI and I/O, not logic.
- Knockout's observables, computeds and dependency tracking. A derived value is a function of the current heap, and recomputation scheduling is not modelled. The difference between `ko.computed` and `ko.pureComputed` is not modelled.
- The subscription that delivers value changes to a service validator. The environment calls `ServiceValidator.OnChange`; writing a container's value does not call it.
- The service call and its promise. Completions are the `OnResolve` and `OnReject` events. Their order is whatever the environment chooses, and the call's argument `{value: newValue}` is not kept.
- Validator factories. The source calls `factory(container)`. Here the caller builds the attached `Validator` value directly: a rule, an `AreSame` with the other observable's cell, or a `Service` holding a new `ServiceValidator`.
- The process-wide mutation of `errorMessages`. The table is an immutable record, and each container holds the table its rules read.
- Floating-point numbers. Numbers are unbounded integers, and `None` stands for NaN. `Number(s)` handles white space, a sign and decimal digits; fractions, exponents, hexadecimal and `Infinity` become NaN.
- Numbers are unbounded integers: JavaScript loses integer precision above 2^53, and `String(n)` uses exponent form from 1e21; neither is modelled. So `9007199254740992 == "9007199254740993"` is true in JavaScript and false in the model, and `AreSame`, `IsAtLeast`, `IsAtMost` and `IsInRange` can differ from the code on such values.
- The parsing of date strings in `hasDateChanged`. It is the parameter `parseDate`.
- The distinction between `null` and `undefined`. It does not affect any comparison the code makes.
- `ChangeDetection.HasArrayOfObjectsChanged`, `ChangeDetection.HasArrayChanged`: `value` is an observable and the code reads `value().length` (folke-ko-validation.js:52, 61). A present observable that holds `null` or `undefined` makes that throw a TypeError. The model takes the observable's current array, so it cannot hold null and the throw is not modelled.
- Lone surrogates in a string. A Dafny string holds Unicode scalar values, so a string with an unpaired UTF-16 surrogate cannot be represented; `Validators.Utf16Length` counts every other string as JavaScript does.
- `value().length` on `null` in `hasMinLength` and `hasMaxLength`, which would throw. The `!value()` guard in front of it makes that case unreachable.
- dist/index.d.ts is not part of this model. It declares types and has no behaviour.
