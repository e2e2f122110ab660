# calidation: a Dafny model of the form and validation engine

calidation is a React form-validation library. A `Form` component keeps one
state:

- `config`: field name to the field's validators, in declaration order;
- `dirty`, `errors`, `fields`;
- `submitted`.

It also keeps two instance maps, `initialValues` and `transforms`.

`Validation` components register their part of the configuration with the
form when they mount and unregister it when they unmount. Each change,
registration or unregistration validates the whole form again. Each field runs
its validators in order and keeps the first truthy error. A validator can be
switched off by `validateIf`. An optional field whose value the active
`isRequired` rejects has no error. A validator name the active set lacks
aborts the pass.

The model is split into these modules:

- `Js` (`js.dfy`) holds the JavaScript values the engine relies on: `undefined`, `null`, booleans, integers and strings. It also has truthiness, `String(...)`, and plain objects as ordered entries, so that `Object.entries` order is kept.
- `Utilities` (`utilities.dfy`) holds `areDirty`, `getFirstDefinedValue` and `removeFrom`.
- `ValidatorTypes` (`validator_types.dfy`) holds the validator configurations, the context `{ fields, errors, isDirty }` and the two fatal configuration faults.
- `Validators` (`validators.dfy`) holds isEqual, isWhitelisted, isBlacklisted, isRegexMatch and isEmail.
- `ValidatorsContext` (`validators_context.dfy`) holds the default validator set and the way the provider layers supplied validators over it.
- `Engine` (`engine.dfy`) holds the `validate`/`validateField` fold as functions.
- `FormState` (`form.dfy`) holds the form.
  - Each `setState` updater is a pure function from the state it starts from, returning the new state or the fault it raised.
  - Class `Form` holds `state`, `initialValues` and `transforms`. Each handler is a method that applies its updater.
- `Validation` (`validation.dfy`) holds `getFields`, the render arguments, and mount/unmount as calls into a `Form`.
- `Scenarios` (`scenarios.dfy`) states, as lemmas, the outcomes of concrete forms from the integration tests. The forms are taken to be rendered inside a `ValidatorsProvider` whose set is the default one, extended with isEmail where a form uses it.

Validators are Dafny functions `(Config, Option<Context>) -> Value -> Value`, where `null` means "valid". A validation pass returns `Ok(errors)` or `Fatal(fault)`:

- `UnknownValidator(name)` models the `invariant` failure for an unknown name.
- `NoIsRequired` models the `TypeError` raised when the active set has no `isRequired`.

Where the code and its documentation disagree, the code is followed:

- `setField` leaves `submitted` as it is.
- `registerSubComponent` merges the raw initial values into `fields`; transforms are applied only by `onChange`.
- isEqual returns `null` for `''` whatever `config.value` is. The expectation at `src/validators/isEqual.spec.js:34` (`''` against `'  '` reports the message) contradicts the guard at `src/validators/isEqual.js:2-4`.

## Model

| member | source | states |
|---|---|---|
| Js.Put | src/Form.js:249-252 | `{ ...o, [k]: v }` on ordered entries: the key set gains `k`, `k` reads `v`, every other key reads as before, existing keys keep their positions, a new key is appended, distinct keys stay distinct |
| Js.FalsyValues | src/Form.js:194 | JavaScript truthiness: the falsy values are exactly `undefined`, `null`, `false`, `0` and `''` |
| Js.ToStr | src/validators/isWhitelisted.js:6 | `String(v)`: a string is itself, a boolean is `'true'` or `'false'`, an integer is its decimal numeral (the digits denote its magnitude) with a leading `-` exactly when negative |
| Js.NatToString | src/validators/isWhitelisted.js:6 | the decimal numeral of a natural number: digits only, no leading zero, and the digits denote the number |
| Js.ToStrNumInjective | src/validators/isWhitelisted.js:6 | distinct integers have distinct `String(...)` spellings |
| Js.Spread | src/Form.js:249-252 | `{ ...a, ...b }`: keys are the union, `a`'s keys keep their positions, distinct keys stay distinct |
| Js.SpreadGet | src/Form.js:249-252 | after `{ ...a, ...b }` a key of `b` reads `b`'s value and any other key reads `a`'s |
| Js.SpreadDisjoint | src/Form.js:249-252 | spreading an object of new keys appends its entries in their order |
| Js.SpreadFresh | src/Form.js:249-252 | spreading distinct keys none of which the object holds is concatenation |
| Js.KeyList | src/Form.js:278 | `Object.keys(o)` lists the keys in entry order, one per entry |
| Js.KeysAt | src/Form.js:278 | a key is a key of an object exactly when some entry holds it |
| Js.ToMap | src/utilities.js:18-29 | the unordered view of an object, in which the map form of `removeFrom` is stated: its keys are the object's and each reads as on the entries |
| Utilities.AreDirty | src/utilities.js:1-13 | `areDirty(original, current)` has exactly the keys of both objects |
| Utilities.AreDirtyAt | src/utilities.js:9 | a key is dirty exactly when the two objects read different values there (absent reads `undefined`) |
| Utilities.AreDirtySelf | src/utilities.js:9 | comparing an object with itself marks every key clean |
| Utilities.AreDirtyOneSided | src/utilities.js:9 | a key held by one object only is dirty unless the value it holds is `undefined` |
| Utilities.GetFirstDefinedValue | src/utilities.js:15-16 | the result is `undefined` exactly when every argument is; otherwise it is the first argument that is not `undefined` (`null` counts as defined) |
| Utilities.FirstDefinedOfTwo | src/utilities.js:15-16 | with two arguments: the first unless it is `undefined` |
| Utilities.RemoveFrom | src/utilities.js:18-29 | `removeFrom(o)(ks)` has the keys of `o` minus `ks`, keeps every retained value, and keeps keys distinct |
| Utilities.RemoveNothing | src/utilities.js:18-29 | removing no key returns the object itself, in order |
| Utilities.RemoveTwice | src/utilities.js:18-29 | removing the same keys twice equals removing them once |
| Utilities.RemoveAbsent | src/utilities.js:18-29 | listing a key the object lacks changes nothing |
| Utilities.RemoveFromAll | src/utilities.js:18-29 | listing every key of an object removes every entry |
| Utilities.RemoveFromNone | src/utilities.js:18-29 | listing only keys the object lacks returns the object, in order |
| Utilities.RemoveKeys | src/utilities.js:18-29 | the same removal on an unordered map: keys minus `ks`, values kept |
| Utilities.RemoveFromAsMap | src/Form.js:285-286 | `removeFrom` on the entries and the map removal used for `dirty` and `fields` keep the same key/value pairs |
| Utilities.RemoveFromAppend | src/utilities.js:19-28 | the removal works entry by entry, so it distributes over concatenation |
| Utilities.RemoveSpread | src/utilities.js:18-29 | spreading new keys into an object and then removing them gives back the object, in its order |
| Utilities.RemoveAdded | src/Form.js:280-281 | adding values under listed keys the map lacks and then removing the listed keys gives back the map |
| Validators.IsEqual | src/validators/isEqual.js:1-22 | the result is `null` or `config.message`, and `''` always passes |
| Validators.IsEqualSpelling | src/validators/isEqual.js:11-18 | for a boolean `config.value`, every value but `''` passes exactly when it is the string `'true'` or `'false'` spelling it, so a boolean field value always fails; for a string `config.value`, a value passes exactly when `String(value)` is that string |
| Validators.IsEqualNumber | src/validators/isEqual.js:7-10 | for a numeric `config.value`, a non-empty value passes exactly when `Number(value)` is that number |
| Validators.IsEqualOtherType | src/validators/isEqual.js:15-18 | an `undefined` or `null` `config.value` fails every non-empty value |
| Validators.Stringify | src/validators/isWhitelisted.js:6 | `list.map(w => String(w))`, entry by entry |
| Validators.ListedAt | src/validators/isWhitelisted.js:6-7 | a value is listed exactly when it is `String(...)` of some entry |
| Validators.IsWhitelisted | src/validators/isWhitelisted.js:1-9 | the result is `null` or the message; `''` passes; a non-empty value fails exactly when it is not in the stringified list |
| Validators.IsBlacklisted | src/validators/isBlacklisted.js:1-9 | the result is `null` or the message; `''` passes; a non-empty value fails exactly when it is in the stringified list |
| Validators.BlacklistIsWhitelistComplement | src/validators/isBlacklisted.js:6-7 | over the same list and a non-empty value, exactly one of isBlacklisted and isWhitelisted reports its message |
| Validators.WhitelistStringifies | src/validators/isWhitelisted.js:6 | the list `[0, false]` admits `'0'` and `'false'` and rejects `'true'` |
| Validators.IsRegexMatch | src/validators/isRegexMatch.js:1-7 | the result is `null` or `config.message` |
| Validators.RegexEmptyIgnoresRegex | src/validators/isRegexMatch.js:2-4 | `''` passes whatever the regex, so no regex is consulted for it |
| Validators.RegexNonEmpty | src/validators/isRegexMatch.js:5 | a non-empty value fails exactly when the regex does not match `String(value)` |
| Validators.VisibleHasNoWhitespace | src/validators/isEmail.js:1 | visible ASCII characters are not matched by `\s` |
| Validators.EmailRegexShape | src/validators/isEmail.js:1 | `/^\S+@\S+$/` matches exactly the strings with no whitespace that have an `'@'` with a character on each side |
| Validators.IsEmail | src/validators/isEmail.js:3-5 | the result is `null` or `config.message` |
| Validators.IsEmailAccepts | src/validators/isEmail.js:1-5 | a value passes exactly when `String(value)` has no whitespace and an interior `'@'` |
| Validators.IsEmailAcceptsVisible | src/validators/isEmail.js:1-5 | a visible-ASCII string with an interior `'@'` passes |
| Validators.IsEmailAcceptsWord | src/validators/__tests__/isEmail.spec.js:14 | `'yolo@swag'` passes |
| Validators.IsEmailAcceptsDigits | src/validators/__tests__/isEmail.spec.js:13 | `'123@456.789'` passes |
| Validators.IsEmailRejectsWhitespace | src/validators/isEmail.js:1-5 | any string containing whitespace fails |
| Validators.IsEmailRejectsNoInteriorAt | src/validators/isEmail.js:1-5 | a string with no `'@'` strictly inside it fails |
| Validators.IsEmailRejectsExamples | src/validators/__tests__/isEmail.spec.js:17-21 | `'@missing.com'`, `'still@'`, `'not an email'` and `'1234567890'` fail |
| Validators.IsEmailRejectsEmpty | src/validators/isEmail.js:3-5 | as written, `''` fails isEmail |
| Validators.IsEmailGuarded | src/validators/__tests__/isEmail.spec.js:7-9 | isEmail with the empty-string guard: `''` passes, any other value gets isEmail's verdict |
| ValidatorsContext.DefaultIsRequired | src/ValidatorsContext.js:5 | the default `isRequired` reports its message exactly for `''` |
| ValidatorsContext.DefaultIsEqualTo | src/ValidatorsContext.js:11 | the default `isEqualTo` reports its message exactly when `value === config.value` |
| ValidatorsContext.IsEqualToInvertsIsEqual | src/ValidatorsContext.js:11 | for a string `config.value` and a non-empty string, the default `isEqualTo` and isEqual give opposite verdicts |
| ValidatorsContext.Defaults | src/ValidatorsContext.js:4-12 | the default set has exactly the five default names; `isRequired` and `isEqualTo` behave as above |
| ValidatorsContext.ProviderState | src/ValidatorsContext.js:26 | the provider's set has every default and every supplied name; a supplied validator wins a collision |
| ValidatorsContext.DerivedState | src/ValidatorsContext.js:17-19 | a new `validators` prop is layered over the state: its entries win, unmentioned entries remain, a missing prop changes nothing |
| ValidatorsContext.DerivedKeepsNames | src/ValidatorsContext.js:17-19 | after any sequence of prop updates no validator name is lost |
| Engine.Run | src/Form.js:192-235 | the per-field reduce: a truthy starting error is returned unchanged; a fault names a listed validator the set lacks; with every name known it does not fault |
| Engine.Resolve | src/Form.js:213-219 | a message string becomes `{ message }` with no `validateIf`; a record is used as it is |
| Engine.ResolveDynamic | src/Form.js:213-214 | a function configuration is called with the context and its result read as a written configuration |
| Engine.Skipped | src/Form.js:221-228 | a validator is switched off exactly when `validateIf` is `false` or a function whose result on the context is falsy |
| Engine.Step | src/Form.js:198-232 | a step faults exactly for an unknown name, with that name; a switched-off validator gives `null`; otherwise the validator is called with the resolved configuration and the context |
| Engine.Required | src/Form.js:186 | `fieldValidators.isRequired` is truthy exactly when the field has an `isRequired` entry other than the message `''`: a non-empty message, a record or a function |
| Engine.FirstErrorReturned | src/Form.js:192-235 | when every validator before position `i` ran and passed and the one at `i` gives a truthy error, that error is the reduce's result |
| Engine.RunPasses | src/Form.js:192-235 | the reduce ends without a truthy error exactly when every validator ran and passed or was skipped; the error is then the last validator's result |
| Engine.RunAppend | src/Form.js:192-235 | the reduce over two lists is the reduce over the second, started from the first one's result |
| Engine.ShortCircuit | src/Form.js:194-196 | once a truthy error is produced, no later validator is consulted |
| Engine.FirstErrorWins | src/Form.js:192-232 | a truthy field error comes from the first validator, in declared order, that gave one; every validator before it was known and passed or was skipped |
| Engine.SkippedContributesNull | src/Form.js:221-228 | a validator switched off by `validateIf` contributes `null` |
| Engine.UnknownNameBeatsValidateIf | src/Form.js:198-205 | an unknown name is fatal even where its configuration would switch it off |
| Engine.FirstUnknownFaults | src/Form.js:198-205 | the `invariant` names the first unknown validator the reduce reaches: after validators that left a falsy error, an unknown name faults with that name, whatever follows |
| Engine.FieldContext | src/Form.js:207-211 | the context holds all fields, the previous state's errors overridden by those computed so far in this pass, and the field's dirty flag (`undefined` for a field without one) |
| Engine.OptionalSkipsAll | src/Form.js:184-190 | a field without `isRequired` whose value the active `isRequired` rejects has no error, whatever its other validators are |
| Engine.ValidateField | src/Form.js:175-236 | `validateField` raises the missing-`isRequired` fault exactly for an optional field in a set without `isRequired`; the remaining cases are the lemmas `Engine.OptionalSkipsAll`, `Engine.ValidateFieldRuns` and the three that follow it |
| Engine.ValidateFieldRuns | src/Form.js:184-236 | a field that has `isRequired`, or whose value passes the active `isRequired`, gets the reduce over its validators, from `null`, in its context |
| Engine.ValidateFieldError | src/Form.js:184-236 | a truthy field error comes from a field not skipped as optional, and is the result of its first validator that gives a truthy error; every one before it ran and passed |
| Engine.ValidateFieldFirstError | src/Form.js:184-236 | conversely, in a field not skipped as optional, the first validator giving a truthy error after validators that all passed decides the field's error |
| Engine.ValidateFieldPasses | src/Form.js:184-236 | in a field not skipped as optional, the error is falsy exactly when every validator ran and passed or was skipped; when every validator gives `null`, the error is `null` |
| Engine.FieldLoop | src/Form.js:160-173 | the reduce over the fields yields an entry for every configured field and keeps every other entry it started from |
| Engine.ValidateFieldKnown | src/Form.js:184-236 | a field whose validator names are all known, in a set with `isRequired`, validates without fault |
| Engine.ValidateFieldUnknown | src/Form.js:184-205 | a field-level fault is a missing `isRequired` or names a validator the field uses and the set lacks |
| Engine.FieldLoopKnown | src/Form.js:160-173 | the pass does not fault when every name is known |
| Engine.FieldLoopUnknown | src/Form.js:160-205 | a pass fault is a missing `isRequired` or names a validator some field uses and the set lacks |
| Engine.Validate | src/Form.js:160-173 | `validate` returns errors for exactly the configured fields, whatever the values |
| Engine.ValidateFaults | src/Form.js:160-205 | the pass faults only on a configuration error, and never when every name is known |
| Engine.ErrorsBefore | src/Form.js:168 | the errors of the fields declared before a position |
| Engine.ValidateSeesEarlierErrors | src/Form.js:160-173 | fields are validated in declaration order; each sees the previous state's errors and exactly the errors of the fields declared before it |
| Engine.FieldLoopSeesEarlier | src/Form.js:160-173 | the same, for a reduce started from some errors |
| Engine.FieldLoopStep | src/Form.js:161-171 | a successful pass validates the first field and goes on over the rest with its error recorded |
| Engine.FieldLoopHead | src/Form.js:161-171 | the first field sees only the starting errors, and its error survives the rest of the pass |
| FormState.InitialState | src/Form.js:31-37 | the initial state: empty config, dirty flags, errors and fields; not submitted |
| FormState.ContextOf | src/Form.js:42-56 | `isValid` is true exactly when every error is `null`; the other data is the state's |
| FormState.MarkDirty | src/Form.js:132-143 | a field in `diff` is dirty when it already was or its new value is not its initial value; other flags are kept |
| FormState.SetFieldUpdate | src/Form.js:129-150 | `fields` is overridden by `diff`, `dirty` follows `MarkDirty`, errors cover the configuration, `config` and `submitted` are untouched; only a configuration error faults |
| FormState.SetFieldValidates | src/Form.js:146 | `setField` faults exactly when validating the new fields and flags faults, and its errors are that validation's result |
| FormState.SetFieldConsistent | src/Form.js:129-150 | `setField` keeps distinct field names and a dirty flag and an error for every configured field |
| FormState.SetFieldMergesFields | src/Form.js:131 | `setField` overrides exactly the fields in `diff` and keeps every other value |
| FormState.SetFieldDirtyMonotone | src/Form.js:137-139 | under `setField` a dirty flag never goes back to false, and a field set to a value other than its initial one becomes dirty |
| FormState.SetFields | src/Form.js:129-150 | a sequence of `setField` calls keeps `config` and `submitted`, and keeps the state consistent |
| FormState.DirtyStaysDirty | src/Form.js:137-139 | over any number of `setField` calls a dirty field stays dirty |
| FormState.SetErrorUpdate | src/Form.js:120-127 | `setError` overwrites only the given error entries and leaves `config`, `dirty`, `fields` and `submitted` alone |
| FormState.SetErrorUntilNextPass | src/Form.js:120-127 | a hand-set error for a field outside the configuration is gone after the next `setField` |
| FormState.ResetUpdate | src/Form.js:76-108 | `onReset` keeps every key set; each field goes to its initial value, each flag to false, each error to `null`, and `submitted` to false |
| FormState.ResetIsValid | src/Form.js:90-96 | after a reset the form is valid |
| FormState.ResetIdempotent | src/Form.js:76-108 | resetting twice is resetting once |
| FormState.ResetThenInitialIsClean | src/Form.js:76-150 | after a reset, setting fields back to their initial values leaves every flag clean |
| FormState.Clean | src/Form.js:255-261 | all flags false, for the keys of the sub-configuration |
| FormState.RegisterUpdate | src/Form.js:248-274 | registration spreads the sub-configuration into `config`, marks its fields clean, merges the raw initial values into `fields` and has errors for exactly the new configuration |
| FormState.RegisterSpreadsConfig | src/Form.js:249-252 | after registration earlier fields keep their positions, a field of the sub-configuration reads its new validators and every other field its old ones |
| FormState.RegisterCleansSubFields | src/Form.js:253-262 | registration clears the flag of every field it names and keeps every other flag |
| FormState.RegisterValidates | src/Form.js:271 | registration faults exactly when validating the new configuration faults, and its errors are that validation's result |
| FormState.RegisterConsistent | src/Form.js:248-274 | registration keeps the form consistent |
| FormState.UnregisterUpdate | src/Form.js:283-294 | unregistration removes the sub-configuration's keys from `config` (order kept), `dirty` and `fields`, and leaves errors for exactly the remaining fields |
| FormState.RemoveKeepsNames | src/Form.js:284 | removing fields from a configuration with only known names leaves only known names |
| FormState.UnregisterRemovesExactly | src/Form.js:277-295 | unregistration removes exactly the given keys and keeps every other entry and its value |
| FormState.UnregisterValidates | src/Form.js:291 | unregistration faults exactly when validating the remaining configuration faults, and its errors are that validation's result |
| FormState.UnregisterConsistent | src/Form.js:277-295 | unregistration keeps the form consistent |
| FormState.RegisterUnregisterRoundTrip | src/Form.js:238-295 | registering new fields and unregistering them again restores `config` in its order, `dirty`, `fields` and `submitted` |
| FormState.EventValue | src/Form.js:67 | the target's `checked` for a checkbox, its `value` otherwise |
| FormState.ChangeValue | src/Form.js:67-71 | the event value, passed through the field's transform when that is a function |
| FormState.Form.constructor | src/Form.js:31-40 | a new form is in the initial state with empty `initialValues` and `transforms` |
| FormState.Form.SetField | src/Form.js:129-150 | applies the `setField` updater, or leaves the state as it was on a fault, and keeps the form consistent |
| FormState.Form.OnChange | src/Form.js:58-74 | does nothing when the default was prevented or the name is not configured; otherwise `setField` with the transformed value |
| FormState.Form.OnReset | src/Form.js:76-108 | applies the reset updater |
| FormState.Form.OnSubmit | src/Form.js:110-118 | sets `submitted` and changes nothing else |
| FormState.Form.SetError | src/Form.js:120-127 | applies the `setError` updater |
| FormState.Form.RegisterSubComponent | src/Form.js:238-275 | merges `initialValues` and `transforms` into the instance maps, then applies the registration updater |
| FormState.Form.UnregisterSubComponent | src/Form.js:277-295 | removes the keys from `initialValues` and `transforms`, then applies the unregistration updater |
| Validation.GetFields | src/Validation.js:25-36 | `getFields(source)` has exactly the configured keys; each holds `source`'s value when defined, else `''` |
| Validation.GetFieldsDefined | src/Validation.js:25-36 | no padded field is `undefined` |
| Validation.ChildArgsOf | src/Validation.js:65-74 | the render arguments pass `errors` unfiltered and pad and filter `fields` to the configuration |
| Validation.AsTransforms | src/Validation.js:40 | values placed in the `transforms` slot are not functions |
| Validation.Mount | src/Validation.js:38-41 | as written: the padded values land in `transforms`; `initialValues` and `fields` gain nothing |
| Validation.MountIntended | src/Form.js:238-275 | with the padded values as initial values, every configured field has a defined value after mounting |
| Validation.Unmount | src/Validation.js:48-50 | unregisters the component's configuration; its keys leave the form |
| Scenarios.UsernameField | src/__tests__/integration-tests.spec.js:34-37 | under the default set, a required username field reports its message exactly for `''` |
| Scenarios.ProviderlessRegisterFaults | src/ValidatorsContext.js:14 | outside any provider the form's set is `{}`, and registering the username configuration faults on `isRequired` whatever the initial values |
| Scenarios.DefaultsLackIsEmail | src/ValidatorsContext.js:4-12 | the default set has no isEmail, so the email configuration faults on `isEmail` once `isRequired` has passed |
| Scenarios.UsernameLoop | src/__tests__/integration-tests.spec.js:34-37 | validating the username configuration gives that one error |
| Scenarios.RegisterUsername | src/Form.js:248-274 | registering the username configuration validates it against the given initial values |
| Scenarios.MountAsWrittenMissesRequired | src/__tests__/integration-tests.spec.js:45-58 | as written, mounting leaves the required empty username with no error |
| Scenarios.MountIntendedReportsRequired | src/__tests__/integration-tests.spec.js:45-58 | with the padded values as initial values, mounting reports `'username required'` |
| Scenarios.EmptyEmailReportsRequired | src/__tests__/integration-tests.spec.js:131-135 | with isEmail supplied, an empty required email reports `'email required'` and isEmail is not reached |
| Scenarios.InvalidEmailReportsEmail | src/__tests__/integration-tests.spec.js:76-81 | with isEmail supplied, `'an invalid email'` reports `'email invalid'` |
| Scenarios.OptionalEmptyEmailSkipped | src/Form.js:184-190 | an optional empty email has no error although isEmail alone rejects `''` |
| Scenarios.ValidateIfLongUsername | src/__tests__/integration-tests.spec.js:364-379 | a long username turns the email's `isRequired` on |
| Scenarios.ValidateIfShortUsername | src/__tests__/integration-tests.spec.js:381-398 | a short username switches it off |

## Left out

- Rendering and context transport are not modelled: `render`, `FormProvider`, `withFormContext` and `withValidators` (`src/ValidatorsContext.js:34-43`). They carry no logic.
- The integration tests render their forms with no `ValidatorsProvider`. The form then receives the context's default `{}` (`src/ValidatorsContext.js:14`), and every pass faults on its first validator name (`Scenarios.ProviderlessRegisterFaults`). isEmail is not in the default set either (`Scenarios.DefaultsLackIsEmail`). The scenarios therefore assume a provider that supplies the default set, plus isEmail where a form uses it. The set the tests intend is not recorded in the code, so it is not modelled as a finding.
- `src/FormValidation.js` is not part of this model. It is JSX composition of `Form` and `Validation`.
- React batching is not modelled. Each `setState` updater is applied at once, to the state before it. The context's `this.state.errors` is taken to be that state's errors.
- The `onUpdate`, `onChange`, `onReset` and `onSubmit` prop callbacks and `preventDefault` are not modelled. They are host-framework calls with no effect on the state.
- An updater that throws (an unknown validator name, a set without `isRequired`) leaves the state as it was and returns the fault. The instance maps that `registerSubComponent` and `unregisterSubComponent` assign before `setState` stay assigned.
- `isNumber`, `isGreaterThan` and `isLessThan` are parameters of the default set (`ValidatorsContext.NumericValidators`). They rest on JavaScript's numeric coercion and floating point.
- `Validators.IsEqual`'s number branch takes `Number(value)` as a parameter. Numbers are integers only.
- `Validators.IsRegexMatch` takes `config.regex.test` as an uninterpreted predicate on `String(value)`. No regex engine is modelled.
- A `config.whitelist`, `blacklist` or `regex` left undefined (a `TypeError` in the source) is modelled as an empty list or a predicate that is always false.
- `Validators.IsEmail` models `EMAIL_REGEXP` directly over characters. `\s` is JavaScript's whitespace set, and strings are sequences of characters with no surrogate handling.
- Entries are kept in insertion order. JavaScript puts integer-like keys first; that ordering is not modelled.
- Prototype keys such as `toString` are not modelled. A key is present only when it was set.
- `FormState.Form` has `validators` as a constant, fixed at construction. Prop changes that would swap the active set are reflected only through `ValidatorsContext.DerivedState`.
- `Validation.Mount`, `Validation.MountIntended` and `Validation.Unmount` are modelled as calls into a `Form` object. The component itself, and its commented-out `componentWillReceiveProps`, are not modelled.

## Findings

| source | as written | input that shows it | evidently intended | confidence | as-written member | corrected member |
|---|---|---|---|---|---|---|
| src/validators/isEmail.js:3-5 | the regex is tested on every value, `''` included, so `''` reports the message | `isEmail({ message })('')` returns `message`; `src/validators/__tests__/isEmail.spec.js:7-9` expects `null` | an empty-string guard like the other validators', so `''` passes | not executed | Validators.IsEmailRejectsEmpty | Validators.IsEmailGuarded |
| src/Validation.js:40 | `register(config, getFields(initialValues))` passes the padded values in the `transforms` position of `registerSubComponent(config, transforms, initialValues)` (`src/Form.js:238`) | a fresh form with `{ username: { isRequired: 'username required' } }`, rendered inside a `ValidatorsProvider`: after mount `fields.username` is `undefined`, `isRequired` passes it, and the error is `null`; `src/__tests__/integration-tests.spec.js:45-58` expects `'username required'` | the padded values passed as initial values, so every configured field starts at `''` or its initial value | not executed | Scenarios.MountAsWrittenMissesRequired | Scenarios.MountIntendedReportsRequired |
