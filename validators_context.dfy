/** The default validator set of `src/ValidatorsContext.js` and the way the
    provider layers custom validators over it. */
module ValidatorsContext {
  import opened Js
  import opened ValidatorTypes
  import Validators

  /** The default `isRequired`: the message exactly for the empty string. */
  function DefaultIsRequired(config: Config, value: Value): (r: Value)
    ensures value == Str("") ==> r == config.message
    ensures value != Str("") ==> r == Null
  {
    if value == Str("") then config.message else Null
  }

  /** The default `isEqualTo`: the message exactly when the value is
      `config.value` (`===`). */
  function DefaultIsEqualTo(config: Config, value: Value): (r: Value)
    ensures value == config.value ==> r == config.message
    ensures value != config.value ==> r == Null
  {
    if value == config.value then config.message else Null
  }

  /** The default `isEqualTo` reports the opposite of the isEqual validator
      for a string `config.value` and a non-empty string: it fails the equal
      string and passes every other. */
  lemma IsEqualToInvertsIsEqual(number: Value -> Option<int>, config: Config, s: string)
    requires config.value.Str? && s != "" && config.message != Null
    ensures (DefaultIsEqualTo(config, Str(s)) == Null) != (Validators.IsEqual(number, config, Str(s)) == Null)
  {
    Validators.IsEqualSpelling(number, config, Str(s));
  }

  /** The number-based defaults (`isNumber`, `isGreaterThan`, `isLessThan`)
      depend on JavaScript's numeric coercion; they are given, not defined. */
  datatype NumericValidators = NumericValidators(isNumber: Validator, isGreaterThan: Validator, isLessThan: Validator)

  const DefaultNames: set<string> := {"isRequired", "isNumber", "isGreaterThan", "isLessThan", "isEqualTo"}

  /** `defaultValidators`. */
  function Defaults(numeric: NumericValidators): (r: map<string, Validator>)
    ensures r.Keys == DefaultNames
    ensures forall c, ctx, v :: r["isRequired"](c, ctx)(v) == DefaultIsRequired(c, v)
    ensures forall c, ctx, v :: r["isEqualTo"](c, ctx)(v) == DefaultIsEqualTo(c, v)
  {
    map[
      "isRequired" := (c: Config, ctx: Option<Context>) => (v: Value) => DefaultIsRequired(c, v),
      "isNumber" := numeric.isNumber,
      "isGreaterThan" := numeric.isGreaterThan,
      "isLessThan" := numeric.isLessThan,
      "isEqualTo" := (c: Config, ctx: Option<Context>) => (v: Value) => DefaultIsEqualTo(c, v)
    ]
  }

  /** The provider's initial state `{ ...defaultValidators, ...validators }`:
      every default name and every supplied name; a supplied validator wins a
      name collision. */
  function ProviderState(numeric: NumericValidators, supplied: map<string, Validator>): (r: map<string, Validator>)
    ensures r.Keys == DefaultNames + supplied.Keys
    ensures forall k :: k in supplied ==> r[k] == supplied[k]
    ensures forall k :: k in DefaultNames && k !in supplied ==> r[k] == Defaults(numeric)[k]
  {
    Defaults(numeric) + supplied
  }

  /** `getDerivedStateFromProps`: a new `validators` prop (when it is not
      `null` or `undefined`) is layered over the current state; its entries
      win and every entry it does not mention remains. */
  function DerivedState(state: map<string, Validator>, next: Option<map<string, Validator>>): (r: map<string, Validator>)
    ensures next.None? ==> r == state
    ensures next.Some? ==> r.Keys == state.Keys + next.value.Keys
    ensures next.Some? ==> forall k :: k in next.value ==> r[k] == next.value[k]
    ensures forall k :: k in state && (next.None? || k !in next.value) ==> r[k] == state[k]
  {
    if next.Some? then state + next.value else state
  }

  /** Layering never loses a validator name: after any sequence of prop
      updates the set still holds every default name. */
  lemma {:induction false} DerivedKeepsNames(state: map<string, Validator>, updates: seq<Option<map<string, Validator>>>)
    ensures Layered(state, updates).Keys >= state.Keys
    decreases |updates|
  {
    if updates != [] {
      DerivedKeepsNames(DerivedState(state, updates[0]), updates[1..]);
    }
  }

  /** The state after a sequence of `validators` prop updates. */
  function Layered(state: map<string, Validator>, updates: seq<Option<map<string, Validator>>>): map<string, Validator>
    decreases |updates|
  {
    if updates == [] then state else Layered(DerivedState(state, updates[0]), updates[1..])
  }
}
