/** The state machine of class `Form` in `src/Form.js`: the React state
    `{ config, dirty, errors, fields, submitted }`, the instance fields
    `initialValues` and `transforms`, and the handlers that update them. Each
    handler's `setState` updater is a pure function from the state it starts
    from; the class applies it at once. */
module FormState {
  import opened Js
  import opened Utilities
  import opened ValidatorTypes
  import opened Engine

  /** The React state of the form. `config` keeps its declaration order,
      which is the order fields are validated in. */
  datatype State = State(
    config: FormConfig,
    dirty: map<string, bool>,
    errors: map<string, Value>,
    fields: map<string, Value>,
    submitted: bool)

  /** The initial state: nothing registered, nothing submitted. */
  function InitialState(): (s: State)
    ensures s.config == [] && s.dirty == map[] && s.errors == map[] && s.fields == map[] && !s.submitted
  {
    State([], map[], map[], map[], false)
  }

  /** An entry of `transforms`: a function, which `onChange` applies, or any
      other value, which it ignores. */
  datatype Transform = Fn(f: Value -> Value) | Inert(v: Value)

  /** What the form keeps consistent between updates: distinct field names,
      and a dirty flag and an error entry for every configured field. */
  ghost predicate Consistent(s: State) {
    && DistinctKeys(s.config)
    && Keys(s.config) <= s.dirty.Keys
    && Keys(s.config) <= s.errors.Keys
  }

  // ---------------------------------------------------------------------
  // getContext

  /** The part of `getContext()` that is data; the callbacks are the class's
      methods. */
  datatype FormContext = FormContext(
    dirty: map<string, bool>,
    errors: map<string, Value>,
    fields: map<string, Value>,
    isValid: bool,
    submitted: bool)

  /** `getContext()`: the form is valid exactly when every error is `null`. */
  function ContextOf(s: State): (c: FormContext)
    ensures c.isValid <==> forall k :: k in s.errors ==> s.errors[k] == Null
    ensures c.dirty == s.dirty && c.errors == s.errors && c.fields == s.fields && c.submitted == s.submitted
  {
    FormContext(s.dirty, s.errors, s.fields, forall k :: k in s.errors ==> s.errors[k] == Null, s.submitted)
  }

  // ---------------------------------------------------------------------
  // setField

  /** The dirty flags after `setField(diff)`: a field in `diff` is dirty when
      it already was or its new value differs (`!==`) from its initial value;
      every other flag is kept. */
  function MarkDirty(dirty: map<string, bool>, initialValues: map<string, Value>, diff: map<string, Value>): (r: map<string, bool>)
    ensures r.Keys == dirty.Keys + diff.Keys
    ensures forall k :: k in diff ==> (r[k] <==> (k in dirty && dirty[k]) || diff[k] != Read(initialValues, k))
    ensures forall k :: k in dirty && k !in diff ==> r[k] == dirty[k]
  {
    dirty + map k | k in diff :: (k in dirty && dirty[k]) || diff[k] != Read(initialValues, k)
  }

  /** The updater of `setField(diff)`. The new values are merged into the
      fields, the dirty flags are updated, and the whole form is validated;
      the configuration and `submitted` are untouched. The pass faults only
      when the configuration names an unknown validator or the active set
      lacks `isRequired`. */
  function SetFieldUpdate(validators: map<string, Validator>, s: State, initialValues: map<string, Value>,
                          diff: map<string, Value>): (r: Outcome<State>)
    ensures r.Ok? ==> r.value.config == s.config && r.value.submitted == s.submitted
    ensures r.Ok? ==> r.value.fields == s.fields + diff && r.value.dirty == MarkDirty(s.dirty, initialValues, diff)
    ensures r.Ok? ==> r.value.errors.Keys == Keys(s.config)
    ensures KnownNames(validators, s.config) ==> r.Ok?
  {
    var fields := s.fields + diff;
    var dirty := MarkDirty(s.dirty, initialValues, diff);
    ValidateFaults(validators, s.config, fields, dirty, s.errors);
    match Validate(validators, s.config, fields, dirty, s.errors)
    case Fatal(f) => Fatal(f)
    case Ok(errors) => Ok(s.(dirty := dirty, errors := errors, fields := fields))
  }

  /** `setField` validates the whole form again over the merged fields and
      the new dirty flags: it fails exactly when that validation fails, and
      the new errors are what it computes. */
  lemma SetFieldValidates(validators: map<string, Validator>, s: State, initialValues: map<string, Value>,
                          diff: map<string, Value>)
    ensures var v := Validate(validators, s.config, s.fields + diff, MarkDirty(s.dirty, initialValues, diff), s.errors);
      var r := SetFieldUpdate(validators, s, initialValues, diff);
      && (r.Ok? <==> v.Ok?)
      && (r.Ok? ==> r.value.errors == v.value)
      && (r.Fatal? ==> r.fault == v.fault)
  {
  }

  /** `setField` keeps the form consistent. */
  lemma SetFieldConsistent(validators: map<string, Validator>, s: State, initialValues: map<string, Value>,
                           diff: map<string, Value>)
    requires Consistent(s) && SetFieldUpdate(validators, s, initialValues, diff).Ok?
    ensures Consistent(SetFieldUpdate(validators, s, initialValues, diff).value)
  {
  }

  /** `setField` overrides exactly the fields in `diff`. */
  lemma SetFieldMergesFields(validators: map<string, Validator>, s: State, initialValues: map<string, Value>,
                             diff: map<string, Value>)
    requires SetFieldUpdate(validators, s, initialValues, diff).Ok?
    ensures var t := SetFieldUpdate(validators, s, initialValues, diff).value;
      && t.fields.Keys == s.fields.Keys + diff.Keys
      && (forall k :: k in diff ==> t.fields[k] == diff[k])
      && (forall k :: k in s.fields && k !in diff ==> t.fields[k] == s.fields[k])
  {
  }

  /** Dirty flags only ever turn on under `setField`: a dirty field stays
      dirty, and a field given a value other than its initial one becomes
      dirty. */
  lemma SetFieldDirtyMonotone(validators: map<string, Validator>, s: State, initialValues: map<string, Value>,
                              diff: map<string, Value>, k: string)
    requires SetFieldUpdate(validators, s, initialValues, diff).Ok?
    ensures var t := SetFieldUpdate(validators, s, initialValues, diff).value;
      && (k in s.dirty && s.dirty[k] ==> k in t.dirty && t.dirty[k])
      && (k in diff && diff[k] != Read(initialValues, k) ==> k in t.dirty && t.dirty[k])
      && (k in diff ==> k in t.dirty)
  {
  }

  /** A sequence of `setField` calls, stopping at the first fault. */
  function SetFields(validators: map<string, Validator>, s: State, initialValues: map<string, Value>,
                     diffs: seq<map<string, Value>>): (r: Outcome<State>)
    ensures r.Ok? ==> r.value.config == s.config && r.value.submitted == s.submitted
    ensures r.Ok? && Consistent(s) ==> Consistent(r.value)
    decreases |diffs|
  {
    if diffs == [] then Ok(s)
    else
      match SetFieldUpdate(validators, s, initialValues, diffs[0])
      case Fatal(f) => Fatal(f)
      case Ok(t) => SetFields(validators, t, initialValues, diffs[1..])
  }

  /** Over any number of `setField` calls, a dirty field stays dirty: only
      reset and (re)registration clear a flag. */
  lemma {:induction false} DirtyStaysDirty(validators: map<string, Validator>, s: State, initialValues: map<string, Value>,
                                           diffs: seq<map<string, Value>>, k: string)
    requires k in s.dirty && s.dirty[k]
    requires SetFields(validators, s, initialValues, diffs).Ok?
    ensures var t := SetFields(validators, s, initialValues, diffs).value; k in t.dirty && t.dirty[k]
    decreases |diffs|
  {
    if diffs != [] {
      SetFieldDirtyMonotone(validators, s, initialValues, diffs[0], k);
      var t := SetFieldUpdate(validators, s, initialValues, diffs[0]).value;
      DirtyStaysDirty(validators, t, initialValues, diffs[1..], k);
    }
  }

  // ---------------------------------------------------------------------
  // setError, onSubmit

  /** The updater of `setError(diff)`: the given errors are merged over the
      current ones, with no validation; everything else is untouched. */
  function SetErrorUpdate(s: State, diff: map<string, Value>): (r: State)
    ensures r.errors.Keys == s.errors.Keys + diff.Keys
    ensures forall k :: k in diff ==> r.errors[k] == diff[k]
    ensures forall k :: k in s.errors && k !in diff ==> r.errors[k] == s.errors[k]
    ensures r.config == s.config && r.dirty == s.dirty && r.fields == s.fields && r.submitted == s.submitted
    ensures Consistent(s) ==> Consistent(r)
  {
    s.(errors := s.errors + diff)
  }

  /** An error set by hand lasts only until the next validation pass: after
      a `setField`, the errors are exactly the configured fields' results, so
      one set for a field outside the configuration is gone. */
  lemma SetErrorUntilNextPass(validators: map<string, Validator>, s: State, initialValues: map<string, Value>,
                              manual: map<string, Value>, diff: map<string, Value>, k: string)
    requires k in manual && k !in Keys(s.config)
    requires SetFieldUpdate(validators, SetErrorUpdate(s, manual), initialValues, diff).Ok?
    ensures k in SetErrorUpdate(s, manual).errors
    ensures k !in SetFieldUpdate(validators, SetErrorUpdate(s, manual), initialValues, diff).value.errors
  {
  }

  // ---------------------------------------------------------------------
  // onReset

  /** The updater of `onReset`: every field present goes back to its initial
      value (`undefined` when it has none), every dirty flag is cleared, every
      error becomes `null`, and the form is no longer submitted. The keys of
      each object and the configuration are kept. */
  function ResetUpdate(s: State, initialValues: map<string, Value>): (r: State)
    ensures r.config == s.config && !r.submitted
    ensures r.dirty.Keys == s.dirty.Keys && forall k :: k in r.dirty ==> !r.dirty[k]
    ensures r.errors.Keys == s.errors.Keys && forall k :: k in r.errors ==> r.errors[k] == Null
    ensures r.fields.Keys == s.fields.Keys && forall k :: k in r.fields ==> r.fields[k] == Read(initialValues, k)
    ensures Consistent(s) ==> Consistent(r)
  {
    State(
      s.config,
      map k | k in s.dirty :: false,
      map k | k in s.errors :: Null,
      map k | k in s.fields :: Read(initialValues, k),
      false)
  }

  /** After a reset the form is valid. */
  lemma ResetIsValid(s: State, initialValues: map<string, Value>)
    ensures ContextOf(ResetUpdate(s, initialValues)).isValid
  {
  }

  /** Resetting twice is resetting once. */
  lemma ResetIdempotent(s: State, initialValues: map<string, Value>)
    ensures ResetUpdate(ResetUpdate(s, initialValues), initialValues) == ResetUpdate(s, initialValues)
  {
  }

  /** After a reset, setting fields back to their initial values leaves every
      field clean. */
  lemma ResetThenInitialIsClean(validators: map<string, Validator>, s: State, initialValues: map<string, Value>,
                                diff: map<string, Value>)
    requires forall k :: k in diff ==> diff[k] == Read(initialValues, k)
    requires SetFieldUpdate(validators, ResetUpdate(s, initialValues), initialValues, diff).Ok?
    ensures var t := SetFieldUpdate(validators, ResetUpdate(s, initialValues), initialValues, diff).value;
      forall k :: k in t.dirty ==> !t.dirty[k]
  {
  }

  // ---------------------------------------------------------------------
  // registerSubComponent, unregisterSubComponent

  /** All flags `false`, for the keys of `sub`. */
  function Clean(sub: FormConfig): (r: map<string, bool>)
    ensures r.Keys == Keys(sub) && forall k :: k in r ==> !r[k]
  {
    map k | k in Keys(sub) :: false
  }

  /** The updater of `registerSubComponent(sub, transforms, initialValues)`.
      The sub-configuration is spread over the configuration (a known field
      keeps its position and takes the new validators; a new field is
      appended), its fields become clean, the given initial values are merged
      into the fields as they are, and the whole form is validated. */
  function RegisterUpdate(validators: map<string, Validator>, s: State, sub: FormConfig,
                          initialValues: map<string, Value>): (r: Outcome<State>)
    ensures r.Ok? ==> r.value.config == Spread(s.config, sub) && r.value.submitted == s.submitted
    ensures r.Ok? ==> r.value.dirty == s.dirty + Clean(sub) && r.value.fields == s.fields + initialValues
    ensures r.Ok? ==> r.value.errors.Keys == Keys(s.config) + Keys(sub)
    ensures KnownNames(validators, Spread(s.config, sub)) ==> r.Ok?
  {
    var config := Spread(s.config, sub);
    var dirty := s.dirty + Clean(sub);
    var fields := s.fields + initialValues;
    ValidateFaults(validators, config, fields, dirty, s.errors);
    match Validate(validators, config, fields, dirty, s.errors)
    case Fatal(f) => Fatal(f)
    case Ok(errors) => Ok(State(config, dirty, errors, fields, s.submitted))
  }

  /** Registration spreads the sub-configuration over the configuration:
      every earlier field keeps its position, a field of `sub` reads `sub`'s
      validators and any other field its old ones. */
  lemma RegisterSpreadsConfig(validators: map<string, Validator>, s: State, sub: FormConfig,
                              initialValues: map<string, Value>, k: string)
    requires DistinctKeys(sub) && RegisterUpdate(validators, s, sub, initialValues).Ok?
    ensures var t := RegisterUpdate(validators, s, sub, initialValues).value;
      && Keys(t.config) == Keys(s.config) + Keys(sub)
      && (forall i :: 0 <= i < |s.config| ==> t.config[i].0 == s.config[i].0)
      && Get(t.config, k) == if k in Keys(sub) then Get(sub, k) else Get(s.config, k)
  {
    SpreadGet(s.config, sub, k);
  }

  /** Registration makes the sub-configuration's fields clean and keeps
      every other dirty flag. */
  lemma RegisterCleansSubFields(validators: map<string, Validator>, s: State, sub: FormConfig,
                                initialValues: map<string, Value>, k: string)
    requires RegisterUpdate(validators, s, sub, initialValues).Ok?
    ensures var t := RegisterUpdate(validators, s, sub, initialValues).value;
      && t.dirty.Keys == s.dirty.Keys + Keys(sub)
      && (k in Keys(sub) ==> !t.dirty[k])
      && (k in s.dirty && k !in Keys(sub) ==> t.dirty[k] == s.dirty[k])
  {
  }

  /** Registration validates the whole form again under the spread
      configuration: it fails exactly when that validation fails, and the new
      errors are what it computes. */
  lemma RegisterValidates(validators: map<string, Validator>, s: State, sub: FormConfig,
                          initialValues: map<string, Value>)
    ensures var v := Validate(validators, Spread(s.config, sub), s.fields + initialValues, s.dirty + Clean(sub), s.errors);
      var r := RegisterUpdate(validators, s, sub, initialValues);
      && (r.Ok? <==> v.Ok?)
      && (r.Ok? ==> r.value.errors == v.value)
      && (r.Fatal? ==> r.fault == v.fault)
  {
  }

  /** Registration keeps the form consistent. */
  lemma RegisterConsistent(validators: map<string, Validator>, s: State, sub: FormConfig,
                           initialValues: map<string, Value>)
    requires Consistent(s) && RegisterUpdate(validators, s, sub, initialValues).Ok?
    ensures Consistent(RegisterUpdate(validators, s, sub, initialValues).value)
  {
  }

  /** The updater of `unregisterSubComponent(sub)`: the fields of `sub` leave
      the configuration (the others keep their order), the dirty flags and
      the fields; the form is validated again, so their errors leave too. */
  function UnregisterUpdate(validators: map<string, Validator>, s: State, sub: FormConfig): (r: Outcome<State>)
    ensures r.Ok? ==> r.value.config == RemoveFrom(s.config, KeyList(sub)) && r.value.submitted == s.submitted
    ensures r.Ok? ==> r.value.dirty == RemoveKeys(s.dirty, KeyList(sub)) && r.value.fields == RemoveKeys(s.fields, KeyList(sub))
    ensures r.Ok? ==> r.value.errors.Keys == Keys(s.config) - Keys(sub)
    ensures KnownNames(validators, s.config) ==> r.Ok?
  {
    var ks := KeyList(sub);
    assert (set k | k in ks) == Keys(sub);
    var config := RemoveFrom(s.config, ks);
    var dirty := RemoveKeys(s.dirty, ks);
    var fields := RemoveKeys(s.fields, ks);
    assert KnownNames(validators, s.config) ==> KnownNames(validators, config) by {
      if KnownNames(validators, s.config) { RemoveKeepsNames(validators, s.config, ks); }
    }
    ValidateFaults(validators, config, fields, dirty, s.errors);
    match Validate(validators, config, fields, dirty, s.errors)
    case Fatal(f) => Fatal(f)
    case Ok(errors) => Ok(State(config, dirty, errors, fields, s.submitted))
  }

  /** Removing fields from a configuration whose names are all known leaves
      one whose names are all known. */
  lemma {:induction false} RemoveKeepsNames(validators: map<string, Validator>, config: FormConfig, ks: seq<string>)
    requires KnownNames(validators, config)
    ensures KnownNames(validators, RemoveFrom(config, ks))
  {
    if config != [] {
      forall i, j | 0 <= i < |config[1..]| && 0 <= j < |config[1..][i].1|
        ensures config[1..][i].1[j].0 in validators
      {
        assert config[1..][i] == config[i + 1];
      }
      RemoveKeepsNames(validators, config[1..], ks);
      var rest := RemoveFrom(config[1..], ks);
      if config[0].0 !in ks {
        var r := [config[0]] + rest;
        forall i, j | 0 <= i < |r| && 0 <= j < |r[i].1| ensures r[i].1[j].0 in validators {
          if i > 0 { assert r[i] == rest[i - 1]; }
        }
      }
    }
  }

  /** Unregistration removes exactly the keys of `sub` from the
      configuration, the dirty flags and the fields, and keeps every other
      entry and its value. */
  lemma UnregisterRemovesExactly(validators: map<string, Validator>, s: State, sub: FormConfig, k: string)
    requires UnregisterUpdate(validators, s, sub).Ok?
    ensures var t := UnregisterUpdate(validators, s, sub).value;
      && Keys(t.config) == Keys(s.config) - Keys(sub)
      && t.dirty.Keys == s.dirty.Keys - Keys(sub)
      && t.fields.Keys == s.fields.Keys - Keys(sub)
      && (k !in Keys(sub) ==> Get(t.config, k) == Get(s.config, k))
      && (k in t.dirty ==> t.dirty[k] == s.dirty[k])
      && (k in t.fields ==> t.fields[k] == s.fields[k])
  {
    assert (set k | k in KeyList(sub)) == Keys(sub);
  }

  /** Unregistration validates the whole remaining form again: it fails
      exactly when that validation fails, and the new errors are what it
      computes. */
  lemma UnregisterValidates(validators: map<string, Validator>, s: State, sub: FormConfig)
    ensures var ks := KeyList(sub);
      var v := Validate(validators, RemoveFrom(s.config, ks), RemoveKeys(s.fields, ks), RemoveKeys(s.dirty, ks), s.errors);
      var r := UnregisterUpdate(validators, s, sub);
      && (r.Ok? <==> v.Ok?)
      && (r.Ok? ==> r.value.errors == v.value)
      && (r.Fatal? ==> r.fault == v.fault)
  {
  }

  /** Unregistration keeps the form consistent. */
  lemma UnregisterConsistent(validators: map<string, Validator>, s: State, sub: FormConfig)
    requires Consistent(s) && UnregisterUpdate(validators, s, sub).Ok?
    ensures Consistent(UnregisterUpdate(validators, s, sub).value)
  {
    assert (set k | k in KeyList(sub)) == Keys(sub);
  }

  /** Registering a sub-configuration of new fields and unregistering it
      again restores the configuration, in its order, the dirty flags and
      the fields, provided its initial values only concern its own fields. */
  lemma RegisterUnregisterRoundTrip(validators: map<string, Validator>, s: State, sub: FormConfig,
                                    initialValues: map<string, Value>)
    requires DistinctKeys(sub)
    requires Keys(sub) !! Keys(s.config) && Keys(sub) !! s.dirty.Keys && Keys(sub) !! s.fields.Keys
    requires initialValues.Keys <= Keys(sub)
    requires RegisterUpdate(validators, s, sub, initialValues).Ok?
    requires UnregisterUpdate(validators, RegisterUpdate(validators, s, sub, initialValues).value, sub).Ok?
    ensures var t := UnregisterUpdate(validators, RegisterUpdate(validators, s, sub, initialValues).value, sub).value;
      t.config == s.config && t.dirty == s.dirty && t.fields == s.fields && t.submitted == s.submitted
  {
    RemoveSpread(s.config, sub);
    RemoveAdded(s.dirty, Clean(sub), KeyList(sub));
    RemoveAdded(s.fields, initialValues, KeyList(sub));
  }

  // ---------------------------------------------------------------------
  // The component

  /** The fields of a change event's target that `onChange` reads. */
  datatype ChangeEvent = ChangeEvent(name: string, inputType: string, value: string, checked: bool, defaultPrevented: bool)

  /** The value `onChange` stores: `checked` for a checkbox, `value`
      otherwise, passed through the field's transform when that is a
      function. */
  function ChangeValue(e: ChangeEvent, transforms: map<string, Transform>): (v: Value)
    ensures e.name in transforms && transforms[e.name].Fn? ==> v == transforms[e.name].f(EventValue(e))
    ensures e.name !in transforms || transforms[e.name].Inert? ==> v == EventValue(e)
  {
    if e.name in transforms && transforms[e.name].Fn? then transforms[e.name].f(EventValue(e)) else EventValue(e)
  }

  /** `type === 'checkbox' ? checked : value`. */
  function EventValue(e: ChangeEvent): (v: Value)
    ensures e.inputType == "checkbox" ==> v == Bool(e.checked)
    ensures e.inputType != "checkbox" ==> v == Str(e.value)
  {
    if e.inputType == "checkbox" then Bool(e.checked) else Str(e.value)
  }

  /** Class `Form`. `validators` is the set supplied by the validators
      context. Each handler returns the fault its validation pass raised, if
      any; a faulting update leaves `state` as it was. */
  class Form {
    const validators: map<string, Validator>
    var state: State
    var initialValues: map<string, Value>
    var transforms: map<string, Transform>

    ghost predicate Valid()
      reads this
    {
      Consistent(state)
    }

    constructor(validators: map<string, Validator>)
      ensures Valid()
      ensures this.validators == validators
      ensures state == InitialState() && initialValues == map[] && transforms == map[]
    {
      this.validators := validators;
      state := InitialState();
      initialValues := map[];
      transforms := map[];
    }

    /** `setField(diff)`. */
    method SetField(diff: map<string, Value>) returns (fault: Option<Fault>)
      requires Valid()
      modifies this
      ensures Valid()
      ensures initialValues == old(initialValues) && transforms == old(transforms)
      ensures match SetFieldUpdate(validators, old(state), initialValues, diff)
        case Ok(s) => state == s && fault == None
        case Fatal(f) => state == old(state) && fault == Some(f)
    {
      var u := SetFieldUpdate(validators, state, initialValues, diff);
      match u
      case Ok(s) =>
        SetFieldConsistent(validators, state, initialValues, diff);
        state := s;
        fault := None;
      case Fatal(f) =>
        fault := Some(f);
    }

    /** `onChange(e)`: ignored when the event's default was prevented or the
      target names no configured field; otherwise `setField` with the
      target's (transformed) value. */
    method OnChange(e: ChangeEvent) returns (fault: Option<Fault>)
      requires Valid()
      modifies this
      ensures Valid()
      ensures initialValues == old(initialValues) && transforms == old(transforms)
      ensures e.defaultPrevented || e.name !in Keys(old(state).config) ==> state == old(state) && fault == None
      ensures !e.defaultPrevented && e.name in Keys(old(state).config) ==>
        match SetFieldUpdate(validators, old(state), initialValues, map[e.name := ChangeValue(e, transforms)])
        case Ok(s) => state == s && fault == None
        case Fatal(f) => state == old(state) && fault == Some(f)
    {
      if e.defaultPrevented || e.name !in Keys(state.config) {
        fault := None;
        return;
      }
      fault := SetField(map[e.name := ChangeValue(e, transforms)]);
    }

    /** `onReset()`. */
    method OnReset()
      requires Valid()
      modifies this
      ensures Valid()
      ensures initialValues == old(initialValues) && transforms == old(transforms)
      ensures state == ResetUpdate(old(state), initialValues)
    {
      state := ResetUpdate(state, initialValues);
    }

    /** `onSubmit()`: marks the form submitted and changes nothing else. */
    method OnSubmit()
      requires Valid()
      modifies this
      ensures Valid()
      ensures initialValues == old(initialValues) && transforms == old(transforms)
      ensures state == old(state).(submitted := true)
    {
      state := state.(submitted := true);
    }

    /** `setError(diff)`. */
    method SetError(diff: map<string, Value>)
      requires Valid()
      modifies this
      ensures Valid()
      ensures initialValues == old(initialValues) && transforms == old(transforms)
      ensures state == SetErrorUpdate(old(state), diff)
    {
      state := SetErrorUpdate(state, diff);
    }

    /** `registerSubComponent(sub, transforms, initialValues)`. The instance's
      initial values and transforms are merged first, so they are kept even
      when the state update faults. */
    method RegisterSubComponent(sub: FormConfig, transforms: map<string, Transform>, initialValues: map<string, Value>)
      returns (fault: Option<Fault>)
      requires Valid()
      modifies this
      ensures Valid()
      ensures this.initialValues == old(this.initialValues) + initialValues
      ensures this.transforms == old(this.transforms) + transforms
      ensures match RegisterUpdate(validators, old(state), sub, initialValues)
        case Ok(s) => state == s && fault == None
        case Fatal(f) => state == old(state) && fault == Some(f)
    {
      this.initialValues := this.initialValues + initialValues;
      this.transforms := this.transforms + transforms;
      var u := RegisterUpdate(validators, state, sub, initialValues);
      match u
      case Ok(s) =>
        RegisterConsistent(validators, state, sub, initialValues);
        state := s;
        fault := None;
      case Fatal(f) =>
        fault := Some(f);
    }

    /** `unregisterSubComponent(sub)`: the keys of `sub` leave the initial
      values and the transforms as well as the state. */
    method UnregisterSubComponent(sub: FormConfig) returns (fault: Option<Fault>)
      requires Valid()
      modifies this
      ensures Valid()
      ensures initialValues == RemoveKeys(old(initialValues), KeyList(sub))
      ensures transforms == RemoveKeys(old(transforms), KeyList(sub))
      ensures match UnregisterUpdate(validators, old(state), sub)
        case Ok(s) => state == s && fault == None
        case Fatal(f) => state == old(state) && fault == Some(f)
    {
      initialValues := RemoveKeys(initialValues, KeyList(sub));
      transforms := RemoveKeys(transforms, KeyList(sub));
      var u := UnregisterUpdate(validators, state, sub);
      match u
      case Ok(s) =>
        UnregisterConsistent(validators, state, sub);
        state := s;
        fault := None;
      case Fatal(f) =>
        fault := Some(f);
    }
  }
}
