/** Component `Validation` of `src/Validation.js`: it pads the form's fields
    to its own configuration, registers that configuration with the form when
    it mounts and unregisters it when it unmounts. */
module Validation {
  import opened Js
  import opened Utilities
  import opened ValidatorTypes
  import opened FormState

  /** `getFields(source)`: one entry per configured field, holding the
      field's value in `source`, or `''` where that is `undefined`. Keys of
      `source` outside the configuration are dropped; `null` is kept. */
  function GetFields(config: FormConfig, source: map<string, Value>): (r: map<string, Value>)
    ensures r.Keys == Keys(config)
    ensures forall k :: k in r ==> r[k] == if Read(source, k) != Undefined then source[k] else Str("")
  {
    assert forall k :: GetFirstDefinedValue([Read(source, k), Str("")]) == if Read(source, k) != Undefined then source[k] else Str("") by {
      forall k { FirstDefinedOfTwo(Read(source, k), Str("")); }
    }
    map k | k in Keys(config) :: GetFirstDefinedValue([Read(source, k), Str("")])
  }

  /** No padded field is `undefined`. */
  lemma GetFieldsDefined(config: FormConfig, source: map<string, Value>)
    ensures forall k :: k in GetFields(config, source) ==> GetFields(config, source)[k] != Undefined
  {
  }

  /** The data arguments of the render function. */
  datatype ChildArgs = ChildArgs(errors: map<string, Value>, fields: map<string, Value>, submitted: bool)

  /** The render arguments: the form's errors unfiltered, its fields padded
      and filtered to this component's configuration. */
  function ChildArgsOf(config: FormConfig, form: FormContext): (r: ChildArgs)
    ensures r.errors == form.errors && r.submitted == form.submitted
    ensures r.fields.Keys == Keys(config)
    ensures forall k :: k in Keys(config) && k in form.fields && form.fields[k] != Undefined ==> r.fields[k] == form.fields[k]
    ensures forall k :: k in Keys(config) && Read(form.fields, k) == Undefined ==> r.fields[k] == Str("")
  {
    ChildArgs(form.errors, GetFields(config, form.fields), form.submitted)
  }

  /** A map of values placed where transforms are expected: none of them is
      a function. */
  function AsTransforms(values: map<string, Value>): (r: map<string, Transform>)
    ensures r.Keys == values.Keys && forall k :: k in r ==> r[k] == Inert(values[k])
  {
    map k | k in values :: Inert(values[k])
  }

  /** `componentDidMount` as written: `register(config, getFields(initialValues))`
      passes the padded values in the second, `transforms`, position, so the
      form's initial values gain nothing and its fields gain nothing. */
  method Mount(form: Form, config: FormConfig, initialValues: map<string, Value>) returns (fault: Option<Fault>)
    requires form.Valid()
    modifies form
    ensures form.Valid()
    ensures form.transforms == old(form.transforms) + AsTransforms(GetFields(config, initialValues))
    ensures form.initialValues == old(form.initialValues)
    ensures match RegisterUpdate(form.validators, old(form.state), config, map[])
      case Ok(s) => form.state == s && form.state.fields == old(form.state).fields && fault == None
      case Fatal(f) => form.state == old(form.state) && fault == Some(f)
  {
    MergeNothing(form.initialValues);
    MergeNothing(form.state.fields);
    fault := form.RegisterSubComponent(config, AsTransforms(GetFields(config, initialValues)), map[]);
  }

  /** `componentDidMount` with the padded values in the `initialValues`
      position: after it every configured field has a defined value, its
      padded initial value. */
  method MountIntended(form: Form, config: FormConfig, initialValues: map<string, Value>) returns (fault: Option<Fault>)
    requires form.Valid()
    modifies form
    ensures form.Valid()
    ensures form.transforms == old(form.transforms)
    ensures form.initialValues == old(form.initialValues) + GetFields(config, initialValues)
    ensures match RegisterUpdate(form.validators, old(form.state), config, GetFields(config, initialValues))
      case Ok(s) => form.state == s && fault == None
      case Fatal(f) => form.state == old(form.state) && fault == Some(f)
    ensures fault == None ==> forall k :: k in Keys(config) ==>
      k in form.state.fields && form.state.fields[k] == GetFields(config, initialValues)[k] && form.state.fields[k] != Undefined
  {
    MergeNothing(form.transforms);
    fault := form.RegisterSubComponent(config, map[], GetFields(config, initialValues));
  }

  /** `componentWillUnmount`: `unregister(config)`; the configuration's keys
      leave the form. */
  method Unmount(form: Form, config: FormConfig) returns (fault: Option<Fault>)
    requires form.Valid()
    modifies form
    ensures form.Valid()
    ensures form.initialValues == RemoveKeys(old(form.initialValues), KeyList(config))
    ensures form.transforms == RemoveKeys(old(form.transforms), KeyList(config))
    ensures match UnregisterUpdate(form.validators, old(form.state), config)
      case Ok(s) => form.state == s && Keys(s.config) == Keys(old(form.state).config) - Keys(config) && fault == None
      case Fatal(f) => form.state == old(form.state) && fault == Some(f)
  {
    fault := form.UnregisterSubComponent(config);
  }
}
