/** The validation pass of the form, `validate` and `validateField` of class
    `Form` in `src/Form.js`: two left folds, over the form's fields and over
    each field's validators, both in declaration order. */
module Engine {
  import opened Js
  import opened ValidatorTypes

  /** Resolving a configuration: a function is called with the context, and a
      message string becomes `{ message }`. */
  function Resolve(spec: Spec, ctx: Context): (c: Config)
    ensures spec.Static? && spec.r.Message? ==> c.message == Str(spec.r.text) && c.validateIf == Absent
    ensures spec.Static? && spec.r.Record? ==> c == spec.r.config
  {
    var r := match spec case Static(r) => r case Dynamic(f) => f(ctx);
    match r
    case Message(s) => MessageConfig(s)
    case Record(c) => c
  }

  /** `validateIf` switches the validator off: a boolean `false`, or a
      function whose result is falsy. */
  function Skipped(config: Config, ctx: Context): (skip: bool)
    ensures skip <==> config.validateIf == Flag(false)
                      || (config.validateIf.Pred? && !Truthy(config.validateIf.p(ctx)))
  {
    match config.validateIf
    case Absent => false
    case Flag(b) => !b
    case Pred(p) => !Truthy(p(ctx))
  }

  /** One reduce step taken while the error so far is falsy: the name is looked
      up first (an unknown name is fatal), then the configuration is resolved,
      then `validateIf` is consulted, and only then the validator runs. */
  function Step(validators: map<string, Validator>, name: string, spec: Spec, ctx: Context, value: Value): (r: Outcome<Value>)
    ensures r.Fatal? <==> name !in validators
    ensures r.Fatal? ==> r.fault == UnknownValidator(name)
    ensures r.Ok? && Skipped(Resolve(spec, ctx), ctx) ==> r.value == Null
    ensures r.Ok? && !Skipped(Resolve(spec, ctx), ctx) ==> r.value == validators[name](Resolve(spec, ctx), Some(ctx))(value)
  {
    if name !in validators then Fatal(UnknownValidator(name))
    else
      var config := Resolve(spec, ctx);
      if Skipped(config, ctx) then Ok(Null)
      else Ok(validators[name](config, Some(ctx))(value))
  }

  /** The reduce over a field's validators starting from the error `acc`. A
      truthy error is passed on untouched; otherwise the next step's result
      replaces it. */
  function Run(validators: map<string, Validator>, specs: FieldSpecs, ctx: Context, value: Value, acc: Value): (r: Outcome<Value>)
    ensures Truthy(acc) ==> r == Ok(acc)
    ensures r.Fatal? ==>
      exists i :: 0 <= i < |specs| && specs[i].0 !in validators && r.fault == UnknownValidator(specs[i].0)
    ensures (forall i :: 0 <= i < |specs| ==> specs[i].0 in validators) ==> r.Ok?
  {
    if specs == [] then Ok(acc)
    else if Truthy(acc) then Run(validators, specs[1..], ctx, value, acc)
    else
      match Step(validators, specs[0].0, specs[0].1, ctx, value)
      case Fatal(f) => Fatal(f)
      case Ok(e) =>
        var r := Run(validators, specs[1..], ctx, value, e);
        assert r.Fatal? ==> exists i :: 0 <= i < |specs| && specs[i].0 !in validators && r.fault == UnknownValidator(specs[i].0) by {
          if r.Fatal? {
            var i :| 0 <= i < |specs[1..]| && specs[1..][i].0 !in validators && r.fault == UnknownValidator(specs[1..][i].0);
            assert specs[i + 1] == specs[1..][i];
          }
        }
        r
  }

  /** Running validators one after the other: the second list starts from the
      error the first list ends with. */
  lemma {:induction false} RunAppend(validators: map<string, Validator>, pre: FieldSpecs, post: FieldSpecs, ctx: Context, value: Value, acc: Value)
    ensures Run(validators, pre + post, ctx, value, acc) ==
      match Run(validators, pre, ctx, value, acc)
      case Fatal(f) => Fatal(f)
      case Ok(e) => Run(validators, post, ctx, value, e)
  {
    if pre == [] {
      assert pre + post == post;
    } else {
      assert (pre + post)[1..] == pre[1..] + post;
      assert (pre + post)[0] == pre[0];
      if Truthy(acc) {
        RunAppend(validators, pre[1..], post, ctx, value, acc);
      } else {
        match Step(validators, pre[0].0, pre[0].1, ctx, value)
        case Fatal(f) =>
        case Ok(e) => RunAppend(validators, pre[1..], post, ctx, value, e);
      }
    }
  }

  /** Short-circuit: once a truthy error has been produced, the validators
      after it are not consulted: whatever follows, the result is that error. */
  lemma ShortCircuit(validators: map<string, Validator>, pre: FieldSpecs, post: FieldSpecs, ctx: Context, value: Value, acc: Value, e: Value)
    requires Run(validators, pre, ctx, value, acc) == Ok(e) && Truthy(e)
    ensures Run(validators, pre + post, ctx, value, acc) == Ok(e)
  {
    RunAppend(validators, pre, post, ctx, value, acc);
  }

  /** A field's truthy error is the result of the first validator, in declared
      order, whose result is truthy; every validator before it ran (it was known)
      and produced a falsy result, or was skipped by `validateIf`. */
  lemma {:induction false} FirstErrorWins(validators: map<string, Validator>, specs: FieldSpecs, ctx: Context, value: Value, acc: Value, e: Value)
    requires !Truthy(acc)
    requires Run(validators, specs, ctx, value, acc) == Ok(e) && Truthy(e)
    ensures exists i :: (0 <= i < |specs| && Step(validators, specs[i].0, specs[i].1, ctx, value) == Ok(e)
                         && forall j :: 0 <= j < i ==> PassedStep(validators, specs[j], ctx, value))
  {
    match Step(validators, specs[0].0, specs[0].1, ctx, value)
    case Ok(e0) =>
      if Truthy(e0) {
        assert specs[0] == specs[0];
      } else {
        FirstErrorWins(validators, specs[1..], ctx, value, e0, e);
        var i :| 0 <= i < |specs[1..]| && Step(validators, specs[1..][i].0, specs[1..][i].1, ctx, value) == Ok(e)
          && (forall j :: 0 <= j < i ==> PassedStep(validators, specs[1..][j], ctx, value));
        assert specs[i + 1] == specs[1..][i];
        forall j | 0 <= j < i + 1
          ensures PassedStep(validators, specs[j], ctx, value)
        {
          if j > 0 { assert specs[j] == specs[1..][j - 1]; }
        }
      }
  }

  /** The validator ran (its name is known) and produced no truthy error. */
  predicate PassedStep(validators: map<string, Validator>, entry: (string, Spec), ctx: Context, value: Value) {
    var s := Step(validators, entry.0, entry.1, ctx, value);
    s.Ok? && !Truthy(s.value)
  }

  /** The converse of `FirstErrorWins`: when every validator before position
      `i` ran and passed and the one at `i` gives a truthy error, that error is
      the result, whatever follows. */
  lemma {:induction false} FirstErrorReturned(validators: map<string, Validator>, specs: FieldSpecs, ctx: Context, value: Value,
                                              acc: Value, i: nat, e: Value)
    requires !Truthy(acc) && i < |specs|
    requires forall j :: 0 <= j < i ==> PassedStep(validators, specs[j], ctx, value)
    requires Step(validators, specs[i].0, specs[i].1, ctx, value) == Ok(e) && Truthy(e)
    ensures Run(validators, specs, ctx, value, acc) == Ok(e)
    decreases i
  {
    if i > 0 {
      assert PassedStep(validators, specs[0], ctx, value);
      var e0 := Step(validators, specs[0].0, specs[0].1, ctx, value).value;
      forall j | 0 <= j < i - 1
        ensures PassedStep(validators, specs[1..][j], ctx, value)
      {
        assert specs[1..][j] == specs[j + 1];
      }
      assert specs[1..][i - 1] == specs[i];
      FirstErrorReturned(validators, specs[1..], ctx, value, e0, i - 1, e);
    }
  }

  /** A field's reduce ends without a truthy error exactly when every
      validator ran and passed or was skipped; the error is then the last
      validator's falsy result (`null` for the built-in validators). */
  lemma {:induction false} RunPasses(validators: map<string, Validator>, specs: FieldSpecs, ctx: Context, value: Value, acc: Value)
    requires !Truthy(acc)
    ensures (forall j :: 0 <= j < |specs| ==> PassedStep(validators, specs[j], ctx, value))
            <==> (Run(validators, specs, ctx, value, acc).Ok? && !Truthy(Run(validators, specs, ctx, value, acc).value))
    ensures (forall j :: 0 <= j < |specs| ==> PassedStep(validators, specs[j], ctx, value)) ==>
      Run(validators, specs, ctx, value, acc)
        == Ok(if specs == [] then acc else Step(validators, specs[|specs| - 1].0, specs[|specs| - 1].1, ctx, value).value)
  {
    if specs != [] {
      var s0 := Step(validators, specs[0].0, specs[0].1, ctx, value);
      if s0.Ok? && !Truthy(s0.value) {
        var rest := specs[1..];
        RunPasses(validators, rest, ctx, value, s0.value);
        assert (forall j :: 0 <= j < |specs| ==> PassedStep(validators, specs[j], ctx, value))
               <==> (forall j :: 0 <= j < |rest| ==> PassedStep(validators, rest[j], ctx, value)) by {
          forall j | 0 <= j < |rest| ensures rest[j] == specs[j + 1] { }
          assert specs[0] == specs[0];
        }
        if rest != [] {
          assert rest[|rest| - 1] == specs[|specs| - 1];
        }
      } else {
        assert !PassedStep(validators, specs[0], ctx, value);
      }
    }
  }

  /** A function configuration is called with the context, and its result is
      read as a configuration written out. */
  lemma ResolveDynamic(f: Context -> Resolved, ctx: Context, other: Context)
    ensures Resolve(Dynamic(f), ctx) == Resolve(Static(f(ctx)), other)
  {
  }

  /** A validator switched off by `validateIf` contributes `null`, so the next
      one is tried. */
  lemma SkippedContributesNull(validators: map<string, Validator>, name: string, spec: Spec, ctx: Context, value: Value)
    requires name in validators && Skipped(Resolve(spec, ctx), ctx)
    ensures Step(validators, name, spec, ctx, value) == Ok(Null)
  {
  }

  /** An unknown validator name is fatal even when its configuration would
      switch it off: the name is checked before `validateIf` is looked at. */
  lemma UnknownNameBeatsValidateIf(validators: map<string, Validator>, name: string, spec: Spec, ctx: Context, value: Value, rest: FieldSpecs, acc: Value)
    requires name !in validators && !Truthy(acc)
    ensures Run(validators, [(name, spec)] + rest, ctx, value, acc) == Fatal(UnknownValidator(name))
  {
  }

  /** The fault a field raises is the first unknown name the reduce reaches:
      after validators that ran and left a falsy error, an unknown name faults
      with that name, whatever follows. */
  lemma FirstUnknownFaults(validators: map<string, Validator>, pre: FieldSpecs, name: string, spec: Spec, post: FieldSpecs,
                           ctx: Context, value: Value, acc: Value, e: Value)
    requires Run(validators, pre, ctx, value, acc) == Ok(e) && !Truthy(e)
    requires name !in validators
    ensures Run(validators, pre + ([(name, spec)] + post), ctx, value, acc) == Fatal(UnknownValidator(name))
  {
    RunAppend(validators, pre, [(name, spec)] + post, ctx, value, acc);
    UnknownNameBeatsValidateIf(validators, name, spec, ctx, value, post, e);
  }

  /** JavaScript truthiness of a configuration; it decides `!fieldValidators.isRequired`. */
  predicate SpecTruthy(spec: Spec) {
    match spec
    case Static(Message(s)) => s != ""
    case Static(Record(_)) => true
    case Dynamic(_) => true
  }

  /** The field has a (truthy) `isRequired` entry, so it is not optional. */
  function Required(specs: FieldSpecs): (req: bool)
    ensures req ==> "isRequired" in Keys(specs)
    ensures req <==> Get(specs, "isRequired").Some? && Get(specs, "isRequired").value != Static(Message(""))
  {
    var r := Get(specs, "isRequired");
    r.Some? && SpecTruthy(r.value)
  }

  /** The context for a field: all field values, the errors of the previous
      pass overridden by those computed so far in this one, and the field's
      dirty flag. */
  function FieldContext(name: string, fields: map<string, Value>, soFar: map<string, Value>,
                        prior: map<string, Value>, dirty: map<string, bool>): (ctx: Context)
    ensures ctx.fields == fields
    ensures forall k :: k in soFar ==> k in ctx.errors && ctx.errors[k] == soFar[k]
    ensures forall k :: k in prior && k !in soFar ==> k in ctx.errors && ctx.errors[k] == prior[k]
    ensures ctx.errors.Keys == prior.Keys + soFar.Keys
    ensures ctx.isDirty == if name in dirty then Bool(dirty[name]) else Undefined
  {
    Context(fields, prior + soFar, if name in dirty then Bool(dirty[name]) else Undefined)
  }

  /** `validateField`: an optional field whose value the active `isRequired`
      rejects (called with the configuration `{}`) has no error; otherwise the
      reduce over its validators, from `null`. */
  function ValidateField(validators: map<string, Validator>, name: string, specs: FieldSpecs,
                         fields: map<string, Value>, soFar: map<string, Value>,
                         prior: map<string, Value>, dirty: map<string, bool>): (r: Outcome<Value>)
    ensures r == Fatal(NoIsRequired) <==> !Required(specs) && "isRequired" !in validators
  {
    var value := Read(fields, name);
    var ctx := FieldContext(name, fields, soFar, prior, dirty);
    if !Required(specs) then
      if "isRequired" !in validators then Fatal(NoIsRequired)
      else if validators["isRequired"](EmptyConfig(), None)(value) != Null then Ok(Null)
      else Run(validators, specs, ctx, value, Null)
    else Run(validators, specs, ctx, value, Null)
  }

  /** Optional-field skip: without an `isRequired` entry, a value the active
      `isRequired` rejects leaves the field without error, whatever its other
      validators are, known or not. */
  lemma OptionalSkipsAll(validators: map<string, Validator>, name: string, specs: FieldSpecs,
                         fields: map<string, Value>, soFar: map<string, Value>,
                         prior: map<string, Value>, dirty: map<string, bool>)
    requires !Required(specs) && "isRequired" in validators
    requires validators["isRequired"](EmptyConfig(), None)(Read(fields, name)) != Null
    ensures ValidateField(validators, name, specs, fields, soFar, prior, dirty) == Ok(Null)
  {
  }

  /** The field is not skipped as optional: it has `isRequired`, or its value
      passes the active `isRequired`. */
  predicate Checked(validators: map<string, Validator>, name: string, specs: FieldSpecs, fields: map<string, Value>) {
    Required(specs) || ("isRequired" in validators && validators["isRequired"](EmptyConfig(), None)(Read(fields, name)) == Null)
  }

  /** A field that is not skipped as optional gets the reduce over its
      validators, from `null`, in its own context. */
  lemma ValidateFieldRuns(validators: map<string, Validator>, name: string, specs: FieldSpecs,
                          fields: map<string, Value>, soFar: map<string, Value>,
                          prior: map<string, Value>, dirty: map<string, bool>)
    requires Checked(validators, name, specs, fields)
    ensures ValidateField(validators, name, specs, fields, soFar, prior, dirty)
            == Run(validators, specs, FieldContext(name, fields, soFar, prior, dirty), Read(fields, name), Null)
  {
  }

  /** A field's truthy error comes from a field that is not skipped as
      optional, and is the result of its first validator, in declared order,
      that gives a truthy error; each one before it ran and passed. */
  lemma ValidateFieldError(validators: map<string, Validator>, name: string, specs: FieldSpecs,
                           fields: map<string, Value>, soFar: map<string, Value>,
                           prior: map<string, Value>, dirty: map<string, bool>, e: Value)
    requires ValidateField(validators, name, specs, fields, soFar, prior, dirty) == Ok(e) && Truthy(e)
    ensures Checked(validators, name, specs, fields)
    ensures var ctx, value := FieldContext(name, fields, soFar, prior, dirty), Read(fields, name);
      exists i :: (0 <= i < |specs| && Step(validators, specs[i].0, specs[i].1, ctx, value) == Ok(e)
                   && forall j :: 0 <= j < i ==> PassedStep(validators, specs[j], ctx, value))
  {
    FirstErrorWins(validators, specs, FieldContext(name, fields, soFar, prior, dirty), Read(fields, name), Null, e);
  }

  /** Conversely, in a field that is not skipped as optional, the first
      validator giving a truthy error after validators that all passed decides
      the field's error. */
  lemma ValidateFieldFirstError(validators: map<string, Validator>, name: string, specs: FieldSpecs,
                                fields: map<string, Value>, soFar: map<string, Value>,
                                prior: map<string, Value>, dirty: map<string, bool>, i: nat, e: Value)
    requires Checked(validators, name, specs, fields) && i < |specs|
    requires forall j :: 0 <= j < i ==> PassedStep(validators, specs[j], FieldContext(name, fields, soFar, prior, dirty), Read(fields, name))
    requires Step(validators, specs[i].0, specs[i].1, FieldContext(name, fields, soFar, prior, dirty), Read(fields, name)) == Ok(e)
    requires Truthy(e)
    ensures ValidateField(validators, name, specs, fields, soFar, prior, dirty) == Ok(e)
  {
    FirstErrorReturned(validators, specs, FieldContext(name, fields, soFar, prior, dirty), Read(fields, name), Null, i, e);
  }

  /** In a field that is not skipped as optional, the error is falsy exactly
      when every validator ran and passed or was skipped by `validateIf`; when
      every one of them gives `null`, so does the field. */
  lemma ValidateFieldPasses(validators: map<string, Validator>, name: string, specs: FieldSpecs,
                            fields: map<string, Value>, soFar: map<string, Value>,
                            prior: map<string, Value>, dirty: map<string, bool>)
    requires Checked(validators, name, specs, fields)
    ensures var ctx, value := FieldContext(name, fields, soFar, prior, dirty), Read(fields, name);
      var r := ValidateField(validators, name, specs, fields, soFar, prior, dirty);
      && ((forall j :: 0 <= j < |specs| ==> PassedStep(validators, specs[j], ctx, value)) <==> (r.Ok? && !Truthy(r.value)))
      && ((forall j :: 0 <= j < |specs| ==> Step(validators, specs[j].0, specs[j].1, ctx, value) == Ok(Null)) ==> r == Ok(Null))
  {
    var ctx, value := FieldContext(name, fields, soFar, prior, dirty), Read(fields, name);
    RunPasses(validators, specs, ctx, value, Null);
  }

  /** The reduce over the form's fields, starting from the errors `soFar`. */
  function FieldLoop(validators: map<string, Validator>, entries: FormConfig, fields: map<string, Value>,
                     dirty: map<string, bool>, prior: map<string, Value>, soFar: map<string, Value>): (r: Outcome<map<string, Value>>)
    ensures r.Ok? ==> r.value.Keys == soFar.Keys + Keys(entries)
    ensures r.Ok? ==> forall k :: k in soFar && k !in Keys(entries) ==> r.value[k] == soFar[k]
  {
    if entries == [] then Ok(soFar)
    else
      match ValidateField(validators, entries[0].0, entries[0].1, fields, soFar, prior, dirty)
      case Fatal(f) => Fatal(f)
      case Ok(e) => FieldLoop(validators, entries[1..], fields, dirty, prior, soFar[entries[0].0 := e])
  }

  /** A field whose validator names are all known, in a set that has
      `isRequired`, validates without a fault. */
  lemma ValidateFieldKnown(validators: map<string, Validator>, name: string, specs: FieldSpecs,
                           fields: map<string, Value>, soFar: map<string, Value>,
                           prior: map<string, Value>, dirty: map<string, bool>)
    requires "isRequired" in validators
    requires forall j :: 0 <= j < |specs| ==> specs[j].0 in validators
    ensures ValidateField(validators, name, specs, fields, soFar, prior, dirty).Ok?
  {
  }

  /** A field-level fault names a validator that the field uses and the active
      set lacks. */
  lemma ValidateFieldUnknown(validators: map<string, Validator>, name: string, specs: FieldSpecs,
                             fields: map<string, Value>, soFar: map<string, Value>,
                             prior: map<string, Value>, dirty: map<string, bool>)
    requires ValidateField(validators, name, specs, fields, soFar, prior, dirty).Fatal?
    ensures var f := ValidateField(validators, name, specs, fields, soFar, prior, dirty).fault;
      f == NoIsRequired || exists j :: 0 <= j < |specs| && specs[j].0 == f.name && f.name !in validators
  {
  }

  /** The pass is fault-free whenever every name is known. */
  lemma {:induction false} FieldLoopKnown(validators: map<string, Validator>, entries: FormConfig, fields: map<string, Value>,
                                          dirty: map<string, bool>, prior: map<string, Value>, soFar: map<string, Value>)
    requires KnownNames(validators, entries)
    ensures FieldLoop(validators, entries, fields, dirty, prior, soFar).Ok?
  {
    if entries != [] {
      ValidateFieldKnown(validators, entries[0].0, entries[0].1, fields, soFar, prior, dirty);
      var e := ValidateField(validators, entries[0].0, entries[0].1, fields, soFar, prior, dirty).value;
      forall i, j | 0 <= i < |entries[1..]| && 0 <= j < |entries[1..][i].1|
        ensures entries[1..][i].1[j].0 in validators
      {
        assert entries[1..][i] == entries[i + 1];
      }
      FieldLoopKnown(validators, entries[1..], fields, dirty, prior, soFar[entries[0].0 := e]);
    }
  }

  /** A fault of the pass is a missing `isRequired` or names a validator that
      some field uses and the active set lacks. */
  lemma {:induction false} FieldLoopUnknown(validators: map<string, Validator>, entries: FormConfig, fields: map<string, Value>,
                                            dirty: map<string, bool>, prior: map<string, Value>, soFar: map<string, Value>)
    requires FieldLoop(validators, entries, fields, dirty, prior, soFar).Fatal?
    ensures var f := FieldLoop(validators, entries, fields, dirty, prior, soFar).fault;
      f == NoIsRequired || exists i, j :: (0 <= i < |entries| && 0 <= j < |entries[i].1|
                                           && entries[i].1[j].0 == f.name && f.name !in validators)
  {
    var f := FieldLoop(validators, entries, fields, dirty, prior, soFar).fault;
    var v := ValidateField(validators, entries[0].0, entries[0].1, fields, soFar, prior, dirty);
    if v.Fatal? {
      ValidateFieldUnknown(validators, entries[0].0, entries[0].1, fields, soFar, prior, dirty);
      if f != NoIsRequired {
        var j :| 0 <= j < |entries[0].1| && entries[0].1[j].0 == f.name && f.name !in validators;
      }
    } else {
      FieldLoopUnknown(validators, entries[1..], fields, dirty, prior, soFar[entries[0].0 := v.value]);
      if f != NoIsRequired {
        var i, j :| 0 <= i < |entries[1..]| && 0 <= j < |entries[1..][i].1|
          && entries[1..][i].1[j].0 == f.name && f.name !in validators;
        assert entries[1..][i] == entries[i + 1];
      }
    }
  }

  /** Every validator name the configuration uses, and `isRequired`, is in the
      active set. */
  predicate KnownNames(validators: map<string, Validator>, config: FormConfig) {
    && "isRequired" in validators
    && forall i, j :: 0 <= i < |config| && 0 <= j < |config[i].1| ==> config[i].1[j].0 in validators
  }

  /** `validate(allConfig, allFields, areDirty)`, `prior` being the errors of the
      state the update starts from. */
  function Validate(validators: map<string, Validator>, config: FormConfig, fields: map<string, Value>,
                    dirty: map<string, bool>, prior: map<string, Value>): (r: Outcome<map<string, Value>>)
    ensures r.Ok? ==> r.value.Keys == Keys(config)
  {
    FieldLoop(validators, config, fields, dirty, prior, map[])
  }

  /** The pass faults only on a configuration error, and never when every
      name is known: an unknown validator name that some field uses, or an
      active set without `isRequired`. */
  lemma ValidateFaults(validators: map<string, Validator>, config: FormConfig, fields: map<string, Value>,
                       dirty: map<string, bool>, prior: map<string, Value>)
    ensures KnownNames(validators, config) ==> Validate(validators, config, fields, dirty, prior).Ok?
    ensures var r := Validate(validators, config, fields, dirty, prior);
      r.Fatal? ==> r.fault == NoIsRequired || exists i, j :: (0 <= i < |config| && 0 <= j < |config[i].1|
                                                             && config[i].1[j].0 == r.fault.name && r.fault.name !in validators)
  {
    if KnownNames(validators, config) {
      FieldLoopKnown(validators, config, fields, dirty, prior, map[]);
    }
    if Validate(validators, config, fields, dirty, prior).Fatal? {
      FieldLoopUnknown(validators, config, fields, dirty, prior, map[]);
    }
  }

  /** The errors of the fields before position `i` of the configuration. */
  function ErrorsBefore(errors: map<string, Value>, config: FormConfig, i: nat): (r: map<string, Value>)
    requires i <= |config|
    ensures r.Keys == errors.Keys * Keys(config[..i])
  {
    map k | k in errors && k in Keys(config[..i]) :: errors[k]
  }

  /** Fields are validated in declared order, and each one sees, besides the
      errors of the previous pass, exactly the errors of the fields declared
      before it. */
  lemma ValidateSeesEarlierErrors(validators: map<string, Validator>, config: FormConfig, fields: map<string, Value>,
                                  dirty: map<string, bool>, prior: map<string, Value>, i: nat)
    requires DistinctKeys(config) && i < |config|
    requires Validate(validators, config, fields, dirty, prior).Ok?
    ensures var errors := Validate(validators, config, fields, dirty, prior).value;
      ValidateField(validators, config[i].0, config[i].1, fields, ErrorsBefore(errors, config, i), prior, dirty)
        == Ok(errors[config[i].0])
  {
    var errors := Validate(validators, config, fields, dirty, prior).value;
    var none: map<string, Value> := map[];
    FieldLoopSeesEarlier(validators, config, fields, dirty, prior, none, i);
    assert ErrorsBefore(errors, config, i) == Restrict(errors, none.Keys + Keys(config[..i]));
  }

  function Restrict(m: map<string, Value>, ks: set<string>): (r: map<string, Value>)
    ensures r.Keys == m.Keys * ks
  {
    map k | k in m && k in ks :: m[k]
  }

  lemma {:induction false} FieldLoopSeesEarlier(validators: map<string, Validator>, entries: FormConfig, fields: map<string, Value>,
                                                dirty: map<string, bool>, prior: map<string, Value>, soFar: map<string, Value>, i: nat)
    requires DistinctKeys(entries) && i < |entries|
    requires soFar.Keys !! Keys(entries)
    requires FieldLoop(validators, entries, fields, dirty, prior, soFar).Ok?
    ensures var r := FieldLoop(validators, entries, fields, dirty, prior, soFar).value;
      ValidateField(validators, entries[i].0, entries[i].1, fields, Restrict(r, soFar.Keys + Keys(entries[..i])), prior, dirty)
        == Ok(r[entries[i].0])
    decreases i
  {
    if i == 0 {
      FieldLoopHead(validators, entries, fields, dirty, prior, soFar);
    } else {
      FieldLoopStep(validators, entries, fields, dirty, prior, soFar);
      var e0 := ValidateField(validators, entries[0].0, entries[0].1, fields, soFar, prior, dirty).value;
      var soFar' := soFar[entries[0].0 := e0];
      var rest := entries[1..];
      FieldLoopSeesEarlier(validators, rest, fields, dirty, prior, soFar', i - 1);
      PrefixKeys(entries, i);
      assert soFar.Keys + Keys(entries[..i]) == soFar'.Keys + Keys(rest[..i - 1]);
      assert entries[i] == rest[i - 1];
    }
  }

  /** One step of a successful pass: the first field validates, and the pass
      goes on over the rest with that field's error recorded. */
  lemma FieldLoopStep(validators: map<string, Validator>, entries: FormConfig, fields: map<string, Value>,
                      dirty: map<string, bool>, prior: map<string, Value>, soFar: map<string, Value>)
    requires DistinctKeys(entries) && entries != []
    requires soFar.Keys !! Keys(entries)
    requires FieldLoop(validators, entries, fields, dirty, prior, soFar).Ok?
    ensures var e0 := ValidateField(validators, entries[0].0, entries[0].1, fields, soFar, prior, dirty);
      && e0.Ok?
      && DistinctKeys(entries[1..])
      && soFar[entries[0].0 := e0.value].Keys !! Keys(entries[1..])
      && FieldLoop(validators, entries, fields, dirty, prior, soFar)
         == FieldLoop(validators, entries[1..], fields, dirty, prior, soFar[entries[0].0 := e0.value])
  {
    DistinctTail(entries);
  }

  /** The first field is validated against the starting errors alone, and its
      error survives the rest of the pass. */
  lemma FieldLoopHead(validators: map<string, Validator>, entries: FormConfig, fields: map<string, Value>,
                      dirty: map<string, bool>, prior: map<string, Value>, soFar: map<string, Value>)
    requires DistinctKeys(entries) && entries != []
    requires soFar.Keys !! Keys(entries)
    requires FieldLoop(validators, entries, fields, dirty, prior, soFar).Ok?
    ensures var r := FieldLoop(validators, entries, fields, dirty, prior, soFar).value;
      Restrict(r, soFar.Keys + Keys(entries[..0])) == soFar
      && ValidateField(validators, entries[0].0, entries[0].1, fields, soFar, prior, dirty) == Ok(r[entries[0].0])
  {
    FieldLoopStep(validators, entries, fields, dirty, prior, soFar);
    DistinctTail(entries);
    var r := FieldLoop(validators, entries, fields, dirty, prior, soFar).value;
    var e0 := ValidateField(validators, entries[0].0, entries[0].1, fields, soFar, prior, dirty).value;
    var soFar' := soFar[entries[0].0 := e0];
    assert r == FieldLoop(validators, entries[1..], fields, dirty, prior, soFar').value;
    assert r[entries[0].0] == e0;
    assert Keys(entries[..0]) == {};
    forall k | k in soFar ensures k in r && r[k] == soFar[k] {
      assert k != entries[0].0 && k !in Keys(entries[1..]);
    }
    assert Restrict(r, soFar.Keys) == soFar;
  }

  /** The names before position `i` are the first name and the names before
      position `i - 1` of the rest. */
  lemma PrefixKeys(entries: FormConfig, i: nat)
    requires 0 < i <= |entries|
    ensures Keys(entries[..i]) == {entries[0].0} + Keys(entries[1..][..i - 1])
  {
    assert entries[..i][1..] == entries[1..][..i - 1];
  }
}
