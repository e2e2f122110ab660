/** The outcomes of concrete forms from the repository's integration tests,
    stated as lemmas about the model. The forms are taken to be rendered inside a `ValidatorsProvider`,
    whose set is the default one (`Defaults`), extended with isEmail where a
    form uses it (`WithEmail`). The tests themselves render no provider: the
    context then holds `{}` and every pass faults, as
    `ProviderlessRegisterFaults` shows. */
module Scenarios {
  import opened Js
  import opened ValidatorTypes
  import opened Engine
  import opened ValidatorsContext
  import opened FormState
  import Validation
  import Validators

  /** `{ username: { isRequired: 'username required' } }`. */
  const UsernameConfig: FormConfig := [("username", [("isRequired", Static(Message("username required")))])]

  /** The default set extended with the isEmail validator. */
  function WithEmail(numeric: NumericValidators): (r: map<string, Validator>)
    ensures "isRequired" in r && "isEmail" in r
    ensures forall c, ctx, v :: r["isRequired"](c, ctx)(v) == DefaultIsRequired(c, v)
    ensures forall c, ctx, v :: r["isEmail"](c, ctx)(v) == Validators.IsEmail(c, v)
  {
    ProviderState(numeric, map["isEmail" := (c: Config, ctx: Option<Context>) => (v: Value) => Validators.IsEmail(c, v)])
  }

  /** The username field alone: its error is the message exactly when its
      value is `''`. */
  lemma UsernameField(numeric: NumericValidators, fields: map<string, Value>, dirty: map<string, bool>)
    ensures ValidateField(Defaults(numeric), "username", UsernameConfig[0].1, fields, map[], map[], dirty)
            == Ok(if Read(fields, "username") == Str("") then Str("username required") else Null)
  {
    var v := Defaults(numeric);
    var specs := UsernameConfig[0].1;
    assert Get(specs, "isRequired") == Some(Static(Message("username required")));
    var ctx := FieldContext("username", fields, map[], map[], dirty);
    var config := MessageConfig("username required");
    assert Resolve(specs[0].1, ctx) == config && !Skipped(config, ctx);
    var value := Read(fields, "username");
    var e := if value == Str("") then Str("username required") else Null;
    assert v["isRequired"](config, Some(ctx))(value) == e;
    assert Step(v, "isRequired", specs[0].1, ctx, value) == Ok(e);
    assert Run(v, specs[1..], ctx, value, e) == Ok(e);
  }

  /** Validating the username configuration on its own. */
  lemma UsernameLoop(numeric: NumericValidators, fields: map<string, Value>, dirty: map<string, bool>)
    ensures FieldLoop(Defaults(numeric), UsernameConfig, fields, dirty, map[], map[])
            == Ok(map["username" := if Read(fields, "username") == Str("") then Str("username required") else Null])
  {
    UsernameField(numeric, fields, dirty);
    assert UsernameConfig[1..] == [];
  }

  /** Registering the username configuration on a fresh form with the given
      initial values validates the field against those values. */
  lemma RegisterUsername(numeric: NumericValidators, initialValues: map<string, Value>)
    ensures var r := RegisterUpdate(Defaults(numeric), InitialState(), UsernameConfig, initialValues);
      r.Ok? && r.value.errors == map["username" := if Read(initialValues, "username") == Str("") then Str("username required") else Null]
  {
    var s := InitialState();
    RegisterValidates(Defaults(numeric), s, UsernameConfig, initialValues);
    assert Spread(s.config, UsernameConfig) == UsernameConfig;
    MergeIntoNothing(Clean(UsernameConfig));
    MergeIntoNothing(initialValues);
    UsernameLoop(numeric, initialValues, Clean(UsernameConfig));
  }

  /** Outside any `ValidatorsProvider` the form receives the context's
      default value `{}`: registering the username configuration then faults
      on its first validator name, whatever the initial values. */
  lemma ProviderlessRegisterFaults(initialValues: map<string, Value>)
    ensures RegisterUpdate(map[], InitialState(), UsernameConfig, initialValues) == Fatal(UnknownValidator("isRequired"))
  {
    var s := InitialState();
    RegisterValidates(map[], s, UsernameConfig, initialValues);
    assert Spread(s.config, UsernameConfig) == UsernameConfig;
    assert Get(UsernameConfig[0].1, "isRequired").Some?;
  }

  /** The default set has no isEmail: with it alone, a form using isEmail
      faults once isRequired has passed. */
  lemma DefaultsLackIsEmail(numeric: NumericValidators)
    ensures ValidateField(Defaults(numeric), "email", EmailSpecs, map["email" := Str("an invalid email")], map[], map[], map[])
            == Fatal(UnknownValidator("isEmail"))
  {
    assert Get(EmailSpecs, "isRequired") == Some(Static(Message("email required")));
    var bad := Str("an invalid email");
    var ctx := FieldContext("email", map["email" := bad], map[], map[], map[]);
    var v := Defaults(numeric);
    assert "isEmail" !in v;
    assert Resolve(EmailSpecs[0].1, ctx) == MessageConfig("email required");
    assert Step(v, "isRequired", EmailSpecs[0].1, ctx, bad) == Ok(Null);
    assert Run(v, EmailSpecs[1..], ctx, bad, Null) == Fatal(UnknownValidator("isEmail"));
  }

  /** Mounting `Validation` as written leaves a required, empty field without
      its error: the padded `''` never reaches the form's fields, so
      `isRequired` sees `undefined`. */
  lemma MountAsWrittenMissesRequired(numeric: NumericValidators)
    ensures var r := RegisterUpdate(Defaults(numeric), InitialState(), UsernameConfig, map[]);
      r.Ok? && "username" in r.value.errors && r.value.errors["username"] == Null
  {
    RegisterUsername(numeric, map[]);
  }

  /** Mounting with the padded values as initial values reports the error
      the integration test expects on mount. */
  lemma MountIntendedReportsRequired(numeric: NumericValidators)
    ensures var r := RegisterUpdate(Defaults(numeric), InitialState(), UsernameConfig, Validation.GetFields(UsernameConfig, map[]));
      r.Ok? && "username" in r.value.errors && r.value.errors["username"] == Str("username required")
  {
    var fields := Validation.GetFields(UsernameConfig, map[]);
    assert "username" in Keys(UsernameConfig);
    assert Read(fields, "username") == Str("");
    RegisterUsername(numeric, fields);
  }

  /** `{ isRequired: 'email required', isEmail: 'email invalid' }`. */
  const EmailSpecs: FieldSpecs := [("isRequired", Static(Message("email required"))), ("isEmail", Static(Message("email invalid")))]

  /** A required, empty email field reports the `isRequired` message; isEmail,
      which would also reject it, is never reached. */
  lemma EmptyEmailReportsRequired(numeric: NumericValidators)
    ensures ValidateField(WithEmail(numeric), "email", EmailSpecs, map["email" := Str("")], map[], map[], map[]) == Ok(Str("email required"))
  {
    var v := WithEmail(numeric);
    assert Get(EmailSpecs, "isRequired") == Some(Static(Message("email required")));
    var ctx := FieldContext("email", map["email" := Str("")], map[], map[], map[]);
    var config := MessageConfig("email required");
    assert Resolve(EmailSpecs[0].1, ctx) == config && !Skipped(config, ctx);
    assert v["isRequired"](config, Some(ctx))(Str("")) == Str("email required");
    assert Step(v, "isRequired", EmailSpecs[0].1, ctx, Str("")) == Ok(Str("email required"));
    assert Run(v, EmailSpecs[1..], ctx, Str(""), Str("email required")) == Ok(Str("email required"));
    assert Run(v, EmailSpecs, ctx, Str(""), Null) == Ok(Str("email required"));
  }

  /** A required email field holding a value with a space reports the
      isEmail message. */
  lemma InvalidEmailReportsEmail(numeric: NumericValidators)
    ensures ValidateField(WithEmail(numeric), "email", EmailSpecs, map["email" := Str("an invalid email")], map[], map[], map[]) == Ok(Str("email invalid"))
  {
    var v := WithEmail(numeric);
    assert Get(EmailSpecs, "isRequired") == Some(Static(Message("email required")));
    var bad := Str("an invalid email");
    var ctx := FieldContext("email", map["email" := bad], map[], map[], map[]);
    Validators.IsEmailRejectsWhitespace(MessageConfig("email invalid"), "an invalid email", 2);
    assert Run(v, EmailSpecs[2..], ctx, bad, Str("email invalid")) == Ok(Str("email invalid"));
    assert Run(v, EmailSpecs[1..], ctx, bad, Null) == Ok(Str("email invalid"));
  }

  /** An optional email field left empty has no error, although isEmail
      alone rejects `''`: the optional-field skip comes first. */
  lemma OptionalEmptyEmailSkipped(numeric: NumericValidators)
    ensures Validators.IsEmail(MessageConfig("email invalid"), Str("")) == Str("email invalid")
    ensures ValidateField(WithEmail(numeric), "email", [("isEmail", Static(Message("email invalid")))],
                          map["email" := Str("")], map[], map[], map[]) == Ok(Null)
  {
    assert Get([("isEmail", Static(Message("email invalid")))], "isRequired") == None;
  }

  /** `fields.username.length > 5`. */
  function LongUsername(ctx: Context): (r: Value)
    ensures r == Bool(|ToStr(Read(ctx.fields, "username"))| > 5)
  {
    Bool(|ToStr(Read(ctx.fields, "username"))| > 5)
  }

  /** `{ isRequired: { validateIf: ..., message: 'email is required for long usernames' } }`. */
  const EmailIfLong: FieldSpecs :=
    [("isRequired", Static(Record(EmptyConfig().(message := Str("email is required for long usernames"), validateIf := Pred(LongUsername)))))]

  /** The `validateIf` test, first half: the empty email is reported for a
      long username. */
  lemma ValidateIfLongUsername(numeric: NumericValidators)
    ensures ValidateField(Defaults(numeric), "email", EmailIfLong,
                          map["username" := Str("borkybork"), "email" := Str("")], map[], map[], map[])
            == Ok(Str("email is required for long usernames"))
  {
    assert Get(EmailIfLong, "isRequired").Some?;
    var long := map["username" := Str("borkybork"), "email" := Str("")];
    var ctx := FieldContext("email", long, map[], map[], map[]);
    assert ToStr(Read(ctx.fields, "username")) == "borkybork";
    assert !Skipped(Resolve(EmailIfLong[0].1, ctx), ctx);
  }

  /** The `validateIf` test, second half: the same field is skipped for a
      short username. */
  lemma ValidateIfShortUsername(numeric: NumericValidators)
    ensures ValidateField(Defaults(numeric), "email", EmailIfLong,
                          map["username" := Str("bork"), "email" := Str("")], map[], map[], map[])
            == Ok(Null)
  {
    var v := Defaults(numeric);
    assert Get(EmailIfLong, "isRequired").Some?;
    var spec := EmailIfLong[0].1;
    var short := map["username" := Str("bork"), "email" := Str("")];
    var ctx := FieldContext("email", short, map[], map[], map[]);
    assert ToStr(Read(ctx.fields, "username")) == "bork";
    assert Skipped(Resolve(spec, ctx), ctx);
    assert Step(v, "isRequired", spec, ctx, Str("")) == Ok(Null);
    assert Run(v, EmailIfLong, ctx, Str(""), Null) == Ok(Null);
  }
}
