/** The shapes the validation engine works with: validator configurations, the
    context handed to dynamic configurations and validators, and the fatal
    configuration fault. */
module ValidatorTypes {
  import opened Js

  /** The `validateIf` property of a configuration, by its `typeof`. */
  datatype ValidateIf =
    | Absent                     // missing, or neither a boolean nor a function
    | Flag(b: bool)              // a boolean
    | Pred(p: Context -> Value)  // a function of the context; a falsy result switches the validator off

  /** A configuration record `{ message, validateIf, ...parameters }`. The
      parameters the built-in validators read are named fields; any other
      parameter (a custom validator's `length`, say) is in `extra`. */
  datatype Config = Config(
    message: Value,
    validateIf: ValidateIf,
    value: Value,                  // isEqual, isEqualTo
    whitelist: seq<Value>,         // isWhitelisted
    blacklist: seq<Value>,         // isBlacklisted
    regex: string -> bool,         // isRegexMatch: `config.regex.test`
    extra: map<string, Value>)

  /** A validator configuration after resolving a function: a message string or
      a record. */
  datatype Resolved = Message(text: string) | Record(config: Config)

  /** A validator configuration as written in a field's config. */
  datatype Spec = Static(r: Resolved) | Dynamic(f: Context -> Resolved)

  /** The context object `{ fields, errors, isDirty }`. */
  datatype Context = Context(fields: map<string, Value>, errors: map<string, Value>, isDirty: Value)

  /** A validator `(config, context) => value => error`; the error is `null`
      when the value passes. The context is absent when a caller supplies only
      the configuration. */
  type Validator = (Config, Option<Context>) -> Value -> Value

  /** A field's validators in declaration order: name to configuration. */
  type FieldSpecs = Entries<Spec>

  /** A form's configuration in declaration order: field name to its validators. */
  type FormConfig = Entries<FieldSpecs>

  /** The configuration `{}`. */
  function EmptyConfig(): Config {
    Config(Undefined, Absent, Undefined, [], [], _ => false, map[])
  }

  /** A message string `s` stands for the configuration `{ message: s }`. */
  function MessageConfig(s: string): (c: Config)
    ensures c.message == Str(s) && c.validateIf == Absent
  {
    EmptyConfig().(message := Str(s))
  }

  /** The programmer errors that abort a validation pass with an exception. */
  datatype Fault =
    | UnknownValidator(name: string)  // the `invariant` naming a validator that is not in the active set
    | NoIsRequired                    // `validators.isRequired` is not a function

  datatype Outcome<T> = Ok(value: T) | Fatal(fault: Fault)
}
