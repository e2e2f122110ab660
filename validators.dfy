/** The built-in validators of `src/validators/`: isEqual, isWhitelisted,
    isBlacklisted, isRegexMatch and isEmail. Each is `config => value => error`,
    written here as a function of both; the error is `null` or `config.message`. */
module Validators {
  import opened Js
  import opened ValidatorTypes

  // ---------------------------------------------------------------------
  // isEqual

  /** `isEqual(config)(value)`. The branch is chosen by `typeof config.value`.
      `number` stands for `Number(value)` restricted to integers: `None` when
      the value does not convert to an integer (NaN or a fraction), which then
      equals no integer. */
  function IsEqual(number: Value -> Option<int>, config: Config, value: Value): (r: Value)
    ensures r == Null || r == config.message
    ensures value == Str("") ==> r == Null
  {
    if value == Str("") then Null
    else
      var isValid :=
        match config.value
        case Num(n) => number(value) == Some(n)
        case Bool(b) => if b then value == Str("true") else value == Str("false")
        case _ => Str(ToStr(value)) == config.value;  // 'string' and every other type
      if isValid then Null else config.message
  }

  /** For a boolean `config.value`, any value but `''` is accepted exactly
      when it is the string spelling the boolean: `true` accepts exactly
      `'true'`, so a checkbox's own `true` is rejected. For a string
      `config.value`, a value is accepted exactly when `String(value)` is that
      string, so `'true'` accepts the boolean `true`. */
  lemma IsEqualSpelling(number: Value -> Option<int>, config: Config, value: Value)
    requires value != Str("") && config.message != Null
    ensures config.value.Bool? ==> (IsEqual(number, config, value) == Null <==> value == Str(ToStr(config.value)))
    ensures config.value.Bool? && value.Bool? ==> IsEqual(number, config, value) == config.message
    ensures config.value.Str? ==> (IsEqual(number, config, value) == Null <==> ToStr(value) == config.value.s)
  {
  }

  /** For a numeric `config.value`, a non-empty value is accepted exactly when
      it converts to that number. */
  lemma IsEqualNumber(number: Value -> Option<int>, config: Config, value: Value)
    requires config.value.Num? && value != Str("") && config.message != Null
    ensures IsEqual(number, config, value) == Null <==> number(value) == Some(config.value.n)
  {
  }

  /** A `config.value` of any other type (`undefined`, `null`) accepts nothing
      but the empty string. */
  lemma IsEqualOtherType(number: Value -> Option<int>, config: Config, value: Value)
    requires config.value == Undefined || config.value == Null
    requires value != Str("")
    ensures IsEqual(number, config, value) == config.message
  {
  }

  // ---------------------------------------------------------------------
  // isWhitelisted and isBlacklisted

  /** `list.map(w => String(w))`. */
  function Stringify(list: seq<Value>): (r: seq<Value>)
    ensures |r| == |list| && forall i :: 0 <= i < |list| ==> r[i] == Str(ToStr(list[i]))
  {
    seq(|list|, i requires 0 <= i < |list| => Str(ToStr(list[i])))
  }

  /** `value` is one of the list's entries after `String(...)` conversion. */
  predicate Listed(list: seq<Value>, value: Value) {
    value in Stringify(list)
  }

  lemma ListedAt(list: seq<Value>, value: Value)
    ensures Listed(list, value) <==> exists i :: 0 <= i < |list| && value == Str(ToStr(list[i]))
  {
    if Listed(list, value) {
      var i :| 0 <= i < |list| && Stringify(list)[i] == value;
    }
  }

  /** `isWhitelisted(config)(value)`. */
  function IsWhitelisted(config: Config, value: Value): (r: Value)
    ensures r == Null || r == config.message
    ensures value == Str("") ==> r == Null
    ensures value != Str("") && !Listed(config.whitelist, value) ==> r == config.message
    ensures Listed(config.whitelist, value) ==> r == Null
  {
    if value == Str("") then Null
    else if !(value in Stringify(config.whitelist)) then config.message
    else Null
  }

  /** `isBlacklisted(config)(value)`. */
  function IsBlacklisted(config: Config, value: Value): (r: Value)
    ensures r == Null || r == config.message
    ensures value == Str("") ==> r == Null
    ensures value != Str("") && Listed(config.blacklist, value) ==> r == config.message
    ensures !Listed(config.blacklist, value) ==> r == Null
  {
    if value == Str("") then Null
    else if value in Stringify(config.blacklist) then config.message
    else Null
  }

  /** Over the same list and a non-empty value, exactly one of the two
      validators reports its message. */
  lemma {:induction false} BlacklistIsWhitelistComplement(cb: Config, cw: Config, value: Value)
    requires cb.blacklist == cw.whitelist && value != Str("")
    requires cb.message != Null && cw.message != Null
    ensures (IsBlacklisted(cb, value) == Null) != (IsWhitelisted(cw, value) == Null)
  {
    if Listed(cb.blacklist, value) {
      assert IsBlacklisted(cb, value) == cb.message;
    } else {
      assert IsWhitelisted(cw, value) == cw.message;
    }
  }

  /** Entries are compared after `String(...)`: the list `[0, false]` admits
      `'0'` and `'false'`, and not `'true'`. */
  lemma WhitelistStringifies(config: Config)
    requires config.whitelist == [Num(0), Bool(false)] && config.message != Null
    ensures IsWhitelisted(config, Str("0")) == Null
    ensures IsWhitelisted(config, Str("false")) == Null
    ensures IsWhitelisted(config, Str("true")) == config.message
  {
    assert Stringify(config.whitelist) == [Str("0"), Str("false")];
  }

  // ---------------------------------------------------------------------
  // isRegexMatch

  /** `isRegexMatch(config)(value)`; `config.regex.test` stands for the regular
      expression, applied to `String(value)`. */
  function IsRegexMatch(config: Config, value: Value): (r: Value)
    ensures r == Null || r == config.message
  {
    if value == Str("") then Null
    else if !config.regex(ToStr(value)) then config.message
    else Null
  }

  /** The empty string passes whatever the regex; no regex is consulted for it. */
  lemma RegexEmptyIgnoresRegex(c1: Config, c2: Config)
    ensures IsRegexMatch(c1, Str("")) == IsRegexMatch(c2, Str("")) == Null
  {
  }

  /** A non-empty value fails exactly when the regex does not match it. */
  lemma RegexNonEmpty(config: Config, value: Value)
    requires value != Str("") && config.message != Null
    ensures IsRegexMatch(config, value) == config.message <==> !config.regex(ToStr(value))
  {
  }

  // ---------------------------------------------------------------------
  // isEmail

  /** The characters JavaScript's `\s` matches. */
  predicate IsWhitespace(c: char) {
    c == '\t' || c == '\n' || c == '\U{000B}' || c == '\U{000C}' || c == '\r' || c == ' '
    || c == '\U{00A0}' || c == '\U{1680}' || ('\U{2000}' <= c <= '\U{200A}')
    || c == '\U{2028}' || c == '\U{2029}' || c == '\U{202F}' || c == '\U{205F}'
    || c == '\U{3000}' || c == '\U{FEFF}'
  }

  predicate NoWhitespace(s: string) {
    forall i :: 0 <= i < |s| ==> !IsWhitespace(s[i])
  }

  /** A string of visible ASCII characters has no whitespace. */
  lemma VisibleHasNoWhitespace(s: string)
    requires forall i :: 0 <= i < |s| ==> '!' <= s[i] <= '~'
    ensures NoWhitespace(s)
  {
  }

  /** `EMAIL_REGEXP.test(s)` for `EMAIL_REGEXP = /^\S+@\S+$/`: the whole string
      splits as one or more non-space characters, an `'@'`, and one or more
      non-space characters. */
  predicate EmailRegexTest(s: string) {
    exists i :: 0 < i < |s| - 1 && s[i] == '@' && NoWhitespace(s[..i]) && NoWhitespace(s[i + 1..])
  }

  /** The regex accepts exactly the strings without whitespace that have an
      `'@'` with at least one character on each side. */
  lemma EmailRegexShape(s: string)
    ensures EmailRegexTest(s) <==> NoWhitespace(s) && exists i :: 0 < i < |s| - 1 && s[i] == '@'
  {
    if EmailRegexTest(s) {
      var i :| 0 < i < |s| - 1 && s[i] == '@' && NoWhitespace(s[..i]) && NoWhitespace(s[i + 1..]);
      forall j | 0 <= j < |s| ensures !IsWhitespace(s[j]) {
        if j < i { assert s[..i][j] == s[j]; }
        else if j > i { assert s[i + 1..][j - i - 1] == s[j]; }
      }
    }
    if NoWhitespace(s) && exists i :: 0 < i < |s| - 1 && s[i] == '@' {
      var i :| 0 < i < |s| - 1 && s[i] == '@';
      assert NoWhitespace(s[..i]) && NoWhitespace(s[i + 1..]);
    }
  }

  /** `isEmail(config)(value)`, as written: the regex is applied to
      `String(value)` with no guard for the empty string. */
  function IsEmail(config: Config, value: Value): (r: Value)
    ensures r == Null || r == config.message
  {
    if !EmailRegexTest(ToStr(value)) then config.message else Null
  }

  /** A value passes exactly when `String(value)` has the regex's shape. */
  lemma IsEmailAccepts(config: Config, value: Value)
    requires config.message != Null
    ensures IsEmail(config, value) == Null <==>
            var s := ToStr(value); NoWhitespace(s) && exists i :: 0 < i < |s| - 1 && s[i] == '@'
  {
    EmailRegexShape(ToStr(value));
  }

  /** A string of visible ASCII characters with an interior `@` is an email. */
  lemma IsEmailAcceptsVisible(config: Config, s: string, at: nat)
    requires forall i :: 0 <= i < |s| ==> '!' <= s[i] <= '~'
    requires 0 < at < |s| - 1 && s[at] == '@'
    ensures IsEmail(config, Str(s)) == Null
  {
    VisibleHasNoWhitespace(s);
    EmailRegexShape(s);
  }

  /** An address from the validator's tests is accepted. */
  lemma IsEmailAcceptsWord(config: Config)
    ensures IsEmail(config, Str("yolo@swag")) == Null
  {
    IsEmailAcceptsVisible(config, "yolo@swag", 4);
  }

  /** An all-digit address from the validator's tests is accepted. */
  lemma IsEmailAcceptsDigits(config: Config)
    ensures IsEmail(config, Str("123@456.789")) == Null
  {
    IsEmailAcceptsVisible(config, "123@456.789", 3);
  }

  /** Any string containing whitespace is rejected. */
  lemma IsEmailRejectsWhitespace(config: Config, s: string, j: nat)
    requires j < |s| && IsWhitespace(s[j])
    ensures IsEmail(config, Str(s)) == config.message
  {
    EmailRegexShape(s);
  }

  /** A string without an `'@'` strictly inside it is rejected. */
  lemma IsEmailRejectsNoInteriorAt(config: Config, s: string)
    requires forall i :: 0 < i < |s| - 1 ==> s[i] != '@'
    ensures IsEmail(config, Str(s)) == config.message
  {
  }

  /** Strings from the validator's tests that miss a local part, miss a
      domain, contain spaces or have no `'@'` are rejected. */
  lemma IsEmailRejectsExamples(config: Config)
    ensures IsEmail(config, Str("@missing.com")) == config.message
    ensures IsEmail(config, Str("still@")) == config.message
    ensures IsEmail(config, Str("not an email")) == config.message
    ensures IsEmail(config, Str("1234567890")) == config.message
  {
    var a, b, c, d := "@missing.com", "still@", "not an email", "1234567890";
    assert forall i :: 0 < i < |a| - 1 ==> a[i] != '@';
    IsEmailRejectsNoInteriorAt(config, a);
    assert forall i :: 0 < i < |b| - 1 ==> b[i] != '@';
    IsEmailRejectsNoInteriorAt(config, b);
    assert IsWhitespace(c[3]);
    IsEmailRejectsWhitespace(config, c, 3);
    assert forall i :: 0 < i < |d| - 1 ==> d[i] != '@';
    IsEmailRejectsNoInteriorAt(config, d);
  }

  /** As written, the empty string fails isEmail, although every other
      validator, and the validator's own test, treat it as valid. */
  lemma IsEmailRejectsEmpty(config: Config)
    ensures IsEmail(config, Str("")) == config.message
  {
  }

  /** isEmail with the empty-string guard the other validators carry. */
  function IsEmailGuarded(config: Config, value: Value): (r: Value)
    ensures r == Null || r == config.message
    ensures value == Str("") ==> r == Null
    ensures value != Str("") ==> r == IsEmail(config, value)
  {
    if value == Str("") then Null else IsEmail(config, value)
  }
}
