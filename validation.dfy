/**
 * The declarative rule table of the registration form and the ordered
 * validation pipeline of `validateField` that interprets it.
 */
module Validation {
  import opened Wrappers
  import opened JsText
  import opened Patterns

  /** The regular expressions that appear in the rule table. */
  datatype Pattern = UsernamePattern | EmailPattern | PasswordPattern

  /** `pattern.test(s)`. */
  predicate Test(pattern: Pattern, s: string)
  {
    match pattern
    case UsernamePattern => MatchesUsername(s)
    case EmailPattern => MatchesEmail(s)
    case PasswordPattern => MatchesPassword(s)
  }

  /** One entry of `validationRules`; an absent key is `None`. */
  datatype Rule = Rule(
    required: bool,
    minLength: Option<int>,
    maxLength: Option<int>,
    pattern: Option<Pattern>,
    min: Option<int>,
    max: Option<int>,
    message: string)

  const UsernameRule := Rule(true, Some(3), Some(20), Some(UsernamePattern), None, None,
    "Username must be 3-20 characters, letters, numbers, and underscores only")
  const EmailRule := Rule(true, None, None, Some(EmailPattern), None, None,
    "Please enter a valid email address")
  const PasswordRule := Rule(true, Some(8), None, Some(PasswordPattern), None, None,
    "Password must be 8+ characters with uppercase, lowercase, number, and special character")
  const AgeRule := Rule(false, None, None, None, Some(13), Some(120),
    "Age must be between 13 and 120")
  const TermsRule := Rule(true, None, None, None, None, None,
    "You must agree to the terms and conditions")

  /** `validationRules`, keyed by field id. */
  const Rules: map<string, Rule> := map[
    "username" := UsernameRule,
    "email" := EmailRule,
    "password" := PasswordRule,
    "age" := AgeRule,
    "terms" := TermsRule]

  /** `Object.keys(validationRules)`, in insertion order. */
  const RuleOrder: seq<string> := ["username", "email", "password", "age", "terms"]

  /** The keys of the table are exactly the fields of `RuleOrder`, each once. */
  lemma RuleOrderIsKeys()
    ensures forall name :: name in Rules <==> name in RuleOrder
    ensures forall i, j :: 0 <= i < j < |RuleOrder| ==> RuleOrder[i] != RuleOrder[j]
  {
  }

  /** The confirm-password field has no rule, so the branch that would wire it to the match check never runs. */
  lemma ConfirmHasNoRule()
    ensures "confirm-password" !in Rules && "confirm-password" !in RuleOrder
  {
  }

  /** A form control: a text input's raw value or a checkbox's `checked`. */
  datatype FieldValue = Text(raw: string) | Checkbox(checked: bool)

  /** What `validateField` inspects: `checked` for a checkbox, the trimmed value otherwise. */
  function Observed(v: FieldValue): FieldValue
  {
    match v
    case Text(s) => Text(Trim(s))
    case Checkbox(b) => Checkbox(b)
  }

  /** JavaScript truthiness of the inspected value. */
  predicate Truthy(v: FieldValue)
  {
    match v
    case Text(s) => s != []
    case Checkbox(b) => b
  }

  /** `value.length`; a boolean has none, and comparing `undefined` is always false. */
  function Length(v: FieldValue): Option<nat>
  {
    match v
    case Text(s) => Some(Utf16Length(s))
    case Checkbox(_) => None
  }

  /** The string a regular expression test or `parseInt` sees. */
  function AsString(v: FieldValue): string
  {
    match v
    case Text(s) => s
    case Checkbox(b) => if b then "true" else "false"
  }

  /** JavaScript truthiness of a numeric rule entry: absent or 0 switches the check off. */
  predicate Declared(bound: Option<int>)
  {
    bound.Some? && bound.value != 0
  }

  predicate TooShort(rule: Rule, v: FieldValue)
  {
    Declared(rule.minLength) && Length(v).Some? && Length(v).value < rule.minLength.value
  }

  predicate TooLong(rule: Rule, v: FieldValue)
  {
    Declared(rule.maxLength) && Length(v).Some? && Length(v).value > rule.maxLength.value
  }

  predicate Mismatch(rule: Rule, v: FieldValue)
  {
    rule.pattern.Some? && !Test(rule.pattern.value, AsString(v))
  }

  /** `parseInt(value) < min`; NaN compares false. */
  predicate BelowMin(rule: Rule, v: FieldValue)
  {
    Declared(rule.min) && ParseInt(AsString(v)).Some? && ParseInt(AsString(v)).value < rule.min.value
  }

  /** `parseInt(value) > max`; NaN compares false. */
  predicate AboveMax(rule: Rule, v: FieldValue)
  {
    Declared(rule.max) && ParseInt(AsString(v)).Some? && ParseInt(AsString(v)).value > rule.max.value
  }

  /** Some constraint after "required" rejects the value. */
  predicate Violates(rule: Rule, v: FieldValue)
  {
    TooShort(rule, v) || TooLong(rule, v) || Mismatch(rule, v) || BelowMin(rule, v) || AboveMax(rule, v)
  }

  /** The outcome of validating one field. */
  datatype Verdict = Pass | Fail(message: string)

  /** The message of a failed "required" check: the capitalised field name. */
  function RequiredMessage(name: string): string
  {
    Capitalise(name) + " is required"
  }

  /**
   * What validating a field means: an empty required field fails with its own
   * message; an empty optional field passes without further checks; any other
   * value fails with the rule's message exactly when some constraint rejects it.
   */
  function Judge(name: string, rule: Rule, value: FieldValue): Verdict
  {
    var v := Observed(value);
    if rule.required && !Truthy(v) then Fail(RequiredMessage(name))
    else if Truthy(v) && Violates(rule, v) then Fail(rule.message)
    else Pass
  }

  /**
   * The body of `validateField` once the field and its rule are found: the
   * checks run in the fixed order required, minLength, maxLength, pattern,
   * min, max, each guarded by "still valid and value truthy", so the first
   * failure sets the message.
   */
  method CheckField(name: string, rule: Rule, value: FieldValue) returns (isValid: bool, errorMessage: string)
    ensures isValid <==> Judge(name, rule, value) == Pass
    ensures !isValid ==> errorMessage == Judge(name, rule, value).message
    ensures isValid ==> errorMessage == ""
  {
    isValid := true;
    errorMessage := "";
    var v := Observed(value);

    if rule.required && !Truthy(v) {
      isValid := false;
      errorMessage := RequiredMessage(name);
    }
    if isValid && Truthy(v) && TooShort(rule, v) {
      isValid := false;
      errorMessage := rule.message;
    }
    if isValid && Truthy(v) && TooLong(rule, v) {
      isValid := false;
      errorMessage := rule.message;
    }
    if isValid && Truthy(v) && Mismatch(rule, v) {
      isValid := false;
      errorMessage := rule.message;
    }
    if isValid && Truthy(v) && BelowMin(rule, v) {
      isValid := false;
      errorMessage := rule.message;
    }
    if isValid && Truthy(v) && AboveMax(rule, v) {
      isValid := false;
      errorMessage := rule.message;
    }
  }

  /** `validateField(name)` over a page that maps field ids to their controls. */
  function ValidateField(rules: map<string, Rule>, page: map<string, FieldValue>, name: string): Verdict
  {
    if name !in page || name !in rules then Pass else Judge(name, rules[name], page[name])
  }

  // ---------------------------------------------------------------- properties of the pipeline

  /** A field with no rule, or missing from the page, is valid. */
  lemma UnruledOrAbsentPasses(rules: map<string, Rule>, page: map<string, FieldValue>, name: string)
    requires name !in rules || name !in page
    ensures ValidateField(rules, page, name) == Pass
  {
  }

  /** An empty (or blank) required field fails with "<Name> is required". */
  lemma RequiredEmptyFails(name: string, rule: Rule, s: string)
    requires rule.required && forall i :: 0 <= i < |s| ==> IsWhitespace(s[i])
    ensures Judge(name, rule, Text(s)) == Fail(RequiredMessage(name))
  {
  }

  /** An empty (or blank) optional field passes, whatever its other constraints. */
  lemma OptionalEmptyPasses(name: string, rule: Rule, s: string)
    requires !rule.required && forall i :: 0 <= i < |s| ==> IsWhitespace(s[i])
    ensures Judge(name, rule, Text(s)) == Pass
  {
  }

  /** Every failure on a non-empty value carries the rule's single message. */
  lemma LaterFailuresShareMessage(name: string, rule: Rule, value: FieldValue)
    requires Truthy(Observed(value))
    ensures Judge(name, rule, value) == Pass || Judge(name, rule, value) == Fail(rule.message)
    ensures Judge(name, rule, value) == Pass <==> !Violates(rule, Observed(value))
  {
  }

  /** On a value that is not blank, only the constraints after "required" decide, all with the rule's message. */
  lemma JudgeNonBlank(name: string, rule: Rule, s: string)
    requires Trim(s) != []
    ensures Judge(name, rule, Text(s)) == if Violates(rule, Text(Trim(s))) then Fail(rule.message) else Pass
  {
  }

  /** The username constraints reject a value exactly when it is not 3 to 20 word characters. */
  lemma UsernameViolations(t: string)
    ensures Violates(UsernameRule, Text(t)) <==> !(3 <= |t| <= 20 && MatchesUsername(t))
  {
    if MatchesUsername(t) {
      UsernameLength(t);
    }
  }

  /**
   * The username rule: valid exactly when the trimmed value has 3 to 20
   * characters, all of them letters, digits or "_"; any failure of a
   * non-empty value carries the rule's message.
   */
  lemma UsernameRuleMeaning(s: string)
    ensures Judge("username", UsernameRule, Text(s)) == Pass <==> 3 <= |Trim(s)| <= 20 && MatchesUsername(Trim(s))
    ensures Trim(s) != [] && Judge("username", UsernameRule, Text(s)) != Pass ==>
              Judge("username", UsernameRule, Text(s)) == Fail(UsernameRule.message)
  {
    if Trim(s) != [] {
      JudgeNonBlank("username", UsernameRule, s);
      UsernameViolations(Trim(s));
    }
  }

  /** An empty username gets "Username is required". */
  lemma UsernameRequired(s: string)
    requires Trim(s) == []
    ensures Judge("username", UsernameRule, Text(s)) == Fail("Username is required")
  {
    UsernameMessage();
  }

  lemma UsernameMessage()
    ensures RequiredMessage("username") == "Username is required"
  {
    assert Capitalise("username") == "Username";
  }

  /** The email constraints reject a value exactly when the email expression does. */
  lemma EmailViolations(t: string)
    ensures Violates(EmailRule, Text(t)) <==> !MatchesEmail(t)
  {
  }

  /** The email rule: valid exactly when the trimmed value has the shape the email expression describes. */
  lemma EmailRuleMeaning(s: string)
    ensures Judge("email", EmailRule, Text(s)) == Pass <==> EmailShape(Trim(s))
    ensures Trim(s) != [] && Judge("email", EmailRule, Text(s)) != Pass ==>
              Judge("email", EmailRule, Text(s)) == Fail(EmailRule.message)
  {
    MatchesEmailIff(Trim(s));
    if Trim(s) != [] {
      JudgeNonBlank("email", EmailRule, s);
      EmailViolations(Trim(s));
    }
  }

  /** The password constraints reject a value exactly when it is shorter than 8 UTF-16 units or the expression refuses it. */
  lemma PasswordViolations(t: string)
    ensures Violates(PasswordRule, Text(t)) <==> !(Utf16Length(t) >= 8 && MatchesPassword(t))
  {
  }

  /**
   * The password rule: valid exactly when the trimmed value has at least 8
   * UTF-16 units and the password expression accepts it.
   */
  lemma PasswordRuleMeaning(s: string)
    ensures Judge("password", PasswordRule, Text(s)) == Pass <==>
              (Utf16Length(Trim(s)) >= 8 && MatchesPassword(Trim(s)))
    ensures Trim(s) != [] && Judge("password", PasswordRule, Text(s)) != Pass ==>
              Judge("password", PasswordRule, Text(s)) == Fail(PasswordRule.message)
  {
    if Trim(s) != [] {
      JudgeNonBlank("password", PasswordRule, s);
      PasswordViolations(Trim(s));
    }
  }

  /** An empty password gets "Password is required". */
  lemma PasswordRequired(s: string)
    requires Trim(s) == []
    ensures Judge("password", PasswordRule, Text(s)) == Fail("Password is required")
  {
    PasswordMessage();
  }

  lemma PasswordMessage()
    ensures RequiredMessage("password") == "Password is required"
  {
    assert Capitalise("password") == "Password";
  }

  /** The age constraints reject a value exactly when `parseInt` finds a number outside 13..120. */
  lemma AgeViolations(t: string)
    ensures Violates(AgeRule, Text(t)) <==> ParseInt(t).Some? && !(13 <= ParseInt(t).value <= 120)
  {
  }

  /**
   * The age rule: valid when empty, when `parseInt` finds no number, or when
   * the number it finds lies in 13..120; a failure carries the rule's message.
   */
  lemma AgeRuleMeaning(s: string)
    ensures Judge("age", AgeRule, Text(s)) == Pass <==>
              (Trim(s) == [] || ParseInt(Trim(s)).None? || 13 <= ParseInt(Trim(s)).value <= 120)
    ensures Judge("age", AgeRule, Text(s)) != Pass ==> Judge("age", AgeRule, Text(s)) == Fail(AgeRule.message)
  {
    if Trim(s) != [] {
      JudgeNonBlank("age", AgeRule, s);
      AgeViolations(Trim(s));
    }
  }

  /** The terms checkbox passes exactly when checked, and fails with "Terms is required", never with the rule's message. */
  lemma TermsRuleMeaning(checked: bool)
    ensures Judge("terms", TermsRule, Checkbox(checked)) == if checked then Pass else Fail("Terms is required")
  {
  }

  /** A non-numeric age is NaN to `parseInt`, so both range checks are false and the field passes. */
  lemma NonNumericAgePasses()
    ensures Judge("age", AgeRule, Text("abc")) == Pass
  {
    var s := "abc";
    assert !IsWhitespace(s[0]) && !IsWhitespace(s[2]);
    assert Trim(s) == s;
    TrimStartNoop(s);
    ParseIntRejectsNonNumeric(s);
    AgeRuleMeaning(s);
  }

  /** An age typed as the decimal numeral of an integer passes exactly when the integer lies in 13..120. */
  lemma AgeOfNumber(n: int)
    ensures Judge("age", AgeRule, Text(Decimal(n))) == if 13 <= n <= 120 then Pass else Fail(AgeRule.message)
  {
    DecimalIsTrimmed(n);
    ParseIntInvertsDecimal(n);
    AgeRuleMeaning(Decimal(n));
  }
}
