/**
 * The registration form as a whole: the controls on the page, the
 * success/error mark and error slot of each field, the password strength
 * meter, and the submit handler that validates every field and then either
 * replaces the form by the success panel and the dashboard or asks the user
 * to fix the errors.
 */
module RegistrationForm {
  import opened Wrappers
  import opened JsText
  import opened Validation
  import Strength
  import Dashboard

  /** The field's CSS state: neither class yet, `success`, or `error`. */
  datatype FieldStatus = Accepted | Rejected

  /** The error element of a field: its text and whether it carries the `show` class. */
  datatype ErrorSlot = ErrorSlot(text: string, shown: bool)

  /** What a validation leaves on a field: its class and its error element. */
  datatype Mark = Mark(status: FieldStatus, error: ErrorSlot)

  /**
   * The mark a verdict leaves: a pass gives `success` and a hidden error (its
   * text cleared once the delay of `hideError` has run), a failure gives
   * `error` and the message shown.
   */
  function MarkFor(verdict: Verdict): (m: Mark)
    ensures m.status == Accepted <==> verdict == Pass
    ensures m.error.shown <==> verdict != Pass
    ensures verdict.Fail? ==> m.error.text == verdict.message
    ensures verdict.Pass? ==> m.error.text == ""
  {
    match verdict
    case Pass => Mark(Accepted, ErrorSlot("", false))
    case Fail(message) => Mark(Rejected, ErrorSlot(message, true))
  }

  const MismatchMessage := "Passwords do not match"

  /** The raw `value` of a text control (a missing or non-text control reads as empty). */
  function RawText(page: map<string, FieldValue>, id: string): string
  {
    if id in page && page[id].Text? then page[id].raw else ""
  }

  /**
   * `validatePasswordMatch` on the two raw values: `None` when either is empty
   * and nothing is checked, otherwise the verdict of comparing them.
   */
  function MatchVerdict(password: string, confirm: string): (r: Option<Verdict>)
    ensures r.None? <==> password == "" || confirm == ""
    ensures r.Some? ==> (r.value == Pass <==> password == confirm)
    ensures r.Some? && r.value != Pass ==> r.value == Fail(MismatchMessage)
  {
    if password == "" || confirm == "" then None
    else if password == confirm then Some(Pass)
    else Some(Fail(MismatchMessage))
  }

  /** The boolean `validatePasswordMatch` returns: true unless both are filled in and differ. */
  predicate PasswordsMatch(password: string, confirm: string)
  {
    MatchVerdict(password, confirm) != Some(Fail(MismatchMessage))
  }

  lemma PasswordsMatchIff(password: string, confirm: string)
    ensures PasswordsMatch(password, confirm) <==> password == "" || confirm == "" || password == confirm
  {
  }

  /** The marks after `validatePasswordMatch`: only the confirm field's mark changes, and only when both are filled in. */
  function AfterMatch(marks: map<string, Mark>, page: map<string, FieldValue>): map<string, Mark>
  {
    match MatchVerdict(RawText(page, "password"), RawText(page, "confirm-password"))
    case None => marks
    case Some(v) => marks["confirm-password" := MarkFor(v)]
  }

  /** The marks after `validateField(name)`: a field with a rule and a control gets the mark of its verdict. */
  function AfterCheck(marks: map<string, Mark>, page: map<string, FieldValue>, name: string): map<string, Mark>
  {
    if name in Rules && name in page then marks[name := MarkFor(Judge(name, Rules[name], page[name]))] else marks
  }

  /** The marks after validating each of `names` in turn. */
  function AfterChecks(marks: map<string, Mark>, page: map<string, FieldValue>, names: seq<string>): map<string, Mark>
  {
    if names == [] then marks
    else AfterCheck(AfterChecks(marks, page, names[..|names| - 1]), page, names[|names| - 1])
  }

  /**
   * Validating a list of fields marks every one of them that has a rule and
   * a control with its own verdict, and leaves every other mark alone: no
   * failure stops the later fields from being checked.
   */
  lemma {:induction false} AfterChecksMarksEach(marks: map<string, Mark>, page: map<string, FieldValue>, names: seq<string>)
    ensures forall name :: name in names && name in Rules && name in page ==>
              name in AfterChecks(marks, page, names) &&
              AfterChecks(marks, page, names)[name] == MarkFor(Judge(name, Rules[name], page[name]))
    ensures forall name :: name !in names || name !in Rules || name !in page ==>
              (name in AfterChecks(marks, page, names) <==> name in marks) &&
              (name in marks ==> AfterChecks(marks, page, names)[name] == marks[name])
  {
    if names != [] {
      var init := names[..|names| - 1];
      AfterChecksMarksEach(marks, page, init);
      assert forall name :: name in names <==> name in init || name == names[|names| - 1];
    }
  }

  /** One more field validated: the marks are those of the shorter list, then that field's check. */
  lemma AfterChecksStep(marks: map<string, Mark>, page: map<string, FieldValue>, names: seq<string>, k: nat)
    requires k < |names|
    ensures AfterChecks(marks, page, names[..k + 1]) == AfterCheck(AfterChecks(marks, page, names[..k]), page, names[k])
    ensures forall name :: name in names[..k + 1] <==> name in names[..k] || name == names[k]
  {
    assert names[..k + 1][..k] == names[..k];
  }

  /** A field is reported valid after its check exactly when its rule passes it. */
  lemma CheckedMeansPasses(marks: map<string, Mark>, page: map<string, FieldValue>, name: string)
    ensures (name !in Rules || name !in page || AfterCheck(marks, page, name)[name].status == Accepted)
            <==> Validation.ValidateField(Rules, page, name) == Pass
  {
  }

  /** The submit decision: every rule field validates and the password match check passes. */
  predicate SubmitAccepted(page: map<string, FieldValue>)
  {
    && (forall name :: name in RuleOrder ==> Validation.ValidateField(Rules, page, name) == Pass)
    && PasswordsMatch(RawText(page, "password"), RawText(page, "confirm-password"))
  }

  /** An accepted submission's rule field passes its own rule. */
  lemma AcceptedFieldPasses(page: map<string, FieldValue>, name: string)
    requires SubmitAccepted(page) && name in RuleOrder && name in page
    ensures Judge(name, Rules[name], page[name]) == Pass
  {
    assert Validation.ValidateField(Rules, page, name) == Pass;
  }

  /** An accepted submission has a username of 3 to 20 letters, digits or underscores once trimmed. */
  lemma AcceptedUsername(page: map<string, FieldValue>)
    requires SubmitAccepted(page) && "username" in page && page["username"].Text?
    ensures 3 <= |Trim(page["username"].raw)| <= 20 && Patterns.MatchesUsername(Trim(page["username"].raw))
  {
    var raw := page["username"].raw;
    assert Judge("username", UsernameRule, Text(raw)) == Pass by {
      AcceptedFieldPasses(page, "username");
    }
    UsernameRuleMeaning(raw);
  }

  /** An accepted submission has an email of the shape local@domain.tld once trimmed. */
  lemma AcceptedEmail(page: map<string, FieldValue>)
    requires SubmitAccepted(page) && "email" in page && page["email"].Text?
    ensures Patterns.EmailShape(Trim(page["email"].raw))
  {
    var raw := page["email"].raw;
    assert Judge("email", EmailRule, Text(raw)) == Pass by {
      AcceptedFieldPasses(page, "email");
    }
    EmailRuleMeaning(raw);
  }

  /** An accepted submission has the terms box ticked. */
  lemma AcceptedTerms(page: map<string, FieldValue>)
    requires SubmitAccepted(page) && "terms" in page && page["terms"].Checkbox?
    ensures page["terms"].checked
  {
    var ticked := page["terms"].checked;
    assert Judge("terms", TermsRule, Checkbox(ticked)) == Pass by {
      AcceptedFieldPasses(page, "terms");
    }
    TermsRuleMeaning(ticked);
  }

  /** An accepted submission has equal passwords whenever both are filled in. */
  lemma AcceptedPasswordsAgree(page: map<string, FieldValue>)
    requires SubmitAccepted(page)
    ensures RawText(page, "password") != "" && RawText(page, "confirm-password") != "" ==>
              RawText(page, "password") == RawText(page, "confirm-password")
  {
    PasswordsMatchIff(RawText(page, "password"), RawText(page, "confirm-password"));
  }

  /**
   * The confirmation field has no rule of its own, so an empty confirmation
   * never holds a submission back: it is accepted whenever the rule fields are.
   */
  lemma EmptyConfirmAccepted(page: map<string, FieldValue>)
    requires forall name :: name in RuleOrder ==> Validation.ValidateField(Rules, page, name) == Pass
    ensures SubmitAccepted(page["confirm-password" := Text("")])
  {
    var blank := page["confirm-password" := Text("")];
    forall name | name in RuleOrder
      ensures Validation.ValidateField(Rules, blank, name) == Pass
    {
      ConfirmHasNoRule();
      assert name != "confirm-password";
      assert Validation.ValidateField(Rules, page, name) == Pass;
    }
  }

  /** A FormData entry: a text control's raw value, "on" for a ticked checkbox, `null` otherwise. */
  function Entry(page: map<string, FieldValue>, name: string): Option<string>
  {
    if name !in page then None
    else match page[name]
      case Text(s) => Some(s)
      case Checkbox(b) => if b then Some("on") else None
  }

  /** The dashboard built from the submitted form. */
  function DashboardOf(page: map<string, FieldValue>, contact: Option<string>): Dashboard.View
  {
    Dashboard.Project(Entry(page, "username"), Entry(page, "email"), Entry(page, "age"), contact)
  }

  const SuccessBanner := "Registration completed successfully!"
  const RetryBanner := "Please fix the errors in the form."

  /**
   * The strength element after showing a meter: a cleared meter leaves empty
   * text and the class it had, any other meter its own text and class.
   */
  predicate Shows(meter: Strength.Meter, classBefore: string, text: string, cssClass: string)
  {
    match meter
    case Cleared => text == "" && cssClass == classBefore
    case Shown(t, c) => text == t && cssClass == c
  }

  /** The registration form, its field marks and the page state the submit handler changes. */
  class FormController {
    var page: map<string, FieldValue>
    var contact: Option<string>
    var marks: map<string, Mark>
    var strengthText: string
    var strengthClass: string
    var formVisible: bool
    var successVisible: bool
    var dashboard: Option<Dashboard.View>

    /** The two password controls the handlers read are text inputs on the page. */
    ghost predicate Valid()
      reads this
    {
      && "password" in page && page["password"].Text?
      && "confirm-password" in page && page["confirm-password"].Text?
    }

    /** The form as first shown: nothing validated, no strength text, the form visible. */
    constructor (controls: map<string, FieldValue>, choice: Option<string>)
      requires "password" in controls && controls["password"].Text?
      requires "confirm-password" in controls && controls["confirm-password"].Text?
      ensures Valid()
      ensures page == controls && contact == choice && marks == map[]
      ensures strengthText == "" && formVisible && !successVisible && dashboard.None?
    {
      page := controls;
      contact := choice;
      marks := map[];
      strengthText := "";
      strengthClass := "password-strength";
      formVisible := true;
      successVisible := false;
      dashboard := None;
    }

    /**
     * `validateField(name)`: the verdict of the field's rule on its control;
     * a field with a rule and a control gets the mark of that verdict.
     */
    method ValidateField(name: string) returns (valid: bool)
      modifies this`marks
      ensures marks == AfterCheck(old(marks), page, name)
      ensures valid <==> name !in Rules || name !in page || marks[name].status == Accepted
    {
      if name !in page || name !in Rules {
        return true;
      }
      var message;
      valid, message := CheckField(name, Rules[name], page[name]);
      marks := marks[name := if valid then Mark(Accepted, ErrorSlot("", false)) else Mark(Rejected, ErrorSlot(message, true))];
    }

    /** `validatePasswordMatch()`: true unless both passwords are filled in and differ. */
    method ValidatePasswordMatch() returns (valid: bool)
      requires Valid()
      modifies this`marks
      ensures valid == PasswordsMatch(RawText(page, "password"), RawText(page, "confirm-password"))
      ensures marks == AfterMatch(old(marks), page)
    {
      var password := page["password"].raw;
      var confirm := page["confirm-password"].raw;
      if password == "" || confirm == "" {
        return true;
      }
      valid := password == confirm;
      if valid {
        marks := marks["confirm-password" := Mark(Accepted, ErrorSlot("", false))];
      } else {
        marks := marks["confirm-password" := Mark(Rejected, ErrorSlot(MismatchMessage, true))];
      }
    }

    /**
     * `checkPasswordStrength(password)` with its effect on the strength
     * element: an empty password empties the text and keeps the class;
     * otherwise the text and class of the password's meter.
     */
    method ShowStrength(password: string)
      modifies this`strengthText, this`strengthClass
      ensures Shows(Strength.MeterFor(password), old(strengthClass), strengthText, strengthClass)
    {
      var meter := Strength.CheckPasswordStrength(password);
      match meter
      case Cleared => strengthText := "";
      case Shown(text, cssClass) => strengthText, strengthClass := text, cssClass;
    }

    /**
     * The password's input handler: store the new value, validate the field,
     * show the strength of the raw value, and re-check the match when the
     * confirmation is filled in.
     */
    method PasswordInput(value: string)
      requires Valid()
      modifies this`page, this`marks, this`strengthText, this`strengthClass
      ensures Valid()
      ensures page == old(page)["password" := Text(value)]
      ensures marks == AfterMatch(AfterCheck(old(marks), page, "password"), page)
      ensures Shows(Strength.MeterFor(value), old(strengthClass), strengthText, strengthClass)
    {
      ghost var before := marks;
      page := page["password" := Text(value)];
      var _ := ValidateField("password");
      ghost var checked := marks;
      assert checked == AfterCheck(before, page, "password");
      ShowStrength(value);
      if page["confirm-password"].raw != "" {
        var _ := ValidatePasswordMatch();
        assert marks == AfterMatch(checked, page);
      } else {
        assert MatchVerdict(RawText(page, "password"), RawText(page, "confirm-password")).None?;
        assert marks == checked;
      }
    }

    /** Typing into any other text control only changes its value: no handler validates it as it changes. */
    method Type(name: string, value: string)
      requires Valid()
      requires name != "password" && name in page && page[name].Text?
      modifies this`page
      ensures Valid()
      ensures page == old(page)[name := Text(value)]
    {
      page := page[name := Text(value)];
    }

    /** Ticking or unticking a checkbox. */
    method Tick(name: string, checked: bool)
      requires Valid()
      requires name in page && page[name].Checkbox?
      modifies this`page
      ensures Valid()
      ensures page == old(page)[name := Checkbox(checked)]
    {
      page := page[name := Checkbox(checked)];
    }

    /** Choosing a preferred contact method. */
    method ChooseContact(choice: string)
      modifies this`contact
      ensures contact == Some(choice)
    {
      contact := Some(choice);
    }

    /** Leaving a control: the fields of the rule table validate themselves on blur. */
    method Blur(name: string)
      modifies this`marks
      ensures marks == AfterCheck(old(marks), page, name)
    {
      var _ := ValidateField(name);
    }

    /**
     * The submit handler: validate every field of the rule table in order,
     * without stopping at the first failure, then the password match; on
     * success hide the form, show the success panel and the dashboard.
     */
    method Submit() returns (accepted: bool, banner: string)
      requires Valid()
      modifies this`marks, this`formVisible, this`successVisible, this`dashboard
      ensures accepted <==> SubmitAccepted(page)
      ensures marks == AfterMatch(AfterChecks(old(marks), page, RuleOrder), page)
      ensures accepted ==> !formVisible && successVisible && dashboard == Some(DashboardOf(page, contact))
      ensures accepted ==> banner == SuccessBanner
      ensures !accepted ==> formVisible == old(formVisible) && successVisible == old(successVisible)
                            && dashboard == old(dashboard) && banner == RetryBanner
    {
      accepted := true;
      for k := 0 to |RuleOrder|
        invariant marks == AfterChecks(old(marks), page, RuleOrder[..k])
        invariant accepted <==> forall name :: name in RuleOrder[..k] ==> Validation.ValidateField(Rules, page, name) == Pass
        invariant formVisible == old(formVisible) && successVisible == old(successVisible) && dashboard == old(dashboard)
      {
        ghost var before := marks;
        var valid := ValidateField(RuleOrder[k]);
        CheckedMeansPasses(before, page, RuleOrder[k]);
        AfterChecksStep(old(marks), page, RuleOrder, k);
        if !valid {
          accepted := false;
        }
      }
      assert RuleOrder[..|RuleOrder|] == RuleOrder;
      var matched := ValidatePasswordMatch();
      if !matched {
        accepted := false;
      }
      if accepted {
        formVisible := false;
        successVisible := true;
        dashboard := Some(DashboardOf(page, contact));
        banner := SuccessBanner;
      } else {
        banner := RetryBanner;
      }
    }
  }
}
