# Interactive demo page: a verified model of its decision logic

The repository is one browser script, `script.js`, which wires up a demo page with five features:

- a light/dark **theme toggle** that is remembered between visits;
- an **interactive counter** with increase, decrease and reset buttons and a feedback banner;
- an **FAQ accordion** that keeps at most one answer open, closes on Escape and opens on Enter;
- a **registration form** with a declarative rule table, per-field validation, a password strength meter, a password-confirmation check and a submit handler;
- a **user dashboard** that shows the submitted data.

This project models the logic behind those features in Dafny and proves what it promises. The DOM is replaced by plain state:

- an element's classes and text become fields or datatype values;
- a list of elements becomes an array or a sequence;
- the page's form controls become a map from field id to value.

| module | file | models |
|---|---|---|
| `Wrappers` | wrappers.dfy | `Option`, standing for JavaScript's `null`/`NaN` outcomes |
| `JsText` | jstext.dfy | `trim`, UTF-16 `length`, the capitalised field name, `Number.parseInt` without a radix, and integer-to-text rendering |
| `Counter` | counter.dfy | `initializeCounter`/`updateCounter`: the banner classification and a class with the three handlers |
| `Faq` | faq.dfy | `initializeFAQ` and the Escape/Enter branches of the key handler: an array of items and the pure transitions it follows |
| `Patterns` | patterns.dfy | the three regular expressions as character predicates; the email and password predicates are each proved equal to a separate reading of their expression, and the username predicate is itself the reading of its one character class |
| `Validation` | validation.dfy | the rule table, `validateField`'s guarded chain, and what each rule accepts |
| `Strength` | strength.dfy | `checkPasswordStrength`: score, ordered missing list, band and meter text |
| `Dashboard` | dashboard.dfy | `updateUserDashboard`'s projection of the form data |
| `Theme` | theme.dfy | `initializeThemeToggle`: the dark flag, its icon and its persisted string |
| `RegistrationForm` | form.dfy | the form controller: per-field marks, the strength meter, the input/blur handlers and the submit decision |

## Behaviour kept as the code has it

- **Non-numeric age.** A non-numeric age passes. `parseInt` returns NaN, both range comparisons are false, and the field is accepted (`Validation.AgeRuleMeaning`, `Validation.NonNumericAgePasses`).
- **Integer age.** An age that is an integer's numeral passes exactly in 13..120 (`Validation.AgeOfNumber`). `parseInt` also reads leading digits, so "15abc" counts as 15, and a `0x` prefix switches to hexadecimal.
- **Confirm-password is never validated as it is typed.**
  - The input handler for it sits behind `fieldName === "confirm-password"` (script.js:256). That test never succeeds, because the loop only walks the keys of the rule table and that table has no `confirm-password` key (`Validation.ConfirmHasNoRule`).
  - So the match check runs only on password input, when the confirmation is non-empty, and on submit.
  - The confirmation also has no blur handler.
  - The comment at script.js:255 announces special handling for the confirmation. The model follows what the code does.
- **Empty fields in the match check.** The match check treats an empty password or an empty confirmation as a match, and then touches no error slot. So an empty confirmation never blocks a submission (`RegistrationForm.EmptyConfirmAccepted`).
- **Terms message.** The terms rule's own message is never shown. An unticked box fails the required check with "Terms is required" (`Validation.TermsRuleMeaning`).
- **Password expression.**
  - The expression has no end anchor and consumes one character. Only the first character must come from `[A-Za-z\d@$!%*?&]`, and anything may follow a matching string (`Patterns.PasswordUnanchored`).
  - Its `.*` lookaheads stop at a line terminator.
- **Trimming.** Validation trims the value. The strength meter, the match check and the dashboard use the raw value.
- **Empty password and the meter.** An empty password clears the meter's text and keeps its last CSS class.
- **Submit does not short-circuit.** Submit validates every field of the rule table even after one fails. So every field's mark is refreshed (`RegistrationForm.AfterChecksMarksEach`).

## Model

| member | source | states |
|---|---|---|
| `Counter.FeedbackRanges` | script.js:89-104 | each banner message belongs to exactly one range of counts (0; 1..5; 6 and up; -5..-1; -6 and below), and the tone is "warning" exactly when the count is negative |
| `Counter.FeedbackBoundaries` | script.js:89-104 | the banner at the boundary counts 0, 1, 5, 6, -1, -5 and -6 |
| `Counter.ReplayConcat` | script.js:110-141 | replaying two runs of button presses is replaying the first and then the second from where it left the count |
| `Counter.ReplayWithoutReset` | script.js:110-130 | without a reset, the count moves by the number of increments minus the number of decrements, in any order |
| `Counter.FromZero` | script.js:74-130 | from the initial 0, n increments and m decrements leave n - m |
| `Counter.ResetForgets` | script.js:132-134 | after a reset, the count depends only on the presses that follow it |
| `Counter.CounterController.constructor` | script.js:73-74 | the counter starts at 0, with its display and banner showing 0 |
| `Counter.CounterController.Render` | script.js:82-107 | `updateCounter` leaves the display showing the count as text and the banner matching the count, with the count unchanged |
| `Counter.CounterController.Increase` | script.js:110-112 | the count goes up by one and the display and banner follow it |
| `Counter.CounterController.Decrease` | script.js:121-123 | the count goes down by one and the display and banner follow it |
| `Counter.CounterController.Reset` | script.js:132-134 | the count becomes 0 and the display and banner follow it |
| `Counter.CounterController.Handle` | script.js:110-141 | a button press moves the count by one step and keeps display and banner in step with it |
| `JsText.Trim` | script.js:310 | `trim()` is no longer than its input, leaves no whitespace at either end, is empty exactly for an all-whitespace input, and keeps an already trimmed string unchanged |
| `JsText.LeadingWhitespace` | script.js:310 | the offset where trimming starts: everything before it is whitespace and the character at it is not |
| `JsText.TrimSlice` | script.js:310 | `trim()` is the part of the input that starts after its leading whitespace run and is followed only by whitespace, so it drops nothing but whitespace |
| `JsText.Utf16Length` | script.js:319 | `length` counts UTF-16 units: between one and two per character, and exactly one per character for BMP-only text |
| `JsText.Decimal` | script.js:83 | the rendered count is non-empty, starts with "-" exactly for negatives, and ends with a digit |
| `JsText.ParseIntNegatedNumeral` | script.js:336-341 | `parseInt` of "-" followed by decimal digits is the negated value of the digits |
| `JsText.ParseIntInvertsDecimal` | script.js:336-341 | `parseInt` reads an integer's decimal rendering back as that integer |
| `JsText.ParseIntNumeral` | script.js:336-341 | `parseInt` of a string of decimal digits is that numeral's value |
| `JsText.ParseIntMinus` | script.js:336-341 | `parseInt` of "-" followed by an unsigned numeral is the negated value of the numeral |
| `JsText.ParseIntRejectsNonNumeric` | script.js:336-341 | a value whose first non-blank character is not a sign or digit is NaN to `parseInt` |
| `JsText.DecimalIsTrimmed` | script.js:310 | trimming an integer's decimal rendering leaves it unchanged |
| `Faq.ClickLeavesAtMostOne` | script.js:168-187 | after a click on item i: every other item is closed with "+", item i's open flag is negated, its icon is "−" exactly when it is open, and the open count is 1 if i was closed and 0 if it was open |
| `Faq.ClickSwitchesOpenItem` | script.js:168-187 | with at most one item open, clicking another item closes the open one and opens the clicked one |
| `Faq.ClickOnOpenItemClosesAll` | script.js:180-187 | clicking the open item leaves no item open |
| `Faq.ClickKeepsCoherence` | script.js:169-187 | a click keeps each item, its answer and its icon in agreement |
| `Faq.EscapeClosesAll` | script.js:564-573 | Escape leaves no item open, and from coherent items it leaves every item closed with "+" |
| `Faq.OtherKeysChangeNothing` | script.js:562-579 | keys other than Escape and Enter change no item |
| `Faq.Accordion.constructor` | script.js:154-158 | the accordion holds the items exactly as the markup presents them; `initializeFAQ` sets no item state |
| `Faq.Accordion.Click` | script.js:158-189 | the array becomes the click transition of its old contents (unchanged for a click outside a question), leaving at most one item open |
| `Faq.Accordion.Escape` | script.js:564-573 | the array becomes the Escape transition of its old contents, with no item open |
| `Faq.Accordion.KeyDown` | script.js:562-579 | Escape closes the open items; Enter on a question then acts as a click on it and leaves at most one item open |
| `Patterns.UsernameLength` | script.js:209 | a username the expression accepts is ASCII, so its `length` is its number of characters |
| `Patterns.IndexOf` | script.js:214 | the first position of a character: it holds the character and none comes before it; absence means the character does not occur |
| `Patterns.MatchesEmailSound` | script.js:214 | every string the email predicate accepts is three non-empty runs without whitespace or "@", joined by "@" and "." |
| `Patterns.MatchesEmailComplete` | script.js:214 | every string of that shape is accepted by the email predicate |
| `Patterns.MatchesEmailIff` | script.js:214 | the email predicate accepts exactly the strings that are three non-empty runs without whitespace or "@", joined by "@" and "." |
| `Patterns.FoundBeforeBreakIff` | script.js:220 | the scan for a character class before the first line terminator agrees with the lookahead `(?=.*[class])` |
| `Patterns.MatchesPasswordIff` | script.js:220 | the password predicate accepts exactly the strings whose first character is allowed and which pass all four lookaheads |
| `Patterns.PasswordUnanchored` | script.js:220 | with no end anchor, any suffix keeps a matching password matching |
| `Validation.RuleOrderIsKeys` | script.js:204-236 | the field order the handlers walk is exactly the keys of the rule table, each once |
| `Validation.ConfirmHasNoRule` | script.js:255-258 | `confirm-password` has no rule, so its input branch is never reached |
| `Validation.CheckField` | script.js:307-345 | the guarded chain required → minLength → maxLength → pattern → min → max fails exactly when the rule's meaning rejects the value, with the first failing check's message, and leaves an empty message on success |
| `Validation.UnruledOrAbsentPasses` | script.js:301-305 | a field with no rule or no control is valid |
| `Validation.RequiredEmptyFails` | script.js:313-316 | a required field that is empty after trimming fails with the capitalised field name followed by " is required" |
| `Validation.OptionalEmptyPasses` | script.js:313-344 | an optional field that is empty after trimming passes, whatever its other constraints |
| `Validation.LaterFailuresShareMessage` | script.js:319-344 | a non-empty value fails only with the rule's single message, and exactly when some later check rejects it |
| `Validation.UsernameViolations` | script.js:205-211 | a non-empty username breaks its rule exactly when it does not have 3 to 20 characters that are all letters, digits or "_" |
| `Validation.UsernameRuleMeaning` | script.js:205-211 | a username is valid exactly when, trimmed, it has 3 to 20 characters, all letters, digits or "_"; a non-blank failure carries the rule's message |
| `Validation.UsernameRequired` | script.js:310-316 | a blank username fails with "Username is required" |
| `Validation.EmailViolations` | script.js:212-216 | a non-empty email breaks its rule exactly when the email expression rejects it |
| `Validation.EmailRuleMeaning` | script.js:212-216 | an email is valid exactly when, trimmed, it has the shape local@domain.tld with no whitespace or extra "@" |
| `Validation.PasswordViolations` | script.js:217-222 | a non-empty password breaks its rule exactly when it is shorter than 8 UTF-16 units or the password expression rejects it |
| `Validation.PasswordRuleMeaning` | script.js:217-222 | a password is valid exactly when, trimmed, it has at least 8 UTF-16 units and the password expression accepts it; a non-blank failure carries the rule's message |
| `Validation.PasswordRequired` | script.js:310-316 | a blank password fails with "Password is required" |
| `Validation.AgeViolations` | script.js:223-228 | a non-empty age breaks its rule exactly when `parseInt` finds a number outside 13..120 |
| `Validation.AgeRuleMeaning` | script.js:223-228 | an age is valid exactly when it is empty, is NaN to `parseInt`, or parses to a number in 13..120; a failure carries the rule's message |
| `Validation.NonNumericAgePasses` | script.js:336-344 | the age "abc" passes, because NaN fails both range comparisons |
| `Validation.AgeOfNumber` | script.js:336-344 | an age typed as an integer's numeral passes exactly when the integer lies in 13..120 |
| `Validation.TermsRuleMeaning` | script.js:229-232 | the terms box passes exactly when ticked and otherwise fails with "Terms is required" |
| `Strength.CountAndUnmet` | script.js:401-419 | every criterion is either counted or listed as missing, never both |
| `Strength.ScoreAndMissing` | script.js:398-419 | score + number of missing hints = 5; a criterion is listed exactly when unmet; the score is 5 exactly when nothing is missing |
| `Strength.StrongIffAllMet` | script.js:422-431 | the meter says Strong exactly when all five criteria are met |
| `Strength.Step` | script.js:401-419 | checking one more criterion adds its point to the count and, when it is unmet, appends its hint to the list |
| `Strength.UnfoldScore` | script.js:401-417 | the score is the sum of the five criteria's points |
| `Strength.UnfoldHints` | script.js:401-419 | the hint list is the five criteria's hints for the unmet ones, in the order length, lowercase, uppercase, number, special character |
| `Strength.Assess` | script.js:398-419 | the five sequential checks produce the score and the hints of the unmet criteria in the fixed order length, lowercase, uppercase, number, special character |
| `Strength.CheckPasswordStrength` | script.js:390-432 | an empty password clears the meter; otherwise the meter shows the band and the joined missing list for the score |
| `Strength.WeakExample` | script.js:398-419 | "abc" scores 1 and misses length, uppercase, number and special character, in that order |
| `Strength.StrongExample` | script.js:398-431 | "Abcdefg1!" meets every criterion and is Strong |
| `Dashboard.ProjectMeaning` | script.js:466-490 | username and email are shown as submitted ("null" when missing); age is shown as submitted, or "Not specified" when empty or missing; contact shows "Email" exactly for the value "email", otherwise "Phone" |
| `Dashboard.AgeFallback` | script.js:486 | the age paragraph reads "Not specified" exactly for a missing or empty age, or for that text typed in |
| `Theme.StartsDarkIff` | script.js:14-20 | the page starts dark exactly when the stored theme is "dark"; a missing or empty entry reads as "light" |
| `Theme.ReloadRestoresMode` | script.js:14-33 | the string a toggle persists restores the same mode on the next load |
| `Theme.ThemeController.constructor` | script.js:8-20 | dark exactly when "dark" is stored, and then the icon is the sun |
| `Theme.ThemeController.Toggle` | script.js:23-35 | the mode flips; the icon is the sun in dark mode and the moon in light mode; the persisted string is the new mode; the announcement names it |
| `RegistrationForm.MarkFor` | script.js:346-355 | a pass marks the field `success` with its error hidden and empty; a failure marks it `error` with the message shown |
| `RegistrationForm.MatchVerdict` | script.js:368-381 | no check when either password is empty; otherwise a pass exactly when the two are equal, with "Passwords do not match" on failure |
| `RegistrationForm.PasswordsMatchIff` | script.js:363-385 | `validatePasswordMatch` returns true exactly when either field is empty or the two are equal |
| `RegistrationForm.AfterChecksStep` | script.js:269-273 | validating one more field of the list applies that field's check to the marks of the fields before it |
| `RegistrationForm.CheckedMeansPasses` | script.js:269-273 | after its check, a field counts as valid exactly when its rule passes it |
| `RegistrationForm.AfterChecksMarksEach` | script.js:269-273 | validating a list of fields gives every one with a rule and a control the mark of its own verdict, and leaves every other mark alone |
| `RegistrationForm.AcceptedFieldPasses` | script.js:263-280 | an accepted submission's rule fields all pass their rules |
| `RegistrationForm.AcceptedUsername` | script.js:266-280 | an accepted submission has a trimmed username of 3 to 20 letters, digits or "_" |
| `RegistrationForm.AcceptedEmail` | script.js:266-280 | an accepted submission has a trimmed email of the shape local@domain.tld |
| `RegistrationForm.AcceptedTerms` | script.js:266-280 | an accepted submission has the terms box ticked |
| `RegistrationForm.AcceptedPasswordsAgree` | script.js:275-280 | an accepted submission has equal passwords whenever both are filled in |
| `RegistrationForm.EmptyConfirmAccepted` | script.js:263-280 | an empty confirmation never blocks a submission whose rule fields pass |
| `RegistrationForm.FormController.constructor` | script.js:199-201 | the form starts visible, with no marks, no strength text and no dashboard |
| `RegistrationForm.FormController.ValidateField` | script.js:300-358 | the field gets the mark of its rule's verdict, and the result is true exactly when it has no rule or control or is now marked `success` |
| `RegistrationForm.FormController.ValidatePasswordMatch` | script.js:363-385 | returns the match decision and updates only the confirmation's mark, and only when both fields are filled in |
| `RegistrationForm.FormController.ShowStrength` | script.js:390-432 | the meter shows what `checkPasswordStrength` renders for the value: for an empty value the text is emptied and the class kept; otherwise both text and class are the band's |
| `RegistrationForm.FormController.PasswordInput` | script.js:244-252 | stores the value, marks the password field, shows the strength of the raw value, and re-checks the match when the confirmation is filled in |
| `RegistrationForm.FormController.Type` | script.js:236-260 | typing into any other text field changes only its value |
| `RegistrationForm.FormController.Tick` | script.js:236-260 | ticking a checkbox changes only its value |
| `RegistrationForm.FormController.ChooseContact` | script.js:470 | the preferred contact is the chosen value |
| `RegistrationForm.FormController.Blur` | script.js:240 | leaving a field validates it when it has a rule |
| `RegistrationForm.FormController.Submit` | script.js:263-295 | every rule field is marked (no short-circuit) and then the match is checked; the submission is accepted exactly when all pass, and then the form is hidden and the success panel and the dashboard of the raw data are shown; otherwise nothing but the marks changes and the retry banner is returned |

## Left out

- Timers and animation are not modelled, each for the reason given:
  - the welcome message's fade chain and its 3-second revert (script.js:45-64): fire-and-forget timers. The model returns the message that gets displayed (`Theme.ThemeController.Toggle`, `RegistrationForm.FormController.Submit`).
  - `showMessage`'s auto-hide (script.js:504-512): a timer.
  - the 100 ms button press transform: a visual effect only.
  - `hideError`'s 200 ms delayed text clear: collapsed to its settled state (hidden, empty text). So a `showError` landing inside that window and then being cleared by the late timer is not modelled.
- Browser storage reads and writes: the stored theme is a constructor parameter and a field.
- DOM plumbing: looking up elements, `scrollIntoView`, `preventDefault`, event delegation and `closest`. Also the smooth-scroll links (script.js:517-530) and the start-up sequence with its console output (script.js:538-554).
- `Theme.ThemeController.constructor`: in light mode the icon is whatever the markup has. The markup is not part of this model, so it is a parameter.
- `Faq.Accordion.KeyDown`: pressing Enter on a focused `<button>` may also make the browser fire a native click, which would toggle twice. That is browser behaviour outside the script.
- `Counter.CounterController.Render`: the count is a JavaScript number and is modelled as an unbounded integer. Precision loss beyond 2^53 presses is not modelled.
- `JsText.ParseIntNumeral`: `parseInt` is modelled over integers. Rounding of numerals too long for a double is not modelled; it cannot change a comparison with 13 or 120.
- `JsText.Capitalise` upper-cases ASCII letters only. The field names it is applied to are ASCII.
- `Dashboard.ProjectMeaning`: the dashboard is built by `innerHTML` interpolation. HTML in the submitted values is not escaped by the source, and the model keeps the strings as strings without modelling markup parsing.
- `RegistrationForm.FormController.constructor`: the initial CSS classes of fields and of the strength meter come from the markup and are not modelled. A field without a mark has neither `success` nor `error`.
- FormData keys are taken to equal field ids.
- `RegistrationForm.FormController.constructor`: the controller requires the password and confirm-password controls to exist as text inputs, and so do the handlers that read them. Without those controls the source throws a `TypeError` when it reads `.value` of `null` (script.js:368-369). That error path is not modelled.
- The non-ASCII literals in `script.js` are stored double-encoded: each character's UTF-8 bytes were read as Windows-1252 and encoded again. For example, the FAQ minus sign is stored as the three characters "âˆ’". The model does not reproduce these stored characters. It uses the characters they were meant to be:
  - U+2212 (minus sign);
  - U+2713 (check mark);
  - U+2600 U+FE0F (sun);
  - U+1F319 (crescent moon).
