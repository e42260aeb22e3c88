# Registration page of the SA Driving School site, in Dafny

This project models the logic behind the registration page of the SA Driving
School web site (`src/pages/Register.tsx`). It covers the following:

- **Catalog** (`catalog.dfy`). The nine courses with their prices, names and
  descriptions, and the four payment methods. Prices are whole cents; a
  missing price stands for `null`, which the page shows as "Contact Us".
  `calculateTotalPrice` gives one of three results: no course selected,
  "Contact Us", or an amount. The way the page writes an amount at `${total}`
  is modelled too: 105 is "105", 157.5 is "157.5", 183.75 is "183.75".
- **Form record** (`form_state.dfy`). The eleven text fields of `formData`,
  the field names `handleChange` is called with, a record update with one
  field replaced, and the empty record the form is reset to.
- **Validation** (`validation.dfy`). `validateForm` runs nine checks in a fixed
  order, and the first one that fails decides the message. The model writes
  out:
  - JavaScript's `trim` and its white-space set;
  - the email regular expression `^[^\s@]+@[^\s@]+\.[^\s@]+$`;
  - the age rule, which is the current year minus the birth year, at least 15.
- **Registration** (`registration.dfy`). A `RegistrationForm` class holds the
  form's state. `HandleChange` updates one field. `HandleSubmit` does one of
  three things:
  - on a validation error, it shows the error and keeps the record;
  - if the payment step fails, it shows "Payment Failed" and keeps the record;
  - otherwise, it shows the success message for the chosen payment method and
    resets every field.

  `HandleSubmit` is specified by the function `Submit`. The lemmas about
  `Submit` state what each path shows and leaves behind.
- **Text helpers** (`strings.dfy`). Trimming, digits and the dollar
  formatting, each proved against an independent reading: text that
  "strips to" its trimmed form, digit parsing, and a parser that inverts the
  dollar formatting. The substring predicate `Contains` is a plain definition
  used to state what the success messages contain.

The model follows the code in these places, which are easy to overlook:

- **Unparsable date of birth.** `new Date(...)` yields an invalid date whose
  year is NaN, and `NaN < 15` is false. Such a record therefore passes the age
  check (`UnparsableBirthDatePasses`).
- **Unknown payment id.** The success `switch` has no default. An id it does not
  list leaves the message at the empty string (`SuccessMessage`). With the
  page's own radio buttons this does not happen (`EveryPaymentMethodHasMessage`).
- **Course missing from the catalog.** For a key that is neither a catalog
  key nor a property every JavaScript object inherits, the lookup inside the
  `try` of `handleSubmit` reads `.price` of `undefined` and throws. Called with
  such a record, `handleSubmit` would therefore show the payment failure
  notice, and `Submit` takes that path for every key outside the catalog (see
  "## Left out" for inherited names). On the page itself this never shows:
  the render at line 375 calls `calculateTotalPrice` and throws first, and
  the course select cannot produce such a key.
- **Age in calendar years.** Only calendar years are compared. Someone born
  in December 2009 is accepted in January 2024 (`AgeBoundary`).

## Model

| member | source | states |
|---|---|---|
| Catalog.CoursePrices | src/pages/Register.tsx:15-61 | the nine course keys with their prices in cents, names and descriptions; `CatalogHasNoContactUs` proves every entry has a price |
| Catalog.PaymentMethods | src/pages/Register.tsx:63-84 | the four payment methods with their ids, names and descriptions; `EveryPaymentMethodHasMessage` proves each id has a success text |
| Catalog.CalculateTotalPrice | src/pages/Register.tsx:100-105 | no course gives "no total"; a course without a price gives "Contact Us"; otherwise the result is the course's catalog price, each case in both directions |
| Catalog.TotalText | src/pages/Register.tsx:148-154 | how `${total}` renders a total: "null", "Contact Us", or the dollar text of the amount; `FeedbackPrice` and `OnlineAdultPrice` pin it on catalog prices |
| Catalog.CatalogHasNoContactUs | src/pages/Register.tsx:15-61 | every course in the catalog has a price, so a selected course always yields an amount |
| Catalog.FeedbackPrice | src/pages/Register.tsx:36-40 | the feedback lesson totals 10500 cents and renders as "105" |
| Catalog.OnlineAdultPrice | src/pages/Register.tsx:26-30 | the adult online course totals 15750 cents and renders as "157.5" |
| Strings.Trim | src/pages/Register.tsx:109 | `s.trim()`, as leading then trailing white space removed; `TrimStrips` and `TrimEmptyIffBlank` state what it leaves |
| Strings.TrimStart | src/pages/Register.tsx:109 | the result is a suffix of the input, what was cut is all white space, and the result does not start with white space |
| Strings.TrimEnd | src/pages/Register.tsx:109 | the result is a prefix of the input, what was cut is all white space, and the result does not end with white space |
| Strings.TrimStrips | src/pages/Register.tsx:109 | trim removes exactly the leading and trailing white space: the input is blank, then the result, then blank, and the result is empty or starts and ends with a non-white-space character |
| Strings.StripsToEmptyIffBlank | src/pages/Register.tsx:109-112 | a string that strips to r has r empty exactly when the string is all white space |
| Strings.TrimEmptyIffBlank | src/pages/Register.tsx:109-112 | `!s.trim()` holds exactly when s is empty or all white space |
| Strings.FormatDollars | src/pages/Register.tsx:148-154 | a whole price is written as digits only; the dollar part starts with '0' only below one dollar, and that '0' is then the whole dollar part; any other price as digits, '.', and one fraction digit when the cents are a multiple of ten, two otherwise, never ending in '0'; `FormatDollarsRoundTrip` proves the text denotes the price |
| Strings.NatToString | src/pages/Register.tsx:148 | a number is written as a non-empty run of decimal digits with no leading zero |
| Strings.NatToStringRoundTrip | src/pages/Register.tsx:148 | reading back the digits of a written number gives the number |
| Strings.FormatDollarsRoundTrip | src/pages/Register.tsx:148-154 | the dollar text of a price in cents (whole part, then at most two fraction digits without trailing zeros) parses back to the same number of cents |
| FormState.FormData | src/pages/Register.tsx:86-98 | the eleven text fields of the form record; `FieldsDetermineRecord` proves they determine it |
| FormState.Empty | src/pages/Register.tsx:86-98 | the record the form starts with and is reset to; `EmptyIsBlank` proves every field is "" |
| FormState.Update | src/pages/Register.tsx:189-191 | the updated field holds the new value and every other field is unchanged |
| FormState.FieldsDetermineRecord | src/pages/Register.tsx:86-98 | two records that agree on all eleven fields are equal |
| FormState.UpdateOverwrites | src/pages/Register.tsx:189-191 | two changes to the same field leave only the second value |
| FormState.UpdateWithOwnValue | src/pages/Register.tsx:189-191 | writing a field's own value back leaves the record unchanged |
| FormState.UpdatesCommute | src/pages/Register.tsx:189-191 | changes to two different fields can be made in either order |
| FormState.EmptyIsBlank | src/pages/Register.tsx:167-179 | every field of the reset record is "" |
| FormState.UpdatePreservesConsistent | src/pages/Register.tsx:306-348 | the empty record is consistent; an update with a value the course select or the payment radios can produce keeps a record consistent |
| Validation.MatchesEmailPattern | src/pages/Register.tsx:110 | the regular-expression test: some '@' and some later '.' split the text into three non-empty runs free of white space and '@'; `EmailPatternMeaning` gives its meaning in both directions |
| Validation.EmailPatternMeaning | src/pages/Register.tsx:110 | the email pattern accepts exactly the strings with no white space and one '@' with text before it, and after it a '.' with text on both sides |
| Validation.NoAtNoEmail | src/pages/Register.tsx:110 | a string with no '@' is rejected by the pattern |
| Validation.EmailAccepted | src/pages/Register.tsx:110 | "john.doe@example.com" is accepted |
| Validation.EmailsRejected | src/pages/Register.tsx:110 | "not-an-email", "a@.c", "a@b@c.d" and "a b@c.d" are rejected |
| Validation.RuleOrder | src/pages/Register.tsx:108-120 | the nine checks in the order validateForm applies them |
| Validation.Message | src/pages/Register.tsx:108-120 | the error text of each check; `MessagesDistinct` proves the nine are pairwise different |
| Validation.ValidateForm | src/pages/Register.tsx:107-123 | validateForm as its chain of nine checks; `ValidateFollowsRuleOrder` and `ValidIffAllHold` prove it reports the earliest failing check in `RuleOrder` and accepts exactly when all hold |
| Validation.FirstFailing | src/pages/Register.tsx:107-122 | the index returned is the first check that fails: all earlier checks hold and the one at the index fails, or none fails |
| Validation.MessagesDistinct | src/pages/Register.tsx:108-120 | the nine error messages are pairwise different, so each names its check |
| Validation.HoldsMeaning | src/pages/Register.tsx:109-112 | the trimmed-text checks pass exactly for non-blank text, and the email check exactly for email-shaped text |
| Validation.EarliestFailureReported | src/pages/Register.tsx:107-122 | when check k is the first to fail, validateForm returns its message |
| Validation.AllHoldAccepted | src/pages/Register.tsx:107-122 | when all nine checks hold, validateForm returns no error |
| Validation.ValidateFollowsRuleOrder | src/pages/Register.tsx:107-122 | validateForm returns the message of the earliest failing check in the fixed order, or no error when none fails |
| Validation.ValidIffAllHold | src/pages/Register.tsx:107-122 | validateForm returns no error exactly when all nine checks hold |
| Validation.MissingCourseWins | src/pages/Register.tsx:108 | without a course the error is always "Please select a course", whatever else is filled in |
| Validation.BlankNameRejected | src/pages/Register.tsx:109 | with a course chosen, a first or last name made only of white space gives "Please enter your full name" |
| Validation.BlankPhoneOrAddressRejected | src/pages/Register.tsx:111-112 | once course, name and email pass, a blank student phone, then a blank address, is reported with its message |
| Validation.AgeBoundary | src/pages/Register.tsx:117-120 | once the other eight checks pass, the form is accepted exactly when current year minus birth year is at least 15; otherwise the age message is returned |
| Validation.UnparsableBirthDatePasses | src/pages/Register.tsx:117-120 | once the other eight checks pass, a birth date whose year is NaN is accepted |
| Validation.AgeExamples | src/pages/Register.tsx:117-120 | in 2024, birth year 2011 is rejected with the age message, while 2009 and 2008 are accepted |
| Validation.InvalidEmailRejected | src/pages/Register.tsx:110 | with a course and full name given, an address the pattern refuses gives "Please enter a valid email address" |
| Registration.SuccessMessage | src/pages/Register.tsx:144-159 | the switch on the payment method, "" for an id it does not list; `SuccessMessageStatesAmount`, `CreditCardMessageStatesNoAmount` and `EveryPaymentMethodHasMessage` state what each text holds |
| Registration.Submit | src/pages/Register.tsx:125-187 | one submission's notice and resulting record; `InvalidSubmissionRejected`, `FailedPaymentKeepsState`, `SuccessNotice`, `SuccessfulSubmissionResets` and `SubmitPreservesConsistent` state each path |
| Registration.RegistrationForm.constructor | src/pages/Register.tsx:86-98 | the form starts with every field "" |
| Registration.RegistrationForm.HandleChange | src/pages/Register.tsx:189-191 | the named field takes the value and the others keep theirs; the new state is the one-field update of the old |
| Registration.RegistrationForm.Reset | src/pages/Register.tsx:166-179 | every field becomes "" |
| Registration.RegistrationForm.HandleSubmit | src/pages/Register.tsx:125-187 | the notice shown and the new state are those `Submit` gives for the old state |
| Registration.InvalidSubmissionRejected | src/pages/Register.tsx:127-136 | a validation error is shown verbatim in a destructive "Error" notice; the record is kept; the payment outcome has no effect |
| Registration.FailedPaymentKeepsState | src/pages/Register.tsx:180-186 | a valid record whose payment step fails shows the "Payment Failed" notice and keeps the record |
| Registration.SuccessfulSubmissionResets | src/pages/Register.tsx:161-179 | a valid record with a catalog course, whatever its payment method, whose payment succeeds shows the non-destructive "Registration Successful!" notice and leaves every field "" |
| Registration.SuccessNotice | src/pages/Register.tsx:141-164 | a valid record with a catalog course and a successful payment shows the success message for its payment method and total, then resets |
| Registration.SuccessMessageStatesAmount | src/pages/Register.tsx:147-155 | the cash, check and Zelle messages each contain "$" followed by the total |
| Registration.CreditCardMessageStatesNoAmount | src/pages/Register.tsx:156-157 | the credit-card message contains no '$' |
| Registration.EveryPaymentMethodHasMessage | src/pages/Register.tsx:63-84 | every payment method the page offers has a non-empty success message |
| Registration.SubmitPreservesConsistent | src/pages/Register.tsx:125-187 | a submission leaves a consistent record either as it was or reset to empty, so it stays consistent |
| Registration.FeedbackCashMessage | src/pages/Register.tsx:147-148 | the cash message for the feedback lesson contains "$105" and "cash" |
| Registration.FeedbackCashRegistration | src/pages/Register.tsx:141-179 | a valid feedback-lesson registration paid in cash shows a message with "$105" and "cash" and empties the form |

## Left out

- **Rendering.** The page's JSX (layout, icons, the summary card, the submit
  button's "Submit Inquiry" / "Complete Registration" label at line 375) is
  not modelled.
- **Toast.** The toast is a returned `Notice` value (title, description,
  destructive flag), not a call into the UI library.
- **Payment delay.** The 1.5-second `setTimeout` stands in for a payment
  processor. It becomes the boolean `paymentSucceeds`. The promise in the
  code only ever resolves, so `paymentSucceeds = false` stands for a payment
  failure the current code never produces.
- **Clock and date parsing.** `new Date()` and `new Date(dateOfBirth)` are inputs: the current
  year and the birth year (`None` for an invalid date). Time zones and the
  date format are not modelled.
- **Number type.** Prices are whole cents instead of JavaScript
  floating-point numbers. The dollar formatting matches JavaScript's text for
  amounts with at most two decimals within the catalog's range; it does not
  follow JavaScript above 2^53 cents, where the number is no longer exact, or
  from 1e21 dollars on, where JavaScript switches to exponent notation.
- **White space.** `\s` and `trim` use the ECMAScript white-space and
  line-terminator code points as written out in `Strings.IsWhitespace`. A
  later Unicode version that adds space separators is not followed.
  A Dafny `string` is a sequence of Unicode scalar values, while JavaScript
  strings are UTF-16 code units, so a field holding a lone surrogate cannot
  be written in the model; no check depends on this, since a surrogate is
  neither white space nor '@'.
- Catalog.CalculateTotalPrice: requires the course to be "" or a
  catalog key. For other keys `Submit` takes the payment-failure path, which
  is what `handleSubmit`'s `catch` would do when the lookup throws; the page's
  render at line 375 would throw on such a record before any submission, and
  that render is not modelled.
- Registration.Submit: sends names every JavaScript object inherits
  ("toString", "constructor", "valueOf", "__proto__", ...) down the failure
  path too. On the page, `coursePrices[key].price` is then `undefined`
  without a throw, `calculateTotalPrice` returns `undefined`, and a cash,
  check or Zelle success text reads "$undefined" before the form resets.
  The course select only offers catalog keys, so this needs a course value
  the page's controls cannot produce.
- **Field names.** `handleChange` takes any string as a field name; the model
  takes only the eleven names the page uses (`FormState.Field`). An unknown
  name would add a new key to the record.
- **Concurrency.** React applies state updates asynchronously, and
  `handleSubmit` reads the record it started with. Edits typed during the
  1.5-second payment delay are lost when the form resets. The model treats a
  submission as one atomic step.
- **Consistency invariant.** The invariant that the course is a catalog key and
  the payment method an offered one is kept only by the page's controls. The
  model states it as `Consistent` and `Selectable`; `HandleChange` does not
  enforce it.
- **Other files.** `src/pages/FAQs.tsx` and `src/components/ui/contract-link.tsx`
  are static markup. They are not part of this model.
- **Event handling.** `e.preventDefault()` in `handleSubmit` only affects the
  browser, so it is not modelled.
