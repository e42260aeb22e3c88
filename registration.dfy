/**
 * The registration form component: its state, `handleChange`, and the
 * non-visual part of `handleSubmit`. The notification the page shows
 * (`toast`) is returned as a Notice; the simulated payment delay is an input
 * saying whether it succeeded.
 */
module Registration {
  import opened Wrappers
  import opened Strings
  import opened Catalog
  import opened FormState
  import opened Validation

  /** A notification: title, description, and whether it is shown as an error. */
  datatype Notice = Notice(title: string, description: string, destructive: bool)

  const PaymentFailedNotice :=
    Notice("Payment Failed", "There was an error processing your payment. Please try again.", true)

  /** The credit-card success text, "Payment Successful! Thank you for
      choosing SA Driving School.", kept in pieces for the proofs below. */
  const CreditCardMessage := "Payment Successful! " + "Thank you " + "for choosing " + "SA Driving School."

  /** `$${total}`: a dollar sign followed by the total's text. */
  function Dollars(total: Total): string {
    "$" + TotalText(total)
  }

  /** The success text for payment in cash. */
  function CashMessage(total: Total): string {
    "Registration successful! Please bring " + Dollars(total) + " in cash to your first session."
  }

  /** The success text for payment by check. */
  function CheckMessage(total: Total): string {
    "Registration successful! Please bring a check for " + Dollars(total) + " payable to SA Driving School Inc."
  }

  /** The success text for payment through Zelle. */
  function ZelleMessage(total: Total): string {
    "Registration successful! Please send " + Dollars(total) + " via Zelle to info@sadriving.com"
  }

  /** The success text for a payment method; an id the switch does not list
      leaves it at "". */
  function SuccessMessage(paymentMethod: string, total: Total): string {
    match paymentMethod
    case "cash" => CashMessage(total)
    case "check" => CheckMessage(total)
    case "zelle" => ZelleMessage(total)
    case "credit-card" => CreditCardMessage
    case _ => ""
  }

  /** What one submission shows and the record it leaves behind. */
  datatype Submission = Submission(notice: Notice, next: FormData)

  /** `handleSubmit` on the record d: a validation error is shown and the
      record kept; otherwise the payment step runs, and a failure there (or
      the lookup of a course missing from the catalog, which throws inside
      the same `try`) shows the payment failure and keeps the record; on
      success the payment method's message is shown and the record reset. */
  function Submit(d: FormData, currentYear: int, birthYear: Option<int>, paymentSucceeds: bool): Submission {
    match ValidateForm(d, currentYear, birthYear)
    case Some(error) => Submission(Notice("Error", error, true), d)
    case None =>
      if !paymentSucceeds || d.course !in CoursePrices then Submission(PaymentFailedNotice, d)
      else
        var total := CalculateTotalPrice(d.course);
        Submission(Notice("Registration Successful!", SuccessMessage(d.paymentMethod, total), false), Empty)
  }

  /** The mutable form state of one page visit. */
  class RegistrationForm {
    var firstName: string
    var lastName: string
    var email: string
    var studentPhone: string
    var parentPhone: string
    var address: string
    var permitDateIssued: string
    var dateOfBirth: string
    var course: string
    var paymentMethod: string
    var comments: string

    /** The current `formData`. */
    function Data(): FormData
      reads this
    {
      FormData(firstName, lastName, email, studentPhone, parentPhone, address,
               permitDateIssued, dateOfBirth, course, paymentMethod, comments)
    }

    /** The form mounts with every field empty. */
    constructor ()
      ensures Data() == Empty
    {
      firstName, lastName, email, studentPhone, parentPhone := "", "", "", "", "";
      address, permitDateIssued, dateOfBirth := "", "", "";
      course, paymentMethod, comments := "", "", "";
    }

    /** `handleChange(field, value)`: only `field` changes, to `value`. */
    method HandleChange(field: Field, value: string)
      modifies this
      ensures Data().Get(field) == value
      ensures forall g: Field | g != field :: Data().Get(g) == old(Data()).Get(g)
      ensures Data() == Update(old(Data()), field, value)
    {
      match field
      case FirstName => firstName := value;
      case LastName => lastName := value;
      case Email => email := value;
      case StudentPhone => studentPhone := value;
      case ParentPhone => parentPhone := value;
      case Address => address := value;
      case PermitDateIssued => permitDateIssued := value;
      case DateOfBirth => dateOfBirth := value;
      case CourseId => course := value;
      case PaymentMethodId => paymentMethod := value;
      case Comments => comments := value;
    }

    /** The reset after a successful submission. */
    method Reset()
      modifies this
      ensures Data() == Empty
    {
      firstName, lastName, email, studentPhone, parentPhone := "", "", "", "", "";
      address, permitDateIssued, dateOfBirth := "", "", "";
      course, paymentMethod, comments := "", "", "";
    }

    /** `handleSubmit`: returns the notice shown and leaves the form in the
        state Submit describes. */
    method HandleSubmit(currentYear: int, birthYear: Option<int>, paymentSucceeds: bool) returns (notice: Notice)
      modifies this
      ensures notice == Submit(old(Data()), currentYear, birthYear, paymentSucceeds).notice
      ensures Data() == Submit(old(Data()), currentYear, birthYear, paymentSucceeds).next
    {
      var validationError := ValidateForm(Data(), currentYear, birthYear);
      if validationError.Some? {
        notice := Notice("Error", validationError.value, true);
        return;
      }
      if !paymentSucceeds || course !in CoursePrices {
        notice := PaymentFailedNotice;
        return;
      }
      var total := CalculateTotalPrice(course);
      var successMessage := "";
      match paymentMethod {
        case "cash" =>
          successMessage := CashMessage(total);
        case "check" =>
          successMessage := CheckMessage(total);
        case "zelle" =>
          successMessage := ZelleMessage(total);
        case "credit-card" =>
          successMessage := CreditCardMessage;
        case _ =>
      }
      notice := Notice("Registration Successful!", successMessage, false);
      Reset();
    }
  }

  // ---------------------------------------------------------------------------
  // Properties of a submission
  // ---------------------------------------------------------------------------

  /** Text placed between two others occurs in their concatenation. */
  lemma ContainsMiddle(a: string, t: string, c: string)
    ensures Contains(a + t + c, t)
  {
    assert OccursAt(a + t + c, t, |a|);
  }

  /** Text that occurs in a suffix occurs in the whole. */
  lemma ContainsInSuffix(a: string, c: string, t: string)
    requires Contains(c, t)
    ensures Contains(a + c, t)
  {
    var i :| 0 <= i <= |c| && OccursAt(c, t, i);
    assert (a + c)[|a| + i..|a| + i + |t|] == c[i..i + |t|];
    assert OccursAt(a + c, t, |a| + i);
  }

  /** A validation error is shown verbatim and the record is kept, whatever
      the payment step would have done: it is never reached. */
  lemma InvalidSubmissionRejected(d: FormData, currentYear: int, birthYear: Option<int>, paymentSucceeds: bool)
    requires ValidateForm(d, currentYear, birthYear).Some?
    ensures Submit(d, currentYear, birthYear, paymentSucceeds) ==
      Submission(Notice("Error", ValidateForm(d, currentYear, birthYear).value, true), d)
    ensures Submit(d, currentYear, birthYear, paymentSucceeds) == Submit(d, currentYear, birthYear, !paymentSucceeds)
  {
  }

  /** A failed payment step shows the generic failure and keeps the record. */
  lemma FailedPaymentKeepsState(d: FormData, currentYear: int, birthYear: Option<int>)
    requires ValidateForm(d, currentYear, birthYear).None?
    ensures Submit(d, currentYear, birthYear, false) == Submission(PaymentFailedNotice, d)
  {
  }

  /** A valid record with a catalog course whose payment succeeds is
      registered, whatever its payment method: the success notice is shown
      and every field is reset to "". */
  lemma SuccessfulSubmissionResets(d: FormData, currentYear: int, birthYear: Option<int>)
    requires d.course in CoursePrices
    ensures var s := Submit(d, currentYear, birthYear, true);
      ValidateForm(d, currentYear, birthYear).None? ==>
        s.notice.title == "Registration Successful!" && !s.notice.destructive
        && s.next == Empty && forall f: Field :: s.next.Get(f) == ""
  {
    if ValidateForm(d, currentYear, birthYear).None? {
      var s := Submit(d, currentYear, birthYear, true);
      assert s.next == Empty;
      forall f: Field ensures s.next.Get(f) == "" {
        EmptyIsBlank(f);
      }
    }
  }

  /** The cash, check and Zelle messages state the total as `$<total>`. */
  lemma SuccessMessageStatesAmount(paymentMethod: string, total: Total)
    requires paymentMethod == "cash" || paymentMethod == "check" || paymentMethod == "zelle"
    ensures Contains(SuccessMessage(paymentMethod, total), Dollars(total))
  {
    var d := Dollars(total);
    if paymentMethod == "cash" {
      ContainsMiddle("Registration successful! Please bring ", d, " in cash to your first session.");
    } else if paymentMethod == "check" {
      ContainsMiddle("Registration successful! Please bring a check for ", d, " payable to SA Driving School Inc.");
    } else {
      ContainsMiddle("Registration successful! Please send ", d, " via Zelle to info@sadriving.com");
    }
  }

  /** The credit-card message states no amount: it has no '$' at all. */
  lemma CreditCardMessageStatesNoAmount(total: Total)
    ensures Lacks(SuccessMessage("credit-card", total), '$')
  {
    var a, b, c, e := "Payment Successful! ", "Thank you ", "for choosing ", "SA Driving School.";
    assert Lacks(a, '$') && Lacks(b, '$') && Lacks(c, '$') && Lacks(e, '$');
    LacksConcat(a, b, '$');
    LacksConcat(a + b, c, '$');
    LacksConcat(a + b + c, e, '$');
  }

  /** What a valid submission whose payment succeeds shows. */
  lemma SuccessNotice(d: FormData, currentYear: int, birthYear: Option<int>)
    requires d.course in CoursePrices
    ensures ValidateForm(d, currentYear, birthYear).None? ==> Submit(d, currentYear, birthYear, true) == Submission(
      Notice("Registration Successful!", SuccessMessage(d.paymentMethod, CalculateTotalPrice(d.course)), false), Empty)
  {
  }

  /** Every offered payment method has its own non-empty success message. */
  lemma EveryPaymentMethodHasMessage(id: string, total: Total)
    requires IsPaymentMethodId(id)
    ensures SuccessMessage(id, total) != ""
  {
    var i :| 0 <= i < |PaymentMethods| && PaymentMethods[i].id == id;
    assert id in {"cash", "check", "credit-card", "zelle"};
  }

  /** Every submission keeps the record consistent: it is either left as it
      was or reset to the empty record. */
  lemma SubmitPreservesConsistent(d: FormData, currentYear: int, birthYear: Option<int>, paymentSucceeds: bool)
    requires Consistent(d)
    ensures var n := Submit(d, currentYear, birthYear, paymentSucceeds).next;
      Consistent(n) && (n == d || n == Empty)
  {
  }

  /** The cash message for the "feedback" lesson names "$105" and "cash". */
  lemma FeedbackCashMessage()
    ensures Contains(SuccessMessage("cash", CalculateTotalPrice("feedback")), "$105")
    ensures Contains(SuccessMessage("cash", CalculateTotalPrice("feedback")), "cash")
  {
    FeedbackPrice();
    var head := "Registration successful! Please bring ";
    var tail := " in cash to your first session.";
    var total := Dollars(Amount(10500));
    assert total == "$105";
    ContainsMiddle(head, total, tail);
    assert tail[4] == 'c' && tail[5] == 'a' && tail[6] == 's' && tail[7] == 'h';
    assert tail[4..8] == "cash";
    assert OccursAt(tail, "cash", 4);
    ContainsInSuffix(head + total, tail, "cash");
  }

  /** A valid registration for the "feedback" lesson paid in cash shows a
      message naming "$105" and "cash", and empties the form. */
  lemma FeedbackCashRegistration(d: FormData, currentYear: int, birthYear: Option<int>)
    requires ValidateForm(d, currentYear, birthYear).None?
    requires d.course == "feedback" && d.paymentMethod == "cash"
    ensures var s := Submit(d, currentYear, birthYear, true);
      Contains(s.notice.description, "$105") && Contains(s.notice.description, "cash") && s.next == Empty
  {
    SuccessNotice(d, currentYear, birthYear);
    FeedbackCashMessage();
  }
}
