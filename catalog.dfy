/**
 * The registration page's two static tables, the course catalog with its
 * prices and the list of payment methods, and the price lookup for the
 * selected course.
 */
module Catalog {
  import opened Wrappers
  import opened Strings

  /** A catalog entry. The price is in cents; None is the "no fixed price"
      entry that the page quotes as "Contact Us". */
  datatype Course = Course(price: Option<nat>, name: string, description: string)

  /** The course catalog, keyed by course identifier. */
  const CoursePrices: map<string, Course> := map[
    "teen-btw" := Course(Some(42000), "Teen License Behind the Wheel", "Complete teen driving program"),
    "adult-waiver" := Course(Some(42000), "Adult License Waiver Course", "Complete waiver program"),
    "online-adult" := Course(Some(15750), "Online Drivers Education - Adult", "Complete online course"),
    "online-teen" := Course(Some(18375), "Online Drivers Education - Teen", "Complete online course"),
    "feedback" := Course(Some(10500), "Feedback Driving Lesson", "Single feedback session"),
    "2-lessons" := Course(Some(19950), "2 Driving Lessons", "Package of 2 lessons"),
    "3-lessons" := Course(Some(28350), "3 Driving Lessons", "Package of 3 lessons"),
    "4-lessons" := Course(Some(37800), "4 Driving Lessons", "Package of 4 lessons"),
    "5-lessons" := Course(Some(47250), "5 Driving Lessons", "Package of 5 lessons")
  ]

  datatype PaymentMethod = PaymentMethod(id: string, name: string, description: string)

  /** The payment methods offered, in display order. */
  const PaymentMethods: seq<PaymentMethod> := [
    PaymentMethod("cash", "Cash", "In person only at the 1st session, receipt will be issued upon request"),
    PaymentMethod("check", "Check", "Payable to SA Driving School Inc"),
    PaymentMethod("credit-card", "Credit Card", "Via Square (5% service fee applies)"),
    PaymentMethod("zelle", "Zelle", "Send to info@sadriving.com")
  ]

  /** id names one of the offered payment methods. */
  predicate IsPaymentMethodId(id: string) {
    exists i | 0 <= i < |PaymentMethods| :: PaymentMethods[i].id == id
  }

  /** What `calculateTotalPrice` returns: null, the string "Contact Us", or a price. */
  datatype Total = NoCourse | ContactUs | Amount(cents: nat)

  /** The total for the selected course: nothing when no course is chosen,
      "Contact Us" for an entry without a price, and otherwise its price. A
      key outside the catalog makes the source throw, so it is excluded. */
  function CalculateTotalPrice(course: string): (r: Total)
    requires course == "" || course in CoursePrices
    ensures r == NoCourse <==> course == ""
    ensures r == ContactUs <==> course != "" && CoursePrices[course].price == None
    ensures r.Amount? ==> course != "" && CoursePrices[course].price == Some(r.cents)
  {
    if course == "" then NoCourse
    else match CoursePrices[course].price
      case None => ContactUs
      case Some(p) => Amount(p)
  }

  /** How `${total}` renders a total inside a template string. */
  function TotalText(t: Total): string {
    match t
    case NoCourse => "null"
    case ContactUs => "Contact Us"
    case Amount(c) => FormatDollars(c)
  }

  /** Every catalog entry has a price, so a selected course always has an
      amount and "Contact Us" is never reached with this catalog. */
  lemma CatalogHasNoContactUs(course: string)
    requires course in CoursePrices
    ensures CoursePrices[course].price.Some?
    ensures CalculateTotalPrice(course) == Amount(CoursePrices[course].price.value)
    ensures CalculateTotalPrice(course) != ContactUs
  {
  }

  /** The "feedback" lesson costs 105 dollars and its total renders as "105". */
  lemma FeedbackPrice()
    ensures CalculateTotalPrice("feedback") == Amount(10500)
    ensures TotalText(CalculateTotalPrice("feedback")) == "105"
  {
    assert CoursePrices["feedback"].price == Some(10500);
    assert NatToString(105) == "105" by {
      assert NatToString(1) == "1";
      assert NatToString(10) == "10";
    }
  }

  /** The adult online course's 157.50 renders as "157.5". */
  lemma OnlineAdultPrice()
    ensures CalculateTotalPrice("online-adult") == Amount(15750)
    ensures TotalText(CalculateTotalPrice("online-adult")) == "157.5"
  {
    assert CoursePrices["online-adult"].price == Some(15750);
    assert NatToString(157) == "157" by {
      assert NatToString(1) == "1";
      assert NatToString(15) == "15";
    }
    assert FormatDollars(15750) == "157" + "." + "5";
  }
}
