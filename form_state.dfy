/**
 * The registration form's record of eleven text fields (`formData`), the
 * names by which the page updates one of them, and the record after a reset.
 */
module FormState {
  import opened Catalog

  /** The names `handleChange` is called with, one per field of the record. */
  datatype Field =
    | FirstName | LastName | Email | StudentPhone | ParentPhone | Address
    | PermitDateIssued | DateOfBirth | CourseId | PaymentMethodId | Comments

  /** A snapshot of `formData`. Dates stay the text the date inputs produce. */
  datatype FormData = FormData(
    firstName: string,
    lastName: string,
    email: string,
    studentPhone: string,
    parentPhone: string,
    address: string,
    permitDateIssued: string,
    dateOfBirth: string,
    course: string,
    paymentMethod: string,
    comments: string)
  {
    /** The value of one field, `formData[field]`. */
    function Get(field: Field): string {
      match field
      case FirstName => firstName
      case LastName => lastName
      case Email => email
      case StudentPhone => studentPhone
      case ParentPhone => parentPhone
      case Address => address
      case PermitDateIssued => permitDateIssued
      case DateOfBirth => dateOfBirth
      case CourseId => course
      case PaymentMethodId => paymentMethod
      case Comments => comments
    }
  }

  /** The record the form starts with and is reset to: every field "". */
  const Empty := FormData("", "", "", "", "", "", "", "", "", "", "")

  /** `{ ...prev, [field]: value }`: the record with one field replaced. */
  function Update(d: FormData, field: Field, value: string): (r: FormData)
    ensures r.Get(field) == value
    ensures forall g: Field | g != field :: r.Get(g) == d.Get(g)
  {
    match field
    case FirstName => d.(firstName := value)
    case LastName => d.(lastName := value)
    case Email => d.(email := value)
    case StudentPhone => d.(studentPhone := value)
    case ParentPhone => d.(parentPhone := value)
    case Address => d.(address := value)
    case PermitDateIssued => d.(permitDateIssued := value)
    case DateOfBirth => d.(dateOfBirth := value)
    case CourseId => d.(course := value)
    case PaymentMethodId => d.(paymentMethod := value)
    case Comments => d.(comments := value)
  }

  /** Two records are equal when every field is. */
  lemma FieldsDetermineRecord(d: FormData, e: FormData)
    requires forall f: Field :: d.Get(f) == e.Get(f)
    ensures d == e
  {
    assert d.firstName == e.Get(FirstName) && d.lastName == e.Get(LastName);
    assert d.email == e.Get(Email) && d.studentPhone == e.Get(StudentPhone);
    assert d.parentPhone == e.Get(ParentPhone) && d.address == e.Get(Address);
    assert d.permitDateIssued == e.Get(PermitDateIssued) && d.dateOfBirth == e.Get(DateOfBirth);
    assert d.course == e.Get(CourseId) && d.paymentMethod == e.Get(PaymentMethodId);
    assert d.comments == e.Get(Comments);
  }

  /** Writing a field twice keeps only the second value. */
  lemma UpdateOverwrites(d: FormData, f: Field, v: string, w: string)
    ensures Update(Update(d, f, v), f, w) == Update(d, f, w)
  {
    FieldsDetermineRecord(Update(Update(d, f, v), f, w), Update(d, f, w));
  }

  /** Writing back a field's own value changes nothing. */
  lemma UpdateWithOwnValue(d: FormData, f: Field)
    ensures Update(d, f, d.Get(f)) == d
  {
    FieldsDetermineRecord(Update(d, f, d.Get(f)), d);
  }

  /** Writes to different fields commute. */
  lemma UpdatesCommute(d: FormData, f: Field, g: Field, v: string, w: string)
    requires f != g
    ensures Update(Update(d, f, v), g, w) == Update(Update(d, g, w), f, v)
  {
    FieldsDetermineRecord(Update(Update(d, f, v), g, w), Update(Update(d, g, w), f, v));
  }

  /** Every field of the reset record is "". */
  lemma EmptyIsBlank(f: Field)
    ensures Empty.Get(f) == ""
  {
  }

  /** The invariant the page's controls keep: the course, when set, is a
      catalog key, and the payment method, when set, is an offered one. */
  predicate Consistent(d: FormData) {
    (d.course == "" || d.course in CoursePrices)
    && (d.paymentMethod == "" || IsPaymentMethodId(d.paymentMethod))
  }

  /** A value a control can put into a field: the course select offers only
      catalog keys and the payment radios only offered ids. */
  predicate Selectable(field: Field, value: string) {
    (field == CourseId ==> value == "" || value in CoursePrices)
    && (field == PaymentMethodId ==> value == "" || IsPaymentMethodId(value))
  }

  /** The empty record is consistent, and updates with selectable values keep
      a record consistent. */
  lemma UpdatePreservesConsistent(d: FormData, field: Field, value: string)
    ensures Consistent(Empty)
    ensures Consistent(d) && Selectable(field, value) ==> Consistent(Update(d, field, value))
  {
  }
}
