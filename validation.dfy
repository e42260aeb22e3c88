/**
 * `validateForm`: nine checks run in a fixed order, the first failing one
 * deciding the message. The clock and date parsing are inputs: the current
 * year, and the year `new Date(dateOfBirth)` yields (None for an unparsable
 * date, whose year is NaN).
 */
module Validation {
  import opened Wrappers
  import opened Strings
  import opened FormState

  /** The youngest age, in calendar years, at which a student may register. */
  const MinimumAge := 15

  // ---------------------------------------------------------------------------
  // The email pattern ^[^\s@]+@[^\s@]+\.[^\s@]+$
  // ---------------------------------------------------------------------------

  /** `[^\s@]+`: one or more characters, none of them white space or '@'. */
  predicate IsSegment(t: string) {
    |t| > 0 && forall i | 0 <= i < |t| :: !IsWhitespace(t[i]) && t[i] != '@'
  }

  /** s matches the pattern with its '@' at index a and its `\.` at index d. */
  predicate SplitsAsEmail(s: string, a: int, d: int) {
    0 <= a < d < |s| && s[a] == '@' && s[d] == '.'
    && IsSegment(s[..a]) && IsSegment(s[a + 1..d]) && IsSegment(s[d + 1..])
  }

  /** The regular-expression test: some choice of '@' and '.' splits s into
      three segments as the pattern requires. */
  predicate MatchesEmailPattern(s: string) {
    exists a, d | 0 <= a < d < |s| :: SplitsAsEmail(s, a, d)
  }

  /** The accepted addresses described field by field: no white space, exactly
      one '@' with something before it, and after it a '.' that has at least
      one character between it and the '@' and at least one after it. */
  predicate IsEmailShaped(s: string) {
    (forall i | 0 <= i < |s| :: !IsWhitespace(s[i]))
    && exists a | 0 < a < |s| ::
         s[a] == '@'
         && (forall j | 0 <= j < |s| && j != a :: s[j] != '@')
         && (exists d | a + 1 < d < |s| - 1 :: s[d] == '.')
  }

  /** The pattern accepts exactly the email-shaped strings. */
  lemma EmailPatternMeaning(s: string)
    ensures MatchesEmailPattern(s) <==> IsEmailShaped(s)
  {
    if MatchesEmailPattern(s) {
      var a, d :| 0 <= a < d < |s| && SplitsAsEmail(s, a, d);
      forall i | 0 <= i < |s| ensures !IsWhitespace(s[i]) && (i != a ==> s[i] != '@') {
        if i < a {
          assert s[i] == s[..a][i];
        } else if a < i < d {
          assert s[i] == s[a + 1..d][i - a - 1];
        } else if i > d {
          assert s[i] == s[d + 1..][i - d - 1];
        }
      }
      assert a + 1 < d < |s| - 1 by {
        assert |s[a + 1..d]| > 0 && |s[d + 1..]| > 0;
      }
    }
    if IsEmailShaped(s) {
      var a :| 0 < a < |s| && s[a] == '@'
        && (forall j | 0 <= j < |s| && j != a :: s[j] != '@')
        && (exists d | a + 1 < d < |s| - 1 :: s[d] == '.');
      var d :| a + 1 < d < |s| - 1 && s[d] == '.';
      assert IsSegment(s[..a]) by {
        forall i | 0 <= i < a ensures !IsWhitespace(s[..a][i]) && s[..a][i] != '@' {
          assert s[..a][i] == s[i];
        }
      }
      var host := s[a + 1..d];
      assert IsSegment(host) by {
        forall i | 0 <= i < |host| ensures !IsWhitespace(host[i]) && host[i] != '@' {
          assert host[i] == s[a + 1 + i];
        }
      }
      var tld := s[d + 1..];
      assert IsSegment(tld) by {
        forall i | 0 <= i < |tld| ensures !IsWhitespace(tld[i]) && tld[i] != '@' {
          assert tld[i] == s[d + 1 + i];
        }
      }
      assert SplitsAsEmail(s, a, d);
    }
  }

  /** A string without '@' is never accepted; "not-an-email" is one. */
  lemma NoAtNoEmail(s: string)
    requires forall i | 0 <= i < |s| :: s[i] != '@'
    ensures !MatchesEmailPattern(s)
  {
    EmailPatternMeaning(s);
  }

  /** "john.doe@example.com" is accepted. */
  lemma EmailAccepted()
    ensures MatchesEmailPattern("john.doe@example.com")
  {
    var ok := "john.doe@example.com";
    assert SplitsAsEmail(ok, 8, 16) by {
      assert ok[..8] == "john.doe" && ok[9..16] == "example" && ok[17..] == "com";
    }
  }

  /** "not-an-email" (no '@'), "a@.c" (nothing between '@' and '.'),
      "a@b@c.d" (two '@') and "a b@c.d" (a space) are rejected. */
  lemma EmailsRejected()
    ensures !MatchesEmailPattern("not-an-email")
    ensures !MatchesEmailPattern("a@.c")
    ensures !MatchesEmailPattern("a@b@c.d")
    ensures !MatchesEmailPattern("a b@c.d")
  {
    NoAtNoEmail("not-an-email");
    var t := "a@.c";
    EmailPatternMeaning(t);
    var u := "a@b@c.d";
    EmailPatternMeaning(u);
    assert u[1] == '@' && u[3] == '@';
    var w := "a b@c.d";
    EmailPatternMeaning(w);
    assert IsWhitespace(w[1]);
  }

  // ---------------------------------------------------------------------------
  // The nine checks
  // ---------------------------------------------------------------------------

  /** The checks, named after what each demands. */
  datatype Rule =
    | CourseSelected | FullName | ValidEmail | StudentPhoneGiven | AddressGiven
    | PermitDateGiven | BirthDateGiven | PaymentSelected | OldEnough

  /** The order in which `validateForm` applies the checks. */
  const RuleOrder: seq<Rule> := [
    CourseSelected, FullName, ValidEmail, StudentPhoneGiven, AddressGiven,
    PermitDateGiven, BirthDateGiven, PaymentSelected, OldEnough
  ]

  /** The error text shown when a check fails. */
  function Message(rule: Rule): string {
    match rule
    case CourseSelected => "Please select a course"
    case FullName => "Please enter your full name"
    case ValidEmail => "Please enter a valid email address"
    case StudentPhoneGiven => "Please enter student phone number"
    case AddressGiven => "Please enter address"
    case PermitDateGiven => "Please enter permit date issued"
    case BirthDateGiven => "Please enter date of birth"
    case PaymentSelected => "Please select a payment method"
    case OldEnough => "You must be at least 15 years old to register"
  }

  /** `currentYear - birthYear < 15` rejects; a NaN birth year compares false
      and so passes. */
  predicate AgeAccepted(currentYear: int, birthYear: Option<int>) {
    birthYear.None? || currentYear - birthYear.value >= MinimumAge
  }

  /** What each check demands of the record: a non-empty selection or date,
      a non-empty text after trimming, the email pattern, the age limit. */
  predicate Holds(rule: Rule, d: FormData, currentYear: int, birthYear: Option<int>) {
    match rule
    case CourseSelected => d.course != ""
    case FullName => Trim(d.firstName) != "" && Trim(d.lastName) != ""
    case ValidEmail => MatchesEmailPattern(d.email)
    case StudentPhoneGiven => Trim(d.studentPhone) != ""
    case AddressGiven => Trim(d.address) != ""
    case PermitDateGiven => d.permitDateIssued != ""
    case BirthDateGiven => d.dateOfBirth != ""
    case PaymentSelected => d.paymentMethod != ""
    case OldEnough => AgeAccepted(currentYear, birthYear)
  }

  /** `validateForm`: the message of the first failing check, or None. */
  function ValidateForm(d: FormData, currentYear: int, birthYear: Option<int>): Option<string> {
    if d.course == "" then Some(Message(CourseSelected))
    else if Trim(d.firstName) == "" || Trim(d.lastName) == "" then Some(Message(FullName))
    else if !MatchesEmailPattern(d.email) then Some(Message(ValidEmail))
    else if Trim(d.studentPhone) == "" then Some(Message(StudentPhoneGiven))
    else if Trim(d.address) == "" then Some(Message(AddressGiven))
    else if d.permitDateIssued == "" then Some(Message(PermitDateGiven))
    else if d.dateOfBirth == "" then Some(Message(BirthDateGiven))
    else if d.paymentMethod == "" then Some(Message(PaymentSelected))
    else if birthYear.Some? && currentYear - birthYear.value < MinimumAge then Some(Message(OldEnough))
    else None
  }

  /** The position of the first rule in `rules` that fails, |rules| if none does. */
  function FirstFailing(rules: seq<Rule>, d: FormData, currentYear: int, birthYear: Option<int>): (k: nat)
    ensures k <= |rules|
    ensures forall j | 0 <= j < k :: Holds(rules[j], d, currentYear, birthYear)
    ensures k < |rules| ==> !Holds(rules[k], d, currentYear, birthYear)
  {
    if rules == [] then 0
    else if !Holds(rules[0], d, currentYear, birthYear) then 0
    else 1 + FirstFailing(rules[1..], d, currentYear, birthYear)
  }

  /** The nine error messages are pairwise different, so a message names the
      check that failed. */
  lemma MessagesDistinct(r1: Rule, r2: Rule)
    ensures Message(r1) == Message(r2) ==> r1 == r2
  {
  }

  /** The trimmed-text and pattern checks in plain terms: a name, phone or
      address passes when it is not all white space, an email when it has
      the shape IsEmailShaped describes. */
  lemma HoldsMeaning(d: FormData, currentYear: int, birthYear: Option<int>)
    ensures Holds(FullName, d, currentYear, birthYear) <==> !IsBlank(d.firstName) && !IsBlank(d.lastName)
    ensures Holds(ValidEmail, d, currentYear, birthYear) <==> IsEmailShaped(d.email)
    ensures Holds(StudentPhoneGiven, d, currentYear, birthYear) <==> !IsBlank(d.studentPhone)
    ensures Holds(AddressGiven, d, currentYear, birthYear) <==> !IsBlank(d.address)
  {
    TrimEmptyIffBlank(d.firstName);
    TrimEmptyIffBlank(d.lastName);
    TrimEmptyIffBlank(d.studentPhone);
    TrimEmptyIffBlank(d.address);
    EmailPatternMeaning(d.email);
  }

  /** When the check at position k of RuleOrder is the first to fail,
      ValidateForm reports its message. */
  lemma EarliestFailureReported(d: FormData, currentYear: int, birthYear: Option<int>, k: int)
    requires 0 <= k < |RuleOrder|
    requires !Holds(RuleOrder[k], d, currentYear, birthYear)
    requires forall j | 0 <= j < k :: Holds(RuleOrder[j], d, currentYear, birthYear)
    ensures ValidateForm(d, currentYear, birthYear) == Some(Message(RuleOrder[k]))
  {
    var y, b := currentYear, birthYear;
    assert RuleOrder[0] == CourseSelected && RuleOrder[1] == FullName && RuleOrder[2] == ValidEmail;
    assert RuleOrder[3] == StudentPhoneGiven && RuleOrder[4] == AddressGiven && RuleOrder[5] == PermitDateGiven;
    assert RuleOrder[6] == BirthDateGiven && RuleOrder[7] == PaymentSelected && RuleOrder[8] == OldEnough;
    assert k > 0 ==> Holds(RuleOrder[0], d, y, b);
    assert k > 1 ==> Holds(RuleOrder[1], d, y, b);
    assert k > 2 ==> Holds(RuleOrder[2], d, y, b);
    assert k > 3 ==> Holds(RuleOrder[3], d, y, b);
    assert k > 4 ==> Holds(RuleOrder[4], d, y, b);
    assert k > 5 ==> Holds(RuleOrder[5], d, y, b);
    assert k > 6 ==> Holds(RuleOrder[6], d, y, b);
    assert k > 7 ==> Holds(RuleOrder[7], d, y, b);
  }

  /** When every check holds, ValidateForm reports nothing. */
  lemma AllHoldAccepted(d: FormData, currentYear: int, birthYear: Option<int>)
    requires forall j | 0 <= j < |RuleOrder| :: Holds(RuleOrder[j], d, currentYear, birthYear)
    ensures ValidateForm(d, currentYear, birthYear) == None
  {
    var y, b := currentYear, birthYear;
    assert Holds(RuleOrder[0], d, y, b) && Holds(RuleOrder[1], d, y, b) && Holds(RuleOrder[2], d, y, b);
    assert Holds(RuleOrder[3], d, y, b) && Holds(RuleOrder[4], d, y, b) && Holds(RuleOrder[5], d, y, b);
    assert Holds(RuleOrder[6], d, y, b) && Holds(RuleOrder[7], d, y, b) && Holds(RuleOrder[8], d, y, b);
  }

  /** ValidateForm returns None exactly when all nine checks pass, and
      otherwise the message of the earliest failing check in RuleOrder. */
  lemma ValidateFollowsRuleOrder(d: FormData, currentYear: int, birthYear: Option<int>)
    ensures var k := FirstFailing(RuleOrder, d, currentYear, birthYear);
      ValidateForm(d, currentYear, birthYear) == if k == |RuleOrder| then None else Some(Message(RuleOrder[k]))
  {
    var k := FirstFailing(RuleOrder, d, currentYear, birthYear);
    if k < |RuleOrder| {
      EarliestFailureReported(d, currentYear, birthYear, k);
    } else {
      AllHoldAccepted(d, currentYear, birthYear);
    }
  }

  /** Validation succeeds if and only if every check holds. */
  lemma ValidIffAllHold(d: FormData, currentYear: int, birthYear: Option<int>)
    ensures ValidateForm(d, currentYear, birthYear).None?
      <==> forall k | 0 <= k < |RuleOrder| :: Holds(RuleOrder[k], d, currentYear, birthYear)
  {
    ValidateFollowsRuleOrder(d, currentYear, birthYear);
  }

  /** Without a course the answer is always "Please select a course". */
  lemma MissingCourseWins(d: FormData, currentYear: int, birthYear: Option<int>)
    requires d.course == ""
    ensures ValidateForm(d, currentYear, birthYear) == Some("Please select a course")
  {
  }

  /** A name made only of white space is rejected as a missing one. */
  lemma BlankNameRejected(d: FormData, currentYear: int, birthYear: Option<int>)
    requires d.course != ""
    requires IsBlank(d.firstName) || IsBlank(d.lastName)
    ensures ValidateForm(d, currentYear, birthYear) == Some("Please enter your full name")
  {
    TrimEmptyIffBlank(d.firstName);
    TrimEmptyIffBlank(d.lastName);
  }

  /** A blank student phone or address is rejected like an empty one, once
      the earlier checks pass. */
  lemma BlankPhoneOrAddressRejected(d: FormData, currentYear: int, birthYear: Option<int>)
    requires Holds(CourseSelected, d, currentYear, birthYear)
    requires Holds(FullName, d, currentYear, birthYear)
    requires Holds(ValidEmail, d, currentYear, birthYear)
    ensures IsBlank(d.studentPhone) ==>
      ValidateForm(d, currentYear, birthYear) == Some("Please enter student phone number")
    ensures !IsBlank(d.studentPhone) && IsBlank(d.address) ==>
      ValidateForm(d, currentYear, birthYear) == Some("Please enter address")
  {
    HoldsMeaning(d, currentYear, birthYear);
  }

  /** An age of exactly 15 is accepted and anything younger is rejected,
      once everything else passes. */
  lemma AgeBoundary(d: FormData, currentYear: int, birthYear: int)
    requires forall k | 0 <= k < |RuleOrder| - 1 :: Holds(RuleOrder[k], d, currentYear, Some(birthYear))
    ensures ValidateForm(d, currentYear, Some(birthYear)) ==
      if currentYear - birthYear >= 15 then None else Some("You must be at least 15 years old to register")
  {
    ValidateFollowsRuleOrder(d, currentYear, Some(birthYear));
    assert Holds(RuleOrder[7], d, currentYear, Some(birthYear));
  }

  /** A date of birth that does not parse gives a NaN age, and `NaN < 15` is
      false: once the other checks pass, such a record is accepted. */
  lemma UnparsableBirthDatePasses(d: FormData, currentYear: int)
    requires forall k | 0 <= k < |RuleOrder| - 1 :: Holds(RuleOrder[k], d, currentYear, None)
    ensures ValidateForm(d, currentYear, None) == None
  {
    ValidateFollowsRuleOrder(d, currentYear, None);
    assert Holds(RuleOrder[7], d, currentYear, None);
  }

  /** Once the other checks pass: born in 2011 a student is 13 in 2024 and
      rejected; born in 2009 or 2008 they are 15 or 16 and accepted. */
  lemma AgeExamples(d: FormData)
    requires forall k | 0 <= k < |RuleOrder| - 1 :: Holds(RuleOrder[k], d, 2024, Some(2011))
    ensures ValidateForm(d, 2024, Some(2011)) == Some("You must be at least 15 years old to register")
    ensures ValidateForm(d, 2024, Some(2009)) == None
    ensures ValidateForm(d, 2024, Some(2008)) == None
  {
    AgeBoundary(d, 2024, 2011);
    assert forall k | 0 <= k < |RuleOrder| - 1 :: Holds(RuleOrder[k], d, 2024, Some(2009)) by {
      assert forall k | 0 <= k < |RuleOrder| - 1 :: RuleOrder[k] != OldEnough;
    }
    AgeBoundary(d, 2024, 2009);
    assert forall k | 0 <= k < |RuleOrder| - 1 :: Holds(RuleOrder[k], d, 2024, Some(2008)) by {
      assert forall k | 0 <= k < |RuleOrder| - 1 :: RuleOrder[k] != OldEnough;
    }
    AgeBoundary(d, 2024, 2008);
  }

  /** With a course chosen and a full name given, an address the pattern
      refuses (such as "not-an-email", see `EmailsRejected`) is reported,
      before the remaining checks and the age are looked at. */
  lemma InvalidEmailRejected(d: FormData, currentYear: int, birthYear: Option<int>)
    requires d.course != "" && !IsBlank(d.firstName) && !IsBlank(d.lastName)
    requires !MatchesEmailPattern(d.email)
    ensures ValidateForm(d, currentYear, birthYear) == Some(Message(ValidEmail))
  {
    TrimEmptyIffBlank(d.firstName);
    TrimEmptyIffBlank(d.lastName);
  }
}
