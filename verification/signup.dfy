/**
  The sign-up form (views/Signup.tsx): how typed values are stored, with the
  age coerced through parseInt, and the checks run on submit before the
  account is created.
 */
module SignupForm {
  import opened Options
  import opened Strings
  import opened Types
  import opened Session

  // ---------------------------------------------------------------------
  // parseInt, base 10

  predicate IsDigit(c: char) {
    '0' <= c <= '9'
  }

  function DigitValue(c: char): (r: nat)
    requires IsDigit(c)
    ensures r <= 9
  {
    c as int - '0' as int
  }

  /** The number of decimal digits at the front of s. */
  function LeadingDigits(s: string): (r: nat)
    ensures r <= |s|
    ensures forall i :: 0 <= i < r ==> IsDigit(s[i])
    ensures r < |s| ==> !IsDigit(s[r])
  {
    if |s| == 0 || !IsDigit(s[0]) then 0 else 1 + LeadingDigits(s[1..])
  }

  /** The value of a string of decimal digits, most significant first. */
  function DigitsValue(ds: string): (r: nat)
    requires forall i :: 0 <= i < |ds| ==> IsDigit(ds[i])
  {
    if |ds| == 0 then 0 else 10 * DigitsValue(ds[..|ds| - 1]) + DigitValue(ds[|ds| - 1])
  }

  /** 1 when t starts with a sign character, else 0. */
  function SignLength(t: string): (r: nat)
    ensures r <= |t|
  {
    if |t| > 0 && (t[0] == '+' || t[0] == '-') then 1 else 0
  }

  /** The sign and digits part of parseInt, after the leading whitespace. */
  function ReadSigned(t: string): (r: Option<int>)
    ensures r.None? <==> LeadingDigits(t[SignLength(t)..]) == 0
  {
    var body := t[SignLength(t)..];
    var n := LeadingDigits(body);
    if n == 0 then None
    else
      var v: int := DigitsValue(body[..n]);
      Some(if t[0] == '-' then -v else v)
  }

  /** parseInt(s) without a radix, for decimal input: leading whitespace is
      skipped, one sign is read, then the longest run of digits; no digits
      gives NaN, here None. */
  function ParseInt(s: string): Option<int>
  {
    ReadSigned(s[LeadingSpaces(s)..])
  }

  /** n written in decimal, most significant digit first. */
  function Decimal(n: nat): (r: string)
    ensures |r| >= 1
    ensures forall i :: 0 <= i < |r| ==> IsDigit(r[i])
  {
    if n < 10 then [('0' as int + n) as char]
    else Decimal(n / 10) + [('0' as int + n % 10) as char]
  }

  lemma {:induction false} DecimalValue(n: nat)
    ensures DigitsValue(Decimal(n)) == n
  {
    if n >= 10 {
      DecimalValue(n / 10);
      var d := Decimal(n);
      assert d[..|d| - 1] == Decimal(n / 10);
    }
  }

  lemma {:induction false} LeadingDigitsOfPrefix(ds: string, rest: string)
    requires forall i :: 0 <= i < |ds| ==> IsDigit(ds[i])
    requires |rest| == 0 || !IsDigit(rest[0])
    ensures LeadingDigits(ds + rest) == |ds|
  {
    if |ds| > 0 {
      assert (ds + rest)[1..] == ds[1..] + rest;
      LeadingDigitsOfPrefix(ds[1..], rest);
    } else {
      assert ds + rest == rest;
    }
  }

  lemma ReadUnsigned(d: string, rest: string)
    requires |d| > 0 && forall i :: 0 <= i < |d| ==> IsDigit(d[i])
    requires |rest| == 0 || !IsDigit(rest[0])
    ensures ReadSigned(d + rest) == Some(DigitsValue(d))
  {
    LeadingDigitsOfPrefix(d, rest);
    assert (d + rest)[0] == d[0];
    assert (d + rest)[..|d|] == d;
  }

  /** A minus sign in front of digits negates what they read as. */
  lemma ReadNegative(x: string)
    requires |x| > 0 && IsDigit(x[0])
    ensures ReadSigned(x).Some?
    ensures ReadSigned(['-'] + x) == Some(-ReadSigned(x).value)
  {
    var t := ['-'] + x;
    assert t[0] == '-';
    assert SignLength(t) == 1 && SignLength(x) == 0;
    assert t[SignLength(t)..] == x == x[SignLength(x)..];
  }

  /** An integer written in decimal, with a minus sign when negative. */
  function IntToString(n: int): (r: string)
    ensures |r| >= 1 && (IsDigit(r[0]) || r[0] == '-')
  {
    if n < 0 then ['-'] + Decimal(-n) else Decimal(n)
  }

  /** Text that starts with no whitespace is read from its first character. */
  lemma ParseFromStart(s: string)
    requires |s| > 0 && !IsSpace(s[0])
    ensures ParseInt(s) == ReadSigned(s)
  {
    assert LeadingSpaces(s) == 0;
    assert s[0..] == s;
  }

  /** Leading whitespace is skipped: one more space in front reads the same. */
  lemma ParseSkipsSpace(s: string)
    ensures ParseInt(" " + s) == ParseInt(s)
  {
    var t := " " + s;
    assert t[0] == ' ' && t[1..] == s;
    assert LeadingSpaces(t) == 1 + LeadingSpaces(s);
    assert t[LeadingSpaces(t)..] == s[LeadingSpaces(s)..];
  }

  lemma ParseDecimal(m: nat, rest: string)
    requires |rest| == 0 || !IsDigit(rest[0])
    ensures ReadSigned(Decimal(m) + rest) == Some(m as int)
  {
    DecimalValue(m);
    ReadUnsigned(Decimal(m), rest);
  }

  lemma ParseMinusDecimal(m: nat, rest: string)
    requires |rest| == 0 || !IsDigit(rest[0])
    ensures ReadSigned(['-'] + (Decimal(m) + rest)) == Some(-(m as int))
  {
    var x := Decimal(m) + rest;
    assert x[0] == Decimal(m)[0];
    ParseDecimal(m, rest);
    ReadNegative(x);
  }

  lemma ParseNonNegative(n: nat, rest: string)
    requires |rest| == 0 || !IsDigit(rest[0])
    ensures ParseInt(Decimal(n) + rest) == Some(n as int)
  {
    var s := Decimal(n) + rest;
    assert s[0] == Decimal(n)[0];
    ParseFromStart(s);
    ParseDecimal(n, rest);
  }

  lemma ParseNegative(m: nat, rest: string)
    requires |rest| == 0 || !IsDigit(rest[0])
    ensures ParseInt(['-'] + Decimal(m) + rest) == Some(-(m as int))
  {
    var s := ['-'] + Decimal(m) + rest;
    assert s == ['-'] + (Decimal(m) + rest);
    assert s[0] == '-';
    ParseFromStart(s);
    ParseMinusDecimal(m, rest);
  }

  /** parseInt reads back a number written in decimal, whatever non-digit
      text follows it ("17 years" reads as 17). */
  lemma ParseIntToString(n: int, rest: string)
    requires |rest| == 0 || !IsDigit(rest[0])
    ensures ParseInt(IntToString(n) + rest) == Some(n)
  {
    if n < 0 {
      assert IntToString(n) == ['-'] + Decimal(-n);
      ParseNegative(-n, rest);
    } else {
      ParseNonNegative(n, rest);
    }
  }

  /** parseInt gives NaN when no digit follows the optional sign. */
  lemma ParseWithoutDigits(s: string)
    requires |s| > 0 && !IsDigit(s[0]) && !IsSpace(s[0]) && s[0] != '+' && s[0] != '-'
    ensures ParseInt(s) == None
  {
  }

  /** The age field's value: parseInt(value) || 0, so NaN becomes 0. */
  function AgeInput(value: string): (r: int)
    ensures ParseInt(value).None? ==> r == 0
    ensures ParseInt(value).Some? ==> r == ParseInt(value).value
  {
    match ParseInt(value)
    case None => 0
    case Some(n) => n
  }

  // ---------------------------------------------------------------------
  // The form

  /** The inputs of the form, named by their `name` attribute. */
  datatype Field = Name | Email | Password | AgeField | CurrentSchool | DreamSchool
                 | Major | StudyInterest | PreferredTimeframe | Bio

  /** The form's state before anything is typed: every text empty, the age
      blank, no friends. */
  const Blank: User := User("", "", "", Age.Blank, "", "", "", "", "", "", None, [], None)

  /** The stored value of a text field. */
  function TextOf(form: User, f: Field): string
    requires f != AgeField
  {
    match f
    case Name => form.name
    case Email => form.email
    case Password => form.password
    case CurrentSchool => form.currentSchool
    case DreamSchool => form.dreamSchool
    case Major => form.major
    case StudyInterest => form.studyInterest
    case PreferredTimeframe => form.preferredTimeframe
    case Bio => form.bio
  }

  /** handleChange: the age is coerced to a number, every other field is
      stored as typed. */
  function HandleChange(form: User, f: Field, value: string): (r: User)
    ensures f == AgeField ==> r == form.(age := Years(AgeInput(value)))
    ensures f != AgeField ==> r.age == form.age && TextOf(r, f) == value
    ensures r.friends == form.friends && r.avatar == form.avatar && r.joinedDate == form.joinedDate
  {
    match f
    case Name => form.(name := value)
    case Email => form.(email := value)
    case Password => form.(password := value)
    case AgeField => form.(age := Years(AgeInput(value)))
    case CurrentSchool => form.(currentSchool := value)
    case DreamSchool => form.(dreamSchool := value)
    case Major => form.(major := value)
    case StudyInterest => form.(studyInterest := value)
    case PreferredTimeframe => form.(preferredTimeframe := value)
    case Bio => form.(bio := value)
  }

  /** Editing one text field leaves every other text field as it was. */
  lemma HandleChangeOnlyTouchesField(form: User, f: Field, g: Field, value: string)
    requires g != AgeField && g != f
    ensures TextOf(HandleChange(form, f, value), g) == TextOf(form, g)
  {
  }

  /** Typing something that is not a number into the age field stores 0. */
  lemma NonNumericAgeIsZero(value: string)
    requires |value| > 0 && !IsDigit(value[0]) && !IsSpace(value[0]) && value[0] != '+' && value[0] != '-'
    ensures HandleChange(Blank, AgeField, value).age == Years(0)
  {
    ParseWithoutDigits(value);
  }

  /** The fields that must be non-empty; the age is not one of them. */
  predicate AllFilled(form: User) {
    form.name != "" && form.email != "" && form.password != "" &&
    form.currentSchool != "" && form.dreamSchool != "" && form.major != "" &&
    form.studyInterest != "" && form.preferredTimeframe != "" && form.bio != ""
  }

  /** `formData.age && formData.age < 13`: a blank or zero age is falsy and
      skips the check. */
  predicate TooYoung(age: Age) {
    age.Years? && age.n != 0 && age.n < 13
  }

  datatype Outcome = FillInAllFields | MustBeThirteen | EmailExists | SignedUp

  /** The message shown for a failed submit. */
  function ErrorText(o: Outcome): (r: Option<string>)
    ensures r.None? <==> o == SignedUp
  {
    match o
    case FillInAllFields => Some("Please fill in all fields or select an option where applicable.")
    case MustBeThirteen => Some("You must be at least 13 years old.")
    case EmailExists => Some("Email already exists")
    case SignedUp => None
  }

  /** handleSubmit: the fill-in check first, then the age check, and only
      then signup; the account changes only on success. */
  function HandleSubmit(a: Account, form: User, joined: string): (r: (Outcome, Account))
    ensures !AllFilled(form) ==> r == (FillInAllFields, a)
    ensures AllFilled(form) && TooYoung(form.age) ==> r == (MustBeThirteen, a)
    ensures AllFilled(form) && !TooYoung(form.age) ==>
      (r.0 == EmailExists <==> EmailTaken(a.users, form.email)) &&
      (r.0 == EmailExists ==> r.1 == a)
    ensures r.0 == SignedUp <==> AllFilled(form) && !TooYoung(form.age) && !EmailTaken(a.users, form.email)
    ensures r.0 == SignedUp ==> r.1 == Signup(a, form, joined).1
  {
    if !AllFilled(form) then (FillInAllFields, a)
    else if TooYoung(form.age) then (MustBeThirteen, a)
    else
      var res := Signup(a, form, joined);
      if res.0 then (SignedUp, res.1) else (EmailExists, a)
  }

  /** An age of 0, or one never entered, passes the age check. */
  lemma FalsyAgePasses(form: User)
    requires form.age == Years(0) || form.age == Age.Blank
    ensures !TooYoung(form.age)
  {
  }

  /** A successful sign-up stores the new user with their email and keeps
      the stored emails unique. */
  lemma SubmitKeepsEmailsUnique(a: Account, form: User, joined: string)
    requires UniqueEmails(a.users)
    ensures UniqueEmails(HandleSubmit(a, form, joined).1.users)
    ensures HandleSubmit(a, form, joined).0 == SignedUp ==>
      EmailTaken(HandleSubmit(a, form, joined).1.users, form.email)
  {
    SignupKeepsEmailsUnique(a, form, joined);
    var r := HandleSubmit(a, form, joined);
    if r.0 == SignedUp {
      assert r.1.users[|a.users|].email == form.email;
    }
  }

  /** The blank form cannot be submitted. */
  lemma BlankFormRejected(a: Account, joined: string)
    ensures HandleSubmit(a, Blank, joined).0 == FillInAllFields
  {
  }
}
