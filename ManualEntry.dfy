/**
 * The manual registration form: twelve text fields, two pick-one lists, the
 * height and weight sanitisers, and the validation that decides whether the
 * form may be submitted.
 */
module ManualEntry {
  import opened Text

  datatype Option<T> = None | Some(value: T)

  /** The options of the Emirates list, in display order. */
  const Emirates: seq<string> := [
    "Abu Dhabi", "Dubai", "Sharjah", "Ajman",
    "Umm Al Quwain", "Ras Al Khaimah", "Fujairah"
  ]

  /** The options of the Nationality list, in display order. */
  const Nationalities: seq<string> := [
    "United Arab Emirates", "India", "Pakistan", "Bangladesh", "Philippines",
    "Nepal", "Sri Lanka", "Egypt", "Nigeria", "United Kingdom"
  ]

  /** The screen's form state, one string per input. */
  datatype Form = Form(
    fullName: string, dob: string, nationality: string, emiratesId: string,
    height: string, weight: string, medical: string, contact: string,
    emirate: string, address: string, locationPin: string, email: string)

  const EmptyForm: Form := Form("", "", "", "", "", "", "", "", "", "", "", "")

  /** The keys the validator may put in its error map: the required fields. */
  datatype Field = FullName | Dob | Nationality | Contact | Emirate | Address | LocationPin | Email

  /** The inputs that take free text (the other four are lists or sanitised). */
  datatype TextInput =
    | FullNameInput | DobInput | EmiratesIdInput | MedicalInput
    | ContactInput | AddressInput | LocationPinInput | EmailInput

  const InvalidEmail: string := "Enter a valid email"
  const InvalidNumber: string := "Enter a valid number"

  /** The message a required field gets when it is blank. */
  function RequiredMessage(k: Field): string
  {
    match k
    case FullName => "Full name is required"
    case Dob => "Date of birth is required"
    case Nationality => "Select nationality"
    case Contact => "Contact is required"
    case Emirate => "Select emirate"
    case Address => "Address is required"
    case LocationPin => "Location pin is required"
    case Email => "Email is required"
  }

  /** The value a required field holds. */
  function FieldValue(f: Form, k: Field): string
  {
    match k
    case FullName => f.fullName
    case Dob => f.dob
    case Nationality => f.nationality
    case Contact => f.contact
    case Emirate => f.emirate
    case Address => f.address
    case LocationPin => f.locationPin
    case Email => f.email
  }

  /** A character that `[^\s@]` accepts. */
  predicate IsEmailChar(c: char) {
    !IsWhitespace(c) && c != '@'
  }

  predicate AllEmailChars(s: string) {
    forall i | 0 <= i < |s| :: IsEmailChar(s[i])
  }

  /**
   * One way for `/^[^\s@]+@[^\s@]+\.[^\s@]+$/` to match `s`: the `@` at
   * `at`, the literal `.` at `dot`, and three non-empty runs of `[^\s@]`.
   */
  predicate EmailSplit(s: string, at: int, dot: int) {
    && 0 < at && at + 1 < dot < |s| - 1
    && s[at] == '@' && s[dot] == '.'
    && AllEmailChars(s[..at]) && AllEmailChars(s[at + 1..dot]) && AllEmailChars(s[dot + 1..])
  }

  /** `/^[^\s@]+@[^\s@]+\.[^\s@]+$/.test(s)`. */
  predicate EmailPattern(s: string) {
    exists at: int, dot: int | 0 < at < dot < |s| :: EmailSplit(s, at, dot)
  }

  /** `s[at]` is the one and only `@` of `s`. */
  predicate OnlyAt(s: string, at: int) {
    0 <= at < |s| && s[at] == '@' && forall j | 0 <= j < |s| && j != at :: s[j] != '@'
  }

  /** `d` has a `.` that is neither its first nor its last character. */
  predicate HasInnerDot(d: string) {
    exists k | 0 < k < |d| - 1 :: d[k] == '.'
  }

  /**
   * The email check in plain character terms: no whitespace, exactly one `@`
   * with something before it, and a `.` inside the part after it.
   */
  predicate EmailShape(s: string) {
    HasNoWhitespace(s) && exists at | 0 < at < |s| :: OnlyAt(s, at) && HasInnerDot(s[at + 1..])
  }

  /** The email regular expression accepts exactly the strings of `EmailShape`. */
  lemma EmailPatternIffShape(s: string)
    ensures EmailPattern(s) <==> EmailShape(s)
  {
    if EmailPattern(s) {
      var at: int, dot: int :| 0 < at < dot < |s| && EmailSplit(s, at, dot);
      forall j | 0 <= j < |s| ensures !IsWhitespace(s[j]) && (j != at ==> s[j] != '@') {
        if j < at {
          assert s[j] == s[..at][j];
        } else if at < j < dot {
          assert s[j] == s[at + 1..dot][j - at - 1];
        } else if dot < j {
          assert s[j] == s[dot + 1..][j - dot - 1];
        }
      }
      assert OnlyAt(s, at);
      var d := s[at + 1..];
      assert d[dot - at - 1] == '.';
      assert HasInnerDot(d);
    }
    if EmailShape(s) {
      var at: int :| 0 < at < |s| && OnlyAt(s, at) && HasInnerDot(s[at + 1..]);
      var d := s[at + 1..];
      var k: int :| 0 < k < |d| - 1 && d[k] == '.';
      var dot := at + 1 + k;
      assert s[dot] == '.';
      assert AllEmailChars(s[..at]) by {
        forall i | 0 <= i < at ensures IsEmailChar(s[..at][i]) { assert s[..at][i] == s[i]; }
      }
      var domain, top := s[at + 1..dot], s[dot + 1..];
      assert AllEmailChars(domain) by {
        forall i | 0 <= i < |domain| ensures IsEmailChar(domain[i]) {
          assert domain[i] == s[at + 1 + i];
        }
      }
      assert AllEmailChars(top) by {
        forall i | 0 <= i < |top| ensures IsEmailChar(top[i]) {
          assert top[i] == s[dot + 1 + i];
        }
      }
      assert EmailSplit(s, at, dot);
    }
  }

  /** A character that `[\d+\-\s()]` accepts. */
  predicate IsPhoneChar(c: char) {
    IsDigit(c) || c == '+' || c == '-' || IsWhitespace(c) || c == '(' || c == ')'
  }

  /** `/^[\d+\-\s()]{6,20}$/.test(s)`. */
  predicate PhonePattern(s: string) {
    6 <= |s| <= 20 && forall i | 0 <= i < |s| :: IsPhoneChar(s[i])
  }

  /**
   * The message the validator leaves for field `k`, stated field by field:
   * a non-empty email or contact that fails its pattern gets the pattern's
   * message, which wins over the "required" one; otherwise a blank field gets
   * its "required" message; otherwise there is no error.
   */
  function FieldError(f: Form, k: Field): Option<string>
  {
    if k == Email && f.email != "" && !EmailPattern(f.email) then Some(InvalidEmail)
    else if k == Contact && f.contact != "" && !PhonePattern(f.contact) then Some(InvalidNumber)
    else if IsBlank(FieldValue(f, k)) then Some(RequiredMessage(k))
    else None
  }

  /** The form passes validation: no field has an error. */
  predicate Accepted(f: Form) {
    forall k: Field :: FieldError(f, k) == None
  }

  /** The position of each required field in the order `validate` checks them. */
  function CheckOrder(k: Field): nat
  {
    match k
    case FullName => 0
    case Dob => 1
    case Nationality => 2
    case Contact => 3
    case Emirate => 4
    case Address => 5
    case LocationPin => 6
    case Email => 7
  }

  /**
   * After the "required" checks of the first `done` fields: the blank ones
   * among them, and no others, have their message.
   */
  ghost predicate RequiredSoFar(f: Form, e: map<Field, string>, done: nat) {
    forall k: Field ::
      && (k in e <==> CheckOrder(k) < done && IsBlank(FieldValue(f, k)))
      && (k in e ==> e[k] == RequiredMessage(k))
  }

  /** `!s.trim()`: the trimmed value is empty, which happens exactly for blank values. */
  function IsEmptyAfterTrim(s: string): (r: bool)
    ensures r <==> IsBlank(s)
  {
    TrimEmptyIffBlank(s);
    Trim(s) == ""
  }

  /**
   * One "required" check: field `k` gets its message when its trimmed value
   * is empty, which keeps `RequiredSoFar` with one more field done.
   */
  method CheckRequired(f: Form, e: map<Field, string>, k: Field) returns (e': map<Field, string>)
    requires RequiredSoFar(f, e, CheckOrder(k))
    ensures RequiredSoFar(f, e', CheckOrder(k) + 1)
  {
    e' := e;
    if IsEmptyAfterTrim(FieldValue(f, k)) {
      e' := e[k := RequiredMessage(k)];
    }
  }

  /**
   * The first part of `validate`: each required field whose trimmed value is
   * empty gets its "required" message, and no other field gets anything.
   */
  method RequiredErrors(f: Form) returns (e: map<Field, string>)
    ensures RequiredSoFar(f, e, 8)
  {
    e := map[];
    e := CheckRequired(f, e, FullName);
    e := CheckRequired(f, e, Dob);
    e := CheckRequired(f, e, Nationality);
    e := CheckRequired(f, e, Contact);
    e := CheckRequired(f, e, Emirate);
    e := CheckRequired(f, e, Address);
    e := CheckRequired(f, e, LocationPin);
    e := CheckRequired(f, e, Email);
  }

  /**
   * `validate`'s error map: the "required" checks, then the email and phone
   * pattern checks, which overwrite the entry of their field. Its keys are
   * exactly the fields that have an error, each with that error's message.
   */
  method BuildErrors(f: Form) returns (e: map<Field, string>)
    ensures forall k: Field :: k in e <==> FieldError(f, k).Some?
    ensures forall k | k in e :: e[k] == FieldError(f, k).value
  {
    e := RequiredErrors(f);
    if f.email != "" && !EmailPattern(f.email) { e := e[Email := InvalidEmail]; }
    if f.contact != "" && !PhonePattern(f.contact) { e := e[Contact := InvalidNumber]; }
  }

  /**
   * The form is accepted exactly when all eight required fields are
   * non-blank, the email has the shape of an address and the contact matches
   * the phone pattern.
   */
  lemma AcceptedIff(f: Form)
    ensures Accepted(f) <==>
      && (forall k: Field :: !IsBlank(FieldValue(f, k)))
      && EmailShape(f.email)
      && PhonePattern(f.contact)
  {
    EmailPatternIffShape(f.email);
    if Accepted(f) {
      assert FieldError(f, Email) == None;
      assert FieldError(f, Contact) == None;
      assert f.email != "" && f.contact != "" by {
        assert !IsBlank(f.email) && !IsBlank(f.contact);
      }
      forall k: Field ensures !IsBlank(FieldValue(f, k)) {
        assert FieldError(f, k) == None;
      }
    }
    if && (forall k: Field :: !IsBlank(FieldValue(f, k)))
       && EmailShape(f.email)
       && PhonePattern(f.contact)
    {
      forall k: Field ensures FieldError(f, k) == None {
        assert !IsBlank(FieldValue(f, k));
      }
    }
  }

  /**
   * A whitespace-only contact of six to twenty characters passes the phone
   * pattern and so keeps the "required" message.
   */
  lemma BlankContactStaysRequired(f: Form)
    requires IsBlank(f.contact) && 6 <= |f.contact| <= 20
    ensures FieldError(f, Contact) == Some(RequiredMessage(Contact))
  {
    assert PhonePattern(f.contact);
  }

  /** A whitespace-only email that is not empty gets the invalid-email message. */
  lemma BlankEmailIsInvalid(f: Form)
    requires IsBlank(f.email) && f.email != ""
    ensures FieldError(f, Email) == Some(InvalidEmail)
  {
    EmailPatternIffShape(f.email);
    assert IsWhitespace(f.email[0]);
  }

  /** Emirates ID, height, weight and medical conditions never affect validation. */
  lemma OptionalFieldsIgnored(f: Form, emiratesId: string, height: string, weight: string, medical: string)
    ensures var g := f.(emiratesId := emiratesId, height := height, weight := weight, medical := medical);
      forall k: Field :: FieldError(g, k) == FieldError(f, k)
  {
  }

  /** What the height and weight inputs accept: digits and `.`. */
  predicate IsMeasureChar(c: char) {
    IsDigit(c) || c == '.'
  }

  /** `t.replace(/[^\d.]/g, '')`, the height and weight sanitiser. */
  function SanitizeMeasure(t: string): (r: string)
    ensures |r| <= |t|
    ensures forall i | 0 <= i < |r| :: IsMeasureChar(r[i])
    ensures IsSubsequence(r, t)
    ensures forall c :: multiset(r)[c] == if IsMeasureChar(c) then multiset(t)[c] else 0
  {
    Keep(t, IsMeasureChar)
  }

  /** Sanitising a sanitised value changes nothing. */
  lemma SanitizeMeasureIdempotent(t: string)
    ensures SanitizeMeasure(SanitizeMeasure(t)) == SanitizeMeasure(t)
  {
    KeepIdempotent(t, IsMeasureChar);
  }

  /** The form with one free-text input set to `value`. */
  function WithText(f: Form, input: TextInput, value: string): Form
  {
    match input
    case FullNameInput => f.(fullName := value)
    case DobInput => f.(dob := value)
    case EmiratesIdInput => f.(emiratesId := value)
    case MedicalInput => f.(medical := value)
    case ContactInput => f.(contact := value)
    case AddressInput => f.(address := value)
    case LocationPinInput => f.(locationPin := value)
    case EmailInput => f.(email := value)
  }

  /** The two pick-one fields hold nothing or one of their options. */
  predicate ListsValid(f: Form) {
    && (f.nationality == "" || f.nationality in Nationalities)
    && (f.emirate == "" || f.emirate in Emirates)
  }

  /** The screen's state: the form, the two list toggles and the last error map. */
  class RegistrationForm {
    var form: Form
    var openNationality: bool
    var openEmirate: bool
    var errors: map<Field, string>

    ghost predicate Valid()
      reads this
    {
      ListsValid(form)
    }

    constructor ()
      ensures Valid()
      ensures form == EmptyForm && !openNationality && !openEmirate && errors == map[]
    {
      form := EmptyForm;
      openNationality := false;
      openEmirate := false;
      errors := map[];
    }

    /** Typing into one of the free-text inputs. */
    method EditText(input: TextInput, value: string)
      requires Valid()
      modifies this`form
      ensures Valid() && form == WithText(old(form), input, value)
    {
      form := WithText(form, input, value);
    }

    /** Typing into the height input. */
    method EditHeight(t: string)
      requires Valid()
      modifies this`form
      ensures Valid() && form == old(form).(height := SanitizeMeasure(t))
    {
      form := form.(height := SanitizeMeasure(t));
    }

    /** Typing into the weight input. */
    method EditWeight(t: string)
      requires Valid()
      modifies this`form
      ensures Valid() && form == old(form).(weight := SanitizeMeasure(t))
    {
      form := form.(weight := SanitizeMeasure(t));
    }

    /** Pressing the Nationality field flips its list and nothing else. */
    method ToggleNationality()
      requires Valid()
      modifies this`openNationality
      ensures Valid() && openNationality == !old(openNationality)
    {
      openNationality := !openNationality;
    }

    /** Choosing the `i`-th nationality sets it and closes the list. */
    method SelectNationality(i: nat)
      requires Valid() && i < |Nationalities|
      modifies this`form, this`openNationality
      ensures Valid()
      ensures form == old(form).(nationality := Nationalities[i]) && !openNationality
    {
      form := form.(nationality := Nationalities[i]);
      openNationality := false;
    }

    /** Pressing the Emirates field flips its list and nothing else. */
    method ToggleEmirate()
      requires Valid()
      modifies this`openEmirate
      ensures Valid() && openEmirate == !old(openEmirate)
    {
      openEmirate := !openEmirate;
    }

    /** Choosing the `i`-th emirate sets it and closes the list. */
    method SelectEmirate(i: nat)
      requires Valid() && i < |Emirates|
      modifies this`form, this`openEmirate
      ensures Valid()
      ensures form == old(form).(emirate := Emirates[i]) && !openEmirate
    {
      form := form.(emirate := Emirates[i]);
      openEmirate := false;
    }

    /** `validate`: store the error map and report whether it is empty. */
    method Validate() returns (ok: bool)
      requires Valid()
      modifies this`errors
      ensures Valid()
      ensures forall k: Field :: k in errors <==> FieldError(form, k).Some?
      ensures forall k | k in errors :: errors[k] == FieldError(form, k).value
      ensures ok <==> Accepted(form)
    {
      errors := BuildErrors(form);
      ok := |errors| == 0;
      if !ok {
        var k :| k in errors;
      }
    }

    /**
     * `onComplete`: validate, and hand the whole form to the review screen
     * only when validation passed.
     */
    method OnComplete() returns (submitted: Option<Form>)
      requires Valid()
      modifies this`errors
      ensures Valid()
      ensures forall k: Field :: k in errors <==> FieldError(form, k).Some?
      ensures forall k | k in errors :: errors[k] == FieldError(form, k).value
      ensures submitted == if Accepted(form) then Some(form) else None
    {
      var ok := Validate();
      submitted := if ok then Some(form) else None;
    }
  }
}
