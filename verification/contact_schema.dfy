/** The contact-form input rules (shared/schema.ts): the stored submission
    row and the insert shape derived from it, which leaves out the
    generated `id` and `createdAt`, keeps `company` optional, and adds
    length rules. The e-mail format check is a predicate the caller
    supplies. */
module ContactSchema {
  import opened Common

  /** A row of `contact_submissions`; only `company` may be null. */
  datatype Submission = Submission(
    id: string, name: string, email: string, company: Option<string>,
    subject: string, message: string, createdAt: int)

  /** The insert shape: the row without `id` and `createdAt`. */
  datatype ContactInput = ContactInput(
    name: string, email: string, company: Option<string>, subject: string, message: string)

  /** One failed rule, named after its field. */
  datatype FieldError = NameTooShort | InvalidEmail | SubjectTooShort | MessageTooShort

  const MinName: nat := 2
  const MinSubject: nat := 5
  const MinMessage: nat := 10

  /** The position of a field in the schema's shape, which is the order the
      failures are reported in. */
  function Rank(e: FieldError): nat {
    match e
    case NameTooShort => 0
    case InvalidEmail => 1
    case SubjectTooShort => 3
    case MessageTooShort => 4
  }

  function Check(fails: bool, e: FieldError): seq<FieldError> {
    if fails then [e] else []
  }

  /** `insertContactSchema.safeParse(input)`: the input itself when every
      rule holds, otherwise every failed rule in field order. */
  function ValidateContact(input: ContactInput, isEmail: string -> bool): (r: Result<ContactInput, seq<FieldError>>)
    ensures r.Ok? <==> |input.name| >= MinName && isEmail(input.email)
                       && |input.subject| >= MinSubject && |input.message| >= MinMessage
    ensures r.Ok? ==> r.value == input
    ensures r.Err? ==> |r.error| > 0
    ensures r.Err? ==> (NameTooShort in r.error <==> |input.name| < MinName)
    ensures r.Err? ==> (InvalidEmail in r.error <==> !isEmail(input.email))
    ensures r.Err? ==> (SubjectTooShort in r.error <==> |input.subject| < MinSubject)
    ensures r.Err? ==> (MessageTooShort in r.error <==> |input.message| < MinMessage)
    ensures r.Err? ==> forall i, j :: 0 <= i < j < |r.error| ==> Rank(r.error[i]) < Rank(r.error[j])
  {
    var name, email := |input.name| < MinName, !isEmail(input.email);
    var subject, message := |input.subject| < MinSubject, |input.message| < MinMessage;
    var errors := Failures(name, email, subject, message);
    FailuresNamed(name, email, subject, message);
    FailuresSorted(name, email, subject, message);
    if |errors| == 0 then Ok(input) else Err(errors)
  }

  /** The failed rules among the four, in field order. */
  function Failures(name: bool, email: bool, subject: bool, message: bool): seq<FieldError> {
    Check(name, NameTooShort) + Check(email, InvalidEmail)
    + Check(subject, SubjectTooShort) + Check(message, MessageTooShort)
  }

  /** Exactly the failed rules are reported. */
  lemma FailuresNamed(name: bool, email: bool, subject: bool, message: bool)
    ensures var errs := Failures(name, email, subject, message);
            && (|errs| == 0 <==> !name && !email && !subject && !message)
            && (NameTooShort in errs <==> name)
            && (InvalidEmail in errs <==> email)
            && (SubjectTooShort in errs <==> subject)
            && (MessageTooShort in errs <==> message)
  {
  }

  /** Strictly increasing ranks. */
  predicate RankSorted(errs: seq<FieldError>) {
    forall i, j :: 0 <= i < j < |errs| ==> Rank(errs[i]) < Rank(errs[j])
  }

  /** The failed rules are reported in field order. */
  lemma FailuresSorted(name: bool, email: bool, subject: bool, message: bool)
    ensures RankSorted(Failures(name, email, subject, message))
  {
    var e1 := Check(name, NameTooShort);
    var e2 := e1 + Check(email, InvalidEmail);
    var e3 := e2 + Check(subject, SubjectTooShort);
    AddCheck(e1, email, InvalidEmail);
    AddCheck(e2, subject, SubjectTooShort);
    AddCheck(e3, message, MessageTooShort);
  }

  /** Reporting one more rule after those of lower rank keeps the report in
      field order. */
  lemma AddCheck(errs: seq<FieldError>, fails: bool, e: FieldError)
    requires RankSorted(errs)
    requires forall i :: 0 <= i < |errs| ==> Rank(errs[i]) < Rank(e)
    ensures RankSorted(errs + Check(fails, e))
    ensures forall i :: 0 <= i < |errs + Check(fails, e)| ==> Rank((errs + Check(fails, e))[i]) <= Rank(e)
  {
  }

  /** The company never decides acceptance: the same input with or without
      a company gets the same verdict. */
  lemma CompanyIsOptional(input: ContactInput, isEmail: string -> bool, company: Option<string>)
    ensures ValidateContact(input.(company := company), isEmail).Ok? == ValidateContact(input, isEmail).Ok?
  {
  }

  /** The row stored for an accepted input: the generated id and time are
      added and every input field is kept. */
  function ToSubmission(input: ContactInput, id: string, now: int): (s: Submission)
    ensures ToInput(s) == input
    ensures s.id == id && s.createdAt == now
  {
    Submission(id, input.name, input.email, input.company, input.subject, input.message, now)
  }

  /** The insert shape of a row. */
  function ToInput(s: Submission): ContactInput {
    ContactInput(s.name, s.email, s.company, s.subject, s.message)
  }

  /** A minimal accepted input and one failing every length rule. */
  lemma ContactExamples(isEmail: string -> bool)
    requires isEmail("a@b.co")
    ensures ValidateContact(ContactInput("Al", "a@b.co", None, "Hello", "0123456789"), isEmail).Ok?
    ensures ValidateContact(ContactInput("A", "a@b.co", None, "Hi", "short"), isEmail)
            == Err([NameTooShort, SubjectTooShort, MessageTooShort])
  {
    assert |"A"| < MinName && |"Hi"| < MinSubject && |"short"| < MinMessage;
    assert [NameTooShort] + [] + [SubjectTooShort] + [MessageTooShort] == [NameTooShort, SubjectTooShort, MessageTooShort];
  }
}
