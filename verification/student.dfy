/** The student schema: the setters (`trim`, `lowercase`, `default`) that
    normalise a record's five fields, and the validators (`required`,
    `minlength`, `match`, `enum`) that decide whether it may be stored. */
module StudentSchema {
  import opened Wrappers
  import opened Text
  import opened Patterns

  /** The five schema paths of a request body; `None` is a path the body does
      not supply. */
  datatype Fields = Fields(
    name: Option<string>,
    email: Option<string>,
    phone: Option<string>,
    course: Option<string>,
    status: Option<string>)

  /** A record's field values. */
  datatype Student = Student(name: string, email: string, phone: string, course: string, status: string)

  /** The validator that rejected a path; each path reports at most one,
      `required` before the others. */
  datatype Rule =
    | NameRequired | NameTooShort
    | EmailRequired | EmailInvalid
    | PhoneRequired | PhoneInvalid
    | CourseRequired
    | StatusRequired | StatusNotAllowed

  const Statuses: seq<string> := ["Enrolled", "Pending", "Completed"]
  const DefaultStatus: string := "Pending"
  const NameMinLength: nat := 2

  function TrimPath(v: Option<string>): Option<string> {
    match v
    case None => None
    case Some(s) => Some(Trim(s))
  }

  function EmailPath(v: Option<string>): Option<string> {
    match v
    case None => None
    case Some(s) => Some(Lower(Trim(s)))
  }

  lemma TrimPathTrimmed(v: Option<string>)
    ensures TrimPath(v).Some? ==> Trimmed(TrimPath(v).value)
  {
  }

  lemma EmailPathNormal(v: Option<string>)
    ensures EmailPath(v).Some? ==> Trimmed(EmailPath(v).value) && NoUpper(EmailPath(v).value)
  {
    if v.Some? {
      LowerTrimCommute(v.value);
      LowerIdempotent(Trim(v.value));
    }
  }

  lemma CoursePathEmpty(v: Option<string>)
    ensures v.Some? ==> (Trim(v.value) == [] <==> AllSpace(v.value))
  {
    if v.Some? { TrimEmptyIffAllSpace(v.value); }
  }

  /** The setters as they run on the supplied paths of an update: no default. */
  function NormalisePaths(f: Fields): (n: Fields)
    ensures n.name.Some? <==> f.name.Some?
    ensures n.email.Some? <==> f.email.Some?
    ensures n.phone.Some? <==> f.phone.Some?
    ensures n.course.Some? <==> f.course.Some?
    ensures n.status == f.status
  {
    Fields(TrimPath(f.name), EmailPath(f.email), TrimPath(f.phone), TrimPath(f.course), f.status)
  }

  /** The setters as they run on a new document: an absent status takes the
      default. The status itself is not trimmed. */
  function Normalise(f: Fields): (n: Fields)
    ensures n.name.Some? <==> f.name.Some?
    ensures n.email.Some? <==> f.email.Some?
    ensures n.phone.Some? <==> f.phone.Some?
    ensures n.course.Some? <==> f.course.Some?
    ensures n.status == Some(f.status.GetOr(DefaultStatus))
  {
    var p := NormalisePaths(f);
    p.(status := Some(f.status.GetOr(DefaultStatus)))
  }

  function NameRule(v: Option<string>): Option<Rule> {
    match v
    case None => Some(NameRequired)
    case Some(s) =>
      if |s| == 0 then Some(NameRequired)
      else if |s| < NameMinLength then Some(NameTooShort)
      else None
  }

  function EmailRule(v: Option<string>): Option<Rule> {
    match v
    case None => Some(EmailRequired)
    case Some(s) =>
      if |s| == 0 then Some(EmailRequired)
      else if !EmailShape(s) then Some(EmailInvalid)
      else None
  }

  function PhoneRule(v: Option<string>): Option<Rule> {
    match v
    case None => Some(PhoneRequired)
    case Some(s) =>
      if |s| == 0 then Some(PhoneRequired)
      else if !PhoneShape(s) then Some(PhoneInvalid)
      else None
  }

  function CourseRule(v: Option<string>): Option<Rule> {
    match v
    case None => Some(CourseRequired)
    case Some(s) => if |s| == 0 then Some(CourseRequired) else None
  }

  function StatusRule(v: Option<string>): Option<Rule> {
    match v
    case None => Some(StatusRequired)
    case Some(s) =>
      if |s| == 0 then Some(StatusRequired)
      else if s !in Statuses then Some(StatusNotAllowed)
      else None
  }

  function Report(r: Option<Rule>): seq<Rule> {
    match r
    case None => []
    case Some(x) => [x]
  }

  /** Every rule a normalised document breaks, in schema order. */
  function Violations(n: Fields): seq<Rule> {
    Report(NameRule(n.name)) + Report(EmailRule(n.email)) + Report(PhoneRule(n.phone))
    + Report(CourseRule(n.course)) + Report(StatusRule(n.status))
  }

  /** The schema accepts a body when its normalised form breaks no rule. */
  predicate Accepts(f: Fields) {
    Violations(Normalise(f)) == []
  }

  // What each path needs of the raw, un-normalised input.

  predicate NameOk(v: Option<string>) {
    v.Some? && |Trim(v.value)| >= NameMinLength
  }

  predicate EmailOk(v: Option<string>) {
    v.Some? && EmailShape(Lower(Trim(v.value)))
  }

  predicate PhoneOk(v: Option<string>) {
    v.Some? && PhoneShape(Trim(v.value))
  }

  predicate CourseOk(v: Option<string>) {
    v.Some? && !AllSpace(v.value)
  }

  predicate StatusOk(v: Option<string>) {
    v.None? || v.value in Statuses
  }

  /** What every stored record satisfies. */
  predicate Valid(s: Student) {
    && |s.name| >= NameMinLength && Trimmed(s.name)
    && Trimmed(s.email) && NoUpper(s.email) && EmailShape(s.email)
    && PhoneShape(s.phone)
    && |s.course| > 0 && Trimmed(s.course)
    && s.status in Statuses
  }

  lemma NameVerdict(v: Option<string>)
    ensures NameRule(TrimPath(v)).None? <==> NameOk(v)
  {
  }

  lemma EmailVerdict(v: Option<string>)
    ensures EmailRule(EmailPath(v)).None? <==> EmailOk(v)
  {
  }

  lemma PhoneVerdict(v: Option<string>)
    ensures PhoneRule(TrimPath(v)).None? <==> PhoneOk(v)
  {
  }

  lemma CourseVerdict(v: Option<string>)
    ensures CourseRule(TrimPath(v)).None? <==> CourseOk(v)
  {
    CoursePathEmpty(v);
  }

  lemma StatusVerdict(v: Option<string>)
    ensures StatusRule(Some(v.GetOr(DefaultStatus))).None? <==> StatusOk(v)
  {
    assert "" !in Statuses;
  }

  lemma ViolationsEmpty(n: Fields)
    ensures Violations(n) == [] <==>
      && NameRule(n.name).None? && EmailRule(n.email).None? && PhoneRule(n.phone).None?
      && CourseRule(n.course).None? && StatusRule(n.status).None?
  {
  }

  /** The field values of a normalised document that supplies every path. */
  function StudentOf(n: Fields): Student
    requires n.name.Some? && n.email.Some? && n.phone.Some? && n.course.Some? && n.status.Some?
  {
    Student(n.name.value, n.email.value, n.phone.value, n.course.value, n.status.value)
  }

  /** The schema accepts a body exactly when each path meets its rule on the
      raw input: name trimmed to two or more characters, e-mail matching after
      trimming and lower-casing, phone of ten digits after trimming, course not
      blank, status absent or one of the three values. */
  lemma AcceptsIff(f: Fields)
    ensures Accepts(f) <==>
      NameOk(f.name) && EmailOk(f.email) && PhoneOk(f.phone) && CourseOk(f.course) && StatusOk(f.status)
  {
    NameVerdict(f.name);
    EmailVerdict(f.email);
    PhoneVerdict(f.phone);
    CourseVerdict(f.course);
    StatusVerdict(f.status);
    ViolationsEmpty(Normalise(f));
  }

  /** Whatever the schema accepts is a valid record once normalised. */
  lemma AcceptedIsValid(f: Fields)
    requires Accepts(f)
    ensures Valid(StudentOf(Normalise(f)))
  {
    ViolationsEmpty(Normalise(f));
    TrimPathTrimmed(f.name);
    EmailPathNormal(f.email);
    TrimPathTrimmed(f.course);
  }

  /** The schema's verdict on a create body: the normalised record, or every
      rule it breaks. */
  function Validate(f: Fields): (r: Result<Student, seq<Rule>>)
    ensures r.Success? <==> Accepts(f)
    ensures r.Success? ==> Valid(r.value)
    ensures r.Failure? ==> |r.error| > 0
  {
    var n := Normalise(f);
    AcceptsIff(f);
    if Violations(n) == [] then
      AcceptedIsValid(f);
      Success(StudentOf(n))
    else
      Failure(Violations(n))
  }

  /** An accepted record holds the input trimmed (and, for the e-mail,
      lower-cased), with the status defaulting to `Pending`. */
  lemma ValidateNormalises(f: Fields)
    requires Validate(f).Success?
    ensures Validate(f).value.name == Trim(f.name.value)
    ensures Validate(f).value.email == Lower(Trim(f.email.value))
    ensures Validate(f).value.phone == Trim(f.phone.value)
    ensures Validate(f).value.course == Trim(f.course.value)
    ensures Validate(f).value.status == f.status.GetOr(DefaultStatus)
  {
  }

  /** A rejected body is rejected for each path it gets wrong, and the error
      names that path's rule. */
  lemma RejectionNamesRule(f: Fields)
    ensures !NameOk(f.name) ==> Validate(f).Failure? && (NameRequired in Validate(f).error || NameTooShort in Validate(f).error)
    ensures !EmailOk(f.email) ==> Validate(f).Failure? && (EmailRequired in Validate(f).error || EmailInvalid in Validate(f).error)
    ensures !PhoneOk(f.phone) ==> Validate(f).Failure? && (PhoneRequired in Validate(f).error || PhoneInvalid in Validate(f).error)
    ensures !CourseOk(f.course) ==> Validate(f).Failure? && CourseRequired in Validate(f).error
    ensures !StatusOk(f.status) ==> Validate(f).Failure? && (StatusRequired in Validate(f).error || StatusNotAllowed in Validate(f).error)
  {
    var n := Normalise(f);
    NameVerdict(f.name);
    EmailVerdict(f.email);
    PhoneVerdict(f.phone);
    CourseVerdict(f.course);
    StatusVerdict(f.status);
    var v := Violations(n);
    assert v == Report(NameRule(n.name)) + Report(EmailRule(n.email)) + Report(PhoneRule(n.phone))
      + Report(CourseRule(n.course)) + Report(StatusRule(n.status));
  }

  /** Conversely, the error names only rules of paths the body gets wrong. */
  lemma RejectionNamesOnlyBroken(f: Fields)
    requires Validate(f).Failure?
    ensures (NameRequired in Validate(f).error || NameTooShort in Validate(f).error) ==> !NameOk(f.name)
    ensures (EmailRequired in Validate(f).error || EmailInvalid in Validate(f).error) ==> !EmailOk(f.email)
    ensures (PhoneRequired in Validate(f).error || PhoneInvalid in Validate(f).error) ==> !PhoneOk(f.phone)
    ensures CourseRequired in Validate(f).error ==> !CourseOk(f.course)
    ensures (StatusRequired in Validate(f).error || StatusNotAllowed in Validate(f).error) ==> !StatusOk(f.status)
  {
    ViolationsNamed(Normalise(f));
    NameVerdict(f.name);
    EmailVerdict(f.email);
    PhoneVerdict(f.phone);
    CourseVerdict(f.course);
    StatusVerdict(f.status);
  }

  /** A rule appears among a document's violations only when its path's
      check fails. */
  lemma ViolationsNamed(n: Fields)
    ensures (NameRequired in Violations(n) || NameTooShort in Violations(n)) ==> NameRule(n.name).Some?
    ensures (EmailRequired in Violations(n) || EmailInvalid in Violations(n)) ==> EmailRule(n.email).Some?
    ensures (PhoneRequired in Violations(n) || PhoneInvalid in Violations(n)) ==> PhoneRule(n.phone).Some?
    ensures CourseRequired in Violations(n) ==> CourseRule(n.course).Some?
    ensures (StatusRequired in Violations(n) || StatusNotAllowed in Violations(n)) ==> StatusRule(n.status).Some?
  {
    var v := Violations(n);
    assert v == Report(NameRule(n.name)) + Report(EmailRule(n.email)) + Report(PhoneRule(n.phone))
      + Report(CourseRule(n.course)) + Report(StatusRule(n.status));
  }

  /** A record's fields as a body that supplies every path. */
  function FieldsOf(s: Student): Fields {
    Fields(Some(s.name), Some(s.email), Some(s.phone), Some(s.course), Some(s.status))
  }

  lemma LowerNoUpper(s: string)
    requires NoUpper(s)
    ensures Lower(s) == s
  {
  }

  /** The setters change nothing on a valid record. */
  lemma ValidIsNormal(s: Student)
    requires Valid(s)
    ensures Trim(s.name) == s.name && Trim(s.phone) == s.phone && Trim(s.course) == s.course
    ensures Lower(Trim(s.email)) == s.email
  {
    TrimFixedPoint(s.name);
    TrimFixedPoint(s.email);
    TrimFixedPoint(s.course);
    PhoneShapeTrimmed(s.phone);
    TrimFixedPoint(s.phone);
    LowerNoUpper(s.email);
  }

  /** Validating a stored record gives it back unchanged: the round trip
      from record to body and back through the schema is the identity. */
  lemma ValidRoundTrip(s: Student)
    requires Valid(s)
    ensures Validate(FieldsOf(s)) == Success(s)
  {
    var f := FieldsOf(s);
    ValidIsNormal(s);
    TrimEmptyIffAllSpace(s.course);
    assert NameOk(f.name);
    assert EmailOk(f.email);
    assert PhoneOk(f.phone);
    assert CourseOk(f.course);
    assert StatusOk(f.status);
    assert Validate(f).Success?;
    ValidateNormalises(f);
    var v := Validate(f).value;
    assert f.status.GetOr(DefaultStatus) == s.status;
    assert v.name == s.name && v.email == s.email && v.phone == s.phone;
    assert v.course == s.course && v.status == s.status;
  }

  /** A phone padded with whitespace is accepted, and stored without it. */
  lemma PaddedPhone()
    ensures PhoneOk(Some(" 0123456789 "))
    ensures TrimPath(Some(" 0123456789 ")) == Some("0123456789")
  {
    var p := " 0123456789 ";
    var q := p[1..];
    assert q == "0123456789 ";
    assert TrimStart(p) == TrimStart(q);
    assert TrimStart(q) == q;
    assert q[..|q| - 1] == "0123456789";
    assert TrimEnd(q) == TrimEnd("0123456789");
    assert Trim(p) == "0123456789";
  }

  /** Normalising twice is normalising once. */
  lemma NormaliseIdempotent(f: Fields)
    ensures Normalise(Normalise(f)) == Normalise(f)
  {
    var n := Normalise(f);
    if f.name.Some? { TrimFixedPoint(f.name.value); }
    if f.phone.Some? { TrimFixedPoint(f.phone.value); }
    if f.course.Some? { TrimFixedPoint(f.course.value); }
    if f.email.Some? {
      EmailPathNormal(f.email);
      TrimFixedPoint(n.email.value);
      LowerNoUpper(n.email.value);
    }
  }

  /** Rules an update body breaks, checked only on the paths it supplies. */
  function UpdateViolations(f: Fields): seq<Rule> {
    var n := NormalisePaths(f);
    (if n.name.Some? then Report(NameRule(n.name)) else [])
    + (if n.email.Some? then Report(EmailRule(n.email)) else [])
    + (if n.phone.Some? then Report(PhoneRule(n.phone)) else [])
    + (if n.course.Some? then Report(CourseRule(n.course)) else [])
    + (if n.status.Some? then Report(StatusRule(n.status)) else [])
  }

  /** An update body passes exactly when every path it supplies meets that
      path's rule on the raw input. */
  lemma UpdateViolationsEmpty(f: Fields)
    ensures UpdateViolations(f) == [] <==>
      && (f.name.None? || NameOk(f.name))
      && (f.email.None? || EmailOk(f.email))
      && (f.phone.None? || PhoneOk(f.phone))
      && (f.course.None? || CourseOk(f.course))
      && (f.status.None? || StatusOk(f.status))
  {
    NameVerdict(f.name);
    EmailVerdict(f.email);
    PhoneVerdict(f.phone);
    CourseVerdict(f.course);
    StatusVerdict(f.status);
  }

  /** A stored record with the supplied (normalised) paths written over it. */
  function Apply(s: Student, n: Fields): Student {
    Student(n.name.GetOr(s.name), n.email.GetOr(s.email), n.phone.GetOr(s.phone),
            n.course.GetOr(s.course), n.status.GetOr(s.status))
  }

  /** The body an update amounts to once merged with the stored record. */
  function Merge(s: Student, f: Fields): Fields {
    Fields(Some(f.name.GetOr(s.name)), Some(f.email.GetOr(s.email)), Some(f.phone.GetOr(s.phone)),
           Some(f.course.GetOr(s.course)), Some(f.status.GetOr(s.status)))
  }

  /** Checking only the supplied paths of an update and writing them over a
      valid record agrees with merging the body into the record and validating
      the whole: the same verdict, and the same resulting record. */
  lemma UpdateCheckAgrees(s: Student, f: Fields)
    requires Valid(s)
    ensures UpdateViolations(f) == [] <==> Validate(Merge(s, f)).Success?
    ensures UpdateViolations(f) == [] ==> Validate(Merge(s, f)).value == Apply(s, NormalisePaths(f))
  {
    var m := Merge(s, f);
    AcceptsIff(m);
    ValidIsNormal(s);
    TrimEmptyIffAllSpace(s.course);
    UpdateViolationsEmpty(f);
    assert NameOk(Some(s.name)) && EmailOk(Some(s.email)) && PhoneOk(Some(s.phone));
    assert CourseOk(Some(s.course)) && StatusOk(Some(s.status));
    if UpdateViolations(f) == [] {
      ValidateNormalises(m);
    }
  }
}
