/** The dashboard page as a state machine: each handler takes the page state
    and whatever the server answered, and yields the next page state together
    with the request it sent, if any. Answers are inputs, so the handlers are
    pure; the lemmas at the end connect them to the request handlers of the
    record store. */
module Dashboard {
  import opened Wrappers
  import opened Text
  import opened Patterns
  import opened StudentSchema
  import opened RecordStore
  import opened Views
  import Csv

  /** The form's five inputs, always strings. */
  datatype Form = Form(name: string, email: string, phone: string, course: string, status: string)

  const BlankForm: Form := Form("", "", "", "", DefaultStatus)

  /** What a request came back with: the response data, or a failure carrying
      the `message` and `error` fields of the error body (`""` when a field is
      absent, and both `""` when no response arrived at all). */
  datatype Reply<+T> = Ok(data: T) | Failed(message: string, error: string)

  /** A request the page sends. */
  datatype Call = CreateCall(body: Json) | UpdateCall(id: Id, body: Json) | DeleteCall(id: Id)

  datatype State = State(
    students: seq<Record>,
    loading: bool,
    search: string,
    courseFilter: string,
    editingId: Option<Id>,
    error: string,
    form: Form)

  const Initial: State := State([], true, "", AllCourses, None, "", BlankForm)

  /** A handler's result: the next state and the request sent, if any. */
  datatype Step = Step(state: State, call: Option<Call>)

  /** `a || b` on strings: the first unless it is empty. */
  function Or(a: string, b: string): (r: string)
    ensures a != "" ==> r == a
    ensures a == "" ==> r == b
  {
    if a != "" then a else b
  }

  /** The body the form is sent as: all five inputs, as typed. */
  function FormJson(f: Form): Json {
    map["name" := f.name, "email" := f.email, "phone" := f.phone, "course" := f.course, "status" := f.status]
  }

  lemma PickForm(f: Form)
    ensures Pick(FormJson(f)) == Fields(Some(f.name), Some(f.email), Some(f.phone), Some(f.course), Some(f.status))
  {
  }

  // Loading.

  /** `load`: a listing replaces the snapshot; a failure keeps it and shows
      the error's message, or a fixed text when there is none. Either way
      loading ends, and nothing else changes. */
  function Load(s: State, reply: Reply<seq<Record>>): (t: State)
    ensures !t.loading
    ensures t == s.(students := t.students, loading := false, error := t.error)
    ensures reply.Ok? ==> t.students == reply.data && t.error == s.error
    ensures reply.Failed? ==> t.students == s.students && t.error != ""
    ensures reply.Failed? && reply.message != "" ==> t.error == reply.message
    ensures reply.Failed? && reply.message == "" ==> t.error == "Failed to load students"
  {
    match reply
    case Ok(items) => s.(students := items, loading := false)
    case Failed(m, _) => s.(loading := false, error := Or(m, "Failed to load students"))
  }

  // The form check.

  const NameMissing: string := "Name is required"
  const EmailBad: string := "Invalid email"
  const PhoneBad: string := "Phone must be 10 digits"
  const CourseMissing: string := "Course is required"
  const StatusMissing: string := "Status is required"

  /** `validate`: the message of the first failing check, or `""`. The name,
      course and status must not be blank; the e-mail and phone patterns are
      matched against the raw input, without trimming. */
  function ClientValidate(f: Form): (msg: string)
    ensures msg == "" <==>
      !AllSpace(f.name) && EmailShape(f.email) && PhoneShape(f.phone) && !AllSpace(f.course) && !AllSpace(f.status)
    ensures msg == NameMissing <==> AllSpace(f.name)
    ensures msg == EmailBad <==> !AllSpace(f.name) && !EmailShape(f.email)
    ensures msg == PhoneBad <==> !AllSpace(f.name) && EmailShape(f.email) && !PhoneShape(f.phone)
    ensures msg == CourseMissing <==>
      !AllSpace(f.name) && EmailShape(f.email) && PhoneShape(f.phone) && AllSpace(f.course)
    ensures msg == StatusMissing <==>
      !AllSpace(f.name) && EmailShape(f.email) && PhoneShape(f.phone) && !AllSpace(f.course) && AllSpace(f.status)
  {
    TrimEmptyIffAllSpace(f.name);
    TrimEmptyIffAllSpace(f.course);
    TrimEmptyIffAllSpace(f.status);
    if Trim(f.name) == "" then NameMissing
    else if !EmailShape(f.email) then EmailBad
    else if !PhoneShape(f.phone) then PhoneBad
    else if Trim(f.course) == "" then CourseMissing
    else if Trim(f.status) == "" then StatusMissing
    else ""
  }

  // Saving.

  /** `submit`: clears the error and checks the form. A failing check shows
      its message and sends nothing. Otherwise the form goes out as an update
      of the record being edited, or as a create when none is; on success the
      form is blanked, editing ends and the list is reloaded, and on failure
      the error shows the answer's `error` field, else its `message`, else a
      fixed text, with the form kept for another try. */
  function Submit(s: State, reply: Reply<Record>, reload: Reply<seq<Record>>): (o: Step)
    ensures ClientValidate(s.form) != "" ==>
      o.call.None? && o.state == s.(error := ClientValidate(s.form))
    ensures ClientValidate(s.form) == "" ==>
      && o.call.Some? && !o.call.value.DeleteCall? && o.call.value.body == FormJson(s.form)
      && (o.call.value.UpdateCall? <==> s.editingId.Some?)
      && (o.call.value.UpdateCall? ==> o.call.value.id == s.editingId.value)
    ensures o.call.Some? && reply.Ok? ==>
      o.state == Load(s.(form := BlankForm, editingId := None, error := ""), reload)
    ensures o.call.Some? && reply.Failed? ==>
      && o.state == s.(error := o.state.error) && o.state.error != ""
      && (reply.error != "" ==> o.state.error == reply.error)
      && (reply.error == "" && reply.message != "" ==> o.state.error == reply.message)
      && (reply.error == "" && reply.message == "" ==> o.state.error == "Save failed")
  {
    var msg := ClientValidate(s.form);
    if msg != "" then Step(s.(error := msg), None)
    else
      var body := FormJson(s.form);
      var call := if s.editingId.Some? then UpdateCall(s.editingId.value, body) else CreateCall(body);
      match reply
      case Ok(_) => Step(Load(s.(form := BlankForm, editingId := None, error := ""), reload), Some(call))
      case Failed(m, e) => Step(s.(error := Or(e, Or(m, "Save failed"))), Some(call))
  }

  /** The form filled from a record; an empty status shows as `Pending`. */
  function FormOf(r: Student): Form {
    Form(r.name, r.email, r.phone, r.course, Or(r.status, DefaultStatus))
  }

  /** `startEdit`: the record becomes the one being edited and its fields
      fill the form. */
  function StartEdit(s: State, r: Record): (t: State)
    ensures t.editingId == Some(r.id) && t.error == ""
    ensures t == s.(editingId := t.editingId, form := t.form, error := "")
    ensures t.form.name == r.student.name && t.form.email == r.student.email
    ensures t.form.phone == r.student.phone && t.form.course == r.student.course
    ensures r.student.status != "" ==> t.form.status == r.student.status
    ensures r.student.status == "" ==> t.form.status == DefaultStatus
    ensures Valid(r.student) ==> Pick(FormJson(t.form)) == FieldsOf(r.student)
  {
    assert DefaultStatus != "";
    s.(editingId := Some(r.id), form := FormOf(r.student), error := "")
  }

  /** `cancelEdit`: editing ends and the form is blanked. */
  function CancelEdit(s: State): (t: State)
    ensures t.editingId.None? && t.form == BlankForm && t.error == ""
    ensures t == s.(editingId := None, form := t.form, error := "")
  {
    s.(editingId := None, form := BlankForm, error := "")
  }

  // Deleting.

  /** `remove`: nothing happens unless the user confirms; a confirmed delete
      that succeeds reloads the list, and one that fails shows a fixed
      message whatever the answer said. */
  function Remove(s: State, r: Record, confirmed: bool, reply: Reply<()>, reload: Reply<seq<Record>>): (o: Step)
    ensures !confirmed ==> o == Step(s, None)
    ensures confirmed ==> o.call == Some(DeleteCall(r.id))
    ensures confirmed && reply.Ok? ==> o.state == Load(s, reload)
    ensures confirmed && reply.Failed? ==> o.state == s.(error := "Delete failed")
  {
    if !confirmed then Step(s, None)
    else if reply.Ok? then Step(Load(s, reload), Some(DeleteCall(r.id)))
    else Step(s.(error := "Delete failed"), Some(DeleteCall(r.id)))
  }

  // Filters and export.

  /** The rows the table shows. */
  function Rows(s: State): seq<Record> {
    Filtered(s.students, s.search, s.courseFilter)
  }

  /** `resetFilters`: an empty search and every course, after which the
      table shows the whole snapshot. */
  function ResetFilters(s: State): (t: State)
    ensures t == s.(search := "", courseFilter := AllCourses)
    ensures Rows(t) == s.students
  {
    FilterShowsAll(s.students);
    s.(search := "", courseFilter := AllCourses)
  }

  /** The page opens loading, with an empty search and every course, so the
      first listing to arrive is shown in full and loading ends. */
  lemma FirstLoadShowsAll(items: seq<Record>)
    ensures Initial.loading && Initial.students == [] && Initial.editingId.None?
    ensures !Load(Initial, Ok(items)).loading
    ensures Rows(Load(Initial, Ok(items))) == items
  {
    FilterShowsAll(items);
  }

  /** `exportCSV`: the CSV text of the rows shown, or nothing (the alert)
      when no row is shown. */
  function ExportCsv(s: State): (csv: Option<string>)
    ensures csv.None? <==> Rows(s) == []
    ensures csv.Some? ==> Csv.Parse(csv.value) == Some([Csv.Header] + Csv.RowTable(Rows(s)))
  {
    Csv.ExportReadsBack(Rows(s));
    Csv.Export(Rows(s))
  }

  /** After a reset, the export holds every record of the snapshot. */
  lemma ExportAfterReset(s: State)
    requires s.students != []
    ensures Csv.Parse(ExportCsv(ResetFilters(s)).value) == Some([Csv.Header] + Csv.RowTable(s.students))
  {
  }

  // The page against the server.

  /** How the page sees a listing answer. */
  function ListReply(r: Response): Reply<seq<Record>> {
    if r.body.Listing? then Ok(r.body.items)
    else Failed(if r.body.Message? then r.body.text else "", "")
  }

  /** How the page sees a create or update answer. The `error` field of a 400
      or 500 body holds the database's own message, given as `detail`; a 404
      body has none. */
  function SaveReply(r: Response, detail: string): Reply<Record> {
    if r.body.Saved? then Ok(r.body.record)
    else Failed(if r.body.Message? then r.body.text else "", if r.status == 404 then "" else detail)
  }

  function DeleteReply(r: Response): Reply<()> {
    if r.status == 200 then Ok(())
    else Failed(if r.body.Message? then r.body.text else "", "")
  }

  /** A form that passes the page's check, whose trimmed name is long enough
      and whose status is one of the three, is accepted by the schema. */
  lemma ClientImpliesServer(f: Form)
    requires ClientValidate(f) == ""
    requires |Trim(f.name)| >= NameMinLength && f.status in Statuses
    ensures Accepts(Pick(FormJson(f)))
  {
    PickForm(f);
    NoSpaceTrimmed(f.email);
    TrimFixedPoint(f.email);
    EmailShapeLower(f.email);
    PhoneShapeTrimmed(f.phone);
    TrimFixedPoint(f.phone);
    AcceptsIff(Pick(FormJson(f)));
  }

  /** The e-mail of the examples below matches the pattern and is unchanged
      by the schema's setters. */
  lemma SampleEmail()
    ensures EmailShape("ann@x.io") && Lower(Trim("ann@x.io")) == "ann@x.io"
  {
    EmailFromParts("ann", "x", "io");
    assert "ann" + "@" + "x" + "." + "io" == "ann@x.io";
    NoSpaceTrimmed("ann@x.io");
    TrimFixedPoint("ann@x.io");
    LowerNoUpper("ann@x.io");
  }

  lemma SampleBlanks()
    ensures !AllSpace("A") && !AllSpace("Ann Lee") && !AllSpace("Maths") && !AllSpace("Pending")
    ensures Trim("A") == "A" && Trim("Ann Lee") == "Ann Lee"
  {
    assert !IsSpace("A"[0]) && !IsSpace("Ann Lee"[0]) && !IsSpace("Maths"[0]) && !IsSpace("Pending"[0]);
    TrimFixedPoint("A");
    TrimFixedPoint("Ann Lee");
  }

  /** The two checks differ both ways: the page lets a one-letter name
      through, which the schema refuses ... */
  lemma ClientLaxOnName()
    ensures var f := Form("A", "ann@x.io", "0123456789", "Maths", "Pending");
      ClientValidate(f) == "" && !Accepts(Pick(FormJson(f)))
  {
    var f := Form("A", "ann@x.io", "0123456789", "Maths", "Pending");
    SampleEmail();
    SampleBlanks();
    SamplePhone();
    assert ClientValidate(f) == "";
    PickForm(f);
    assert !NameOk(Pick(FormJson(f)).name);
    AcceptsIff(Pick(FormJson(f)));
  }

  lemma SamplePhone()
    ensures !PhoneShape(" 0123456789 ")
    ensures PhoneShape("0123456789")
  {
    assert |" 0123456789 "| == 12;
  }

  /** ... and the page refuses a phone number padded with spaces, which the
      schema would trim and accept. */
  lemma ClientStricterOnPhone()
    ensures var f := Form("Ann Lee", "ann@x.io", " 0123456789 ", "Maths", "Pending");
      ClientValidate(f) == PhoneBad && Accepts(Pick(FormJson(f)))
  {
    var f := Form("Ann Lee", "ann@x.io", " 0123456789 ", "Maths", "Pending");
    SampleEmail();
    SampleBlanks();
    SamplePhone();
    PaddedPhone();
    PickForm(f);
    AcceptsIff(Pick(FormJson(f)));
  }

  /** Saving a new student end to end: the server creates the record, and
      after the reload it heads the list, the form is blank and no error
      shows. */
  lemma SubmitNewStudent(s: State, st: Store, detail: string)
    requires Wf(st)
    requires s.editingId.None? && ClientValidate(s.form) == ""
    requires |Trim(s.form.name)| >= NameMinLength && s.form.status in Statuses
    ensures var o := Create(st, FormJson(s.form), false);
      && o.response.status == 201
      && var t := Submit(s, SaveReply(o.response, detail), ListReply(List(o.store, false).response)).state;
      && t.students != [] && t.students[0] == o.response.body.record
      && t.form == BlankForm && t.editingId.None? && t.error == "" && !t.loading
  {
    ClientImpliesServer(s.form);
    CreateThenListFirst(st, FormJson(s.form));
  }

  /** A form the page lets through but the schema refuses: the server answers
      400 and stores nothing, and the page shows the schema's message (or
      `Validation error` when it is empty) and keeps the form. */
  lemma SubmitRefusedByServer(s: State, st: Store, detail: string)
    requires s.editingId.None? && ClientValidate(s.form) == ""
    requires !Accepts(Pick(FormJson(s.form)))
    ensures var o := Create(st, FormJson(s.form), false);
      && o.response.status == 400 && o.store == st
      && var t := Submit(s, SaveReply(o.response, detail), ListReply(List(o.store, false).response)).state;
      && t.error == Or(detail, "Validation error") && t.form == s.form && t.students == s.students
  {
  }

  /** Editing a stored record and saving it unchanged passes the page's
      check, and the server keeps the record's fields as they were. */
  lemma EditUnchangedKeepsRecord(s: State, st: Store, id: Id)
    requires Wf(st) && id in st.records
    ensures var t := StartEdit(s, st.records[id]);
      && ClientValidate(t.form) == ""
      && var o := Update(st, id, FormJson(t.form), false);
      && o.response.status == 200
      && o.response.body.record.student == st.records[id].student
  {
    var r := st.records[id];
    var t := StartEdit(s, r);
    var v := r.student;
    assert Valid(v);
    TrimEmptyIffAllSpace(v.name);
    TrimEmptyIffAllSpace(v.course);
    TrimEmptyIffAllSpace(v.status);
    assert !AllSpace(v.status) by { assert v.status[0] != ' '; StatusTrimmed(v.status); }
    PhoneShapeTrimmed(v.phone);
    UpdateAgreesWithMerge(st, id, FormJson(t.form));
    assert Merge(v, FieldsOf(v)) == FieldsOf(v);
    ValidRoundTrip(v);
  }

  lemma StatusTrimmed(status: string)
    requires status in Statuses
    ensures |status| > 0 && !AllSpace(status)
  {
    assert !IsSpace(status[0]);
  }

  /** Cancelling an edit forgets it: the page is as if it had been cancelled
      without starting. */
  lemma CancelUndoesStartEdit(s: State, r: Record)
    ensures CancelEdit(StartEdit(s, r)) == CancelEdit(s)
  {
  }

  /** Deleting end to end: after a confirmed delete of a stored record and a
      successful reload, the list holds every other stored record and not
      that one. */
  lemma RemoveDropsRecord(s: State, st: Store, id: Id)
    requires Wf(st) && id in st.records
    ensures var r := st.records[id];
      && var d := Delete(st, id, false);
      && var t := Remove(s, r, true, DeleteReply(d.response), ListReply(List(d.store, false).response)).state;
      && r !in t.students
      && forall q | q in st.records.Values && q.id != id :: q in t.students
  {
    var d := Delete(st, id, false);
    DeletePreservesWf(st, id, false);
    ListingSpec(d.store);
    ListingSpec(st);
    forall q | q in st.records.Values && q.id != id
      ensures q in d.store.records.Values
    {
      assert st.records[q.id] == q;
      assert d.store.records[q.id] == q;
    }
  }
}
