# Student enrollment: a Dafny model

This project models the core of a small student-enrollment application: a
Mongoose schema for a student record (name, e-mail, phone, course, status),
the Express controller that lists, creates, updates and deletes records, and
the React dashboard page that loads the list, filters it, counts statuses,
checks and submits the form, starts and cancels edits, deletes records and
exports the visible rows as CSV.

Modules, in dependency order:

- `Wrappers` (`wrappers.dfy`): `Option` and `Result`.
- `Text` (`text.dfy`): the string operations the application relies on:
  `trim`, `toLowerCase` and `includes`, over ASCII whitespace and letters.
- `Patterns` (`patterns.dfy`): the e-mail pattern `^\S+@\S+\.\S+$` and the
  phone pattern `^\d{10}$` as predicates, with a one-pass matcher.
- `StudentSchema` (`student.dfy`): the schema's setters (trim, lower-case,
  default status) and validators, the verdict on a create body, and the
  verdict on an update body, which only checks the paths it supplies.
- `RecordStore` (`store.dfy`): the four request handlers as transitions of a
  store of records keyed by id, with the store invariant `Wf` they preserve.
- `Views` (`views.dfy`): the dashboard's filtered table, course choices and
  status counters.
- `Csv` (`csv.dfy`): the CSV export, plus a reader for the same format that
  the export is proved to round-trip through.
- `Dashboard` (`dashboard.dfy`): the page's handlers as pure functions from
  the page state and the server's answers to the next state and the request
  sent, and lemmas that run them against the `RecordStore` handlers.

Modelling choices:

- Ids are natural numbers handed out in order, and a clock that advances on
  every write stands in for the `createdAt`/`updatedAt` timestamps. A record
  created later therefore has a larger id and a later `createdAt`, and
  "newest first" is "largest id first".
- A failure of the database itself is the input `fault`; the server's answer
  to a page request is an input of the page's handler (`Reply`), and whether
  the user confirmed a delete is the input `confirmed`.
- An absent body key is `None`; JSON bodies are maps from strings to strings.
- The schema's error is the list of rules the body breaks, not Mongoose's
  concatenated message text.
- The update handler passes `runValidators: true`, so the validators run on
  the supplied paths before the record is looked up: an invalid body sent to
  a missing id answers 400, not 404.

## Model

| member | source | states |
|---|---|---|
| Text.Lower | backend/src/models/Student.js:15 | lower-casing keeps the length, maps each of `A`-`Z` to the letter 32 code points above it (`a`-`z`), and keeps every other character |
| Text.Contains | frontend/src/pages/Dashboard.jsx:71 | `includes`: the search text is a prefix of the name from some position on; `ContainsEmpty` and `Views.FilterShowsAll` rely on it |
| Text.Trim | backend/src/models/Student.js:8 | the trimmed string is no longer than the input and has no whitespace at either end |
| Text.TrimSplit | backend/src/models/Student.js:8 | the trimmed string is a slice of the input with only whitespace before and after it |
| Text.TrimFixedPoint | backend/src/models/Student.js:8 | trimming leaves a string unchanged exactly when it has no whitespace at its ends, so trimming twice is trimming once |
| Text.TrimEmptyIffAllSpace | frontend/src/pages/Dashboard.jsx:86 | trimming gives the empty string exactly for whitespace-only input, which is what the form's blank checks rely on |
| Text.LowerTrimCommute | backend/src/models/Student.js:14-15 | trimming and lower-casing commute, so the order of the e-mail setters does not matter |
| Text.LowerIdempotent | backend/src/models/Student.js:15 | a lower-cased string has no upper-case letter and lower-casing it again changes nothing |
| Text.ContainsEmpty | frontend/src/pages/Dashboard.jsx:71 | every name includes the empty search text |
| Patterns.EmailShape | backend/src/models/Student.js:16 | the e-mail pattern, used also by the form check (frontend/src/pages/Dashboard.jsx:87); `MatchEmail`, `EmailFromParts` and `EmailToParts` characterise it |
| Patterns.PhoneShape | backend/src/models/Student.js:22 | the phone pattern, used also by the form check (frontend/src/pages/Dashboard.jsx:88); `PhoneShapeNumerals` characterises it |
| Patterns.PhoneShapeNumerals | backend/src/models/Student.js:22 | the phone pattern matches exactly the ten-digit zero-padded numerals of the numbers below 10^10: each match spells such a number and is that number written back, and each such number written with ten digits matches |
| Patterns.MatchEmail | backend/src/models/Student.js:16 | the single-pass matcher answers true exactly when the string matches the e-mail pattern |
| Patterns.EmailFromParts | backend/src/models/Student.js:16 | any three non-empty whitespace-free pieces joined as a@b.c match the e-mail pattern |
| Patterns.EmailToParts | backend/src/models/Student.js:16 | every match of the e-mail pattern splits into three non-empty whitespace-free pieces around an @ and a dot |
| Patterns.EmailShapeLower | backend/src/models/Student.js:15-16 | lower-casing neither creates nor destroys an e-mail match |
| Patterns.PhoneShapeTrimmed | backend/src/models/Student.js:21-22 | a ten-digit phone has no whitespace, so trimming leaves it unchanged |
| StudentSchema.NormalisePaths | backend/src/models/Student.js:5-29 | the setters keep every path present or absent as it was and never touch the status |
| StudentSchema.Normalise | backend/src/models/Student.js:30-35 | a create body's status becomes Pending when absent and is kept otherwise; every other path stays present or absent as it was |
| StudentSchema.NameVerdict | backend/src/models/Student.js:5-10 | the name rules pass exactly when a name is given whose trimmed form has at least two characters |
| StudentSchema.EmailVerdict | backend/src/models/Student.js:11-17 | the e-mail rules pass exactly when an e-mail is given that matches the pattern once trimmed and lower-cased |
| StudentSchema.PhoneVerdict | backend/src/models/Student.js:18-24 | the phone rules pass exactly when a phone is given that is ten digits once trimmed |
| StudentSchema.CourseVerdict | backend/src/models/Student.js:25-29 | the course rule passes exactly when a course is given that is not whitespace only |
| StudentSchema.StatusVerdict | backend/src/models/Student.js:30-35 | the status rules pass exactly when the status is absent (and defaults) or one of Enrolled, Pending, Completed |
| StudentSchema.Accepts | backend/src/models/Student.js:3-36 | the schema's create verdict: the normalised body breaks no rule; `AcceptsIff` characterises it |
| StudentSchema.AcceptsIff | backend/src/models/Student.js:3-36 | the schema accepts a body exactly when each of the five paths meets its rule on the raw input |
| StudentSchema.AcceptedIsValid | backend/src/models/Student.js:3-36 | whatever the schema accepts becomes a record satisfying the stored-record invariant |
| StudentSchema.Validate | backend/src/models/Student.js:3-38 | a body is accepted exactly when no rule fails; an accepted body yields a valid record, a refused one a non-empty list of rules, which `RejectionNamesRule` and `RejectionNamesOnlyBroken` show names exactly the broken paths |
| StudentSchema.ValidateNormalises | backend/src/models/Student.js:5-35 | an accepted record holds the trimmed inputs, the e-mail also lower-cased, and the status given or Pending |
| StudentSchema.RejectionNamesRule | backend/src/models/Student.js:5-35 | every path that breaks its rule makes the body refused, and the error names that path's rule |
| StudentSchema.RejectionNamesOnlyBroken | backend/src/models/Student.js:5-35 | conversely, a refusal names a path's rule only when that path breaks it, so the error names exactly the broken paths |
| StudentSchema.ValidIsNormal | backend/src/models/Student.js:5-29 | the setters leave every field of a valid record unchanged |
| StudentSchema.ValidRoundTrip | backend/src/models/Student.js:3-36 | sending a stored record's fields back through the schema yields the same record |
| StudentSchema.PaddedPhone | backend/src/models/Student.js:18-23 | a phone padded with spaces, " 0123456789 ", is accepted and stored as 0123456789 |
| StudentSchema.NormaliseIdempotent | backend/src/models/Student.js:5-35 | applying the setters twice is applying them once |
| StudentSchema.UpdateViolations | backend/src/controllers/studentController.js:41-44 | the rules an update body breaks on the paths it supplies; `UpdateViolationsEmpty` and `UpdateCheckAgrees` characterise it |
| StudentSchema.UpdateViolationsEmpty | backend/src/controllers/studentController.js:41-44 | an update body passes exactly when each path it supplies meets its rule; absent paths are not checked |
| StudentSchema.UpdateCheckAgrees | backend/src/controllers/studentController.js:41-44 | checking only the supplied paths and writing them over a valid record agrees with merging and validating the whole record, in verdict and in result |
| RecordStore.IdsDown | backend/src/controllers/studentController.js:6 | the listed ids are exactly the ids in use, in strictly decreasing order |
| RecordStore.NewestFirst | backend/src/controllers/studentController.js:6 | every stored record, newest first; `ListingSpec` characterises it |
| RecordStore.List | backend/src/controllers/studentController.js:4-11 | a listing answers 200 with `NewestFirst` of the store, which `ListingSpec` shows is every stored record in strictly decreasing creation time; a database failure answers 500 with the fixed text "Failed to fetch students"; the store is unchanged |
| RecordStore.EmptyWf | backend/src/controllers/studentController.js:4-7 | the empty collection the server starts from is well formed and lists no records |
| RecordStore.ListingSpec | backend/src/controllers/studentController.js:6-7 | the listing holds exactly the stored records, in strictly decreasing creation time |
| RecordStore.Create | backend/src/controllers/studentController.js:14-34 | 400 exactly when the schema refuses the body, 500 exactly on a database failure of an accepted body, otherwise 201 with the validated record inserted under a fresh id and stamped with the clock; nothing is stored on failure |
| RecordStore.CreatePreservesWf | backend/src/controllers/studentController.js:18-26 | a create keeps the store invariant |
| RecordStore.CreateAddsOne | backend/src/controllers/studentController.js:18-26 | a successful create adds exactly one record, under an id not in use |
| RecordStore.CreateReadsSchemaPaths | backend/src/controllers/studentController.js:16-24 | only the five schema paths of a create body matter |
| RecordStore.CreateThenListFirst | backend/src/controllers/studentController.js:4-26 | a record just created heads the next listing |
| RecordStore.Update | backend/src/controllers/studentController.js:37-57 | 400 "Validation error" exactly when a supplied path breaks its rule, then 500 "Failed to update student" on a database failure, then 404 "Student not found" when the id is unknown, otherwise 200 with the supplied paths written over the record and updatedAt refreshed; nothing changes on failure |
| RecordStore.UpdateAgreesWithMerge | backend/src/controllers/studentController.js:41-44 | an update of an existing record succeeds exactly when the merged record validates, yields that record, and moves updatedAt forward |
| RecordStore.UpdatedRecordValid | backend/src/controllers/studentController.js:41-50 | an updated record satisfies the schema |
| RecordStore.UpdatePreservesWf | backend/src/controllers/studentController.js:37-57 | an update keeps the store invariant |
| RecordStore.UpdateTouchesOnlyTarget | backend/src/controllers/studentController.js:41-50 | an update never adds or removes a record and leaves every other record as it was |
| RecordStore.UpdateStatusOnly | backend/src/controllers/studentController.js:41-50 | an update that only sets an allowed status changes that field alone and moves updatedAt forward |
| RecordStore.Delete | backend/src/controllers/studentController.js:60-74 | 500 "Failed to delete student" exactly on a database failure, 404 "Student not found" exactly when the id is unknown, otherwise 200 with exactly that record removed, every other record kept, and the next id and clock unchanged, so a deleted id is never handed out again |
| RecordStore.DeletePreservesWf | backend/src/controllers/studentController.js:60-74 | a delete keeps the store invariant |
| RecordStore.DeleteTwice | backend/src/controllers/studentController.js:64-68 | deleting the same id again answers 404 and changes nothing |
| Views.Shown | frontend/src/pages/Dashboard.jsx:70-73 | a record is shown when its lower-cased name includes the lower-cased search and its course is the filter, or the filter is All |
| Views.Filtered | frontend/src/pages/Dashboard.jsx:69-75 | the table's rows are the snapshot's records whose lower-cased name includes the lower-cased search and whose course matches the filter (any course for All), in order and with their multiplicities |
| Views.FilterShowsAll | frontend/src/pages/Dashboard.jsx:69-75 | an empty search with the All filter shows the whole snapshot |
| Views.FilterIdempotent | frontend/src/pages/Dashboard.jsx:69-75 | filtering the rows again with the same inputs changes nothing |
| Views.Distinct | frontend/src/pages/Dashboard.jsx:65 | de-duplication keeps every non-empty value once and drops the empty one |
| Views.DistinctFirstAppearance | frontend/src/pages/Dashboard.jsx:65 | de-duplicated values keep the order of their first occurrence |
| Views.CourseChoices | frontend/src/pages/Dashboard.jsx:64-67 | the choices are All followed by every non-empty course of the snapshot, each once, in order of first appearance |
| Views.CountStatus | frontend/src/pages/Dashboard.jsx:79-81 | a status counter is exactly the number of records whose lower-cased status is the one counted, so it is at most the number of records and zero exactly when none matches |
| Views.StatusPartition | frontend/src/pages/Dashboard.jsx:77-83 | every record counts towards exactly one of the three status counters or none |
| Views.ComputeStats | frontend/src/pages/Dashboard.jsx:77-83 | the total is the number of records and the three counters add up to at most the total |
| Views.StatsOfValidRecords | frontend/src/pages/Dashboard.jsx:77-83 | when every record satisfies the schema the three counters add up to the total |
| Csv.Export | frontend/src/pages/Dashboard.jsx:151-175 | there is an export exactly when some row is shown |
| Csv.QuotedTailOfDoubled | frontend/src/pages/Dashboard.jsx:159-162 | a value with its quotes doubled, followed by a closing quote, reads back as the value |
| Csv.Escape | frontend/src/pages/Dashboard.jsx:159-162 | an escaped value starts and ends with a double quote; `EscapeRoundTrip` shows it reads back |
| Csv.EscapeRoundTrip | frontend/src/pages/Dashboard.jsx:159-162 | unescaping an escaped value gives it back |
| Csv.LineOf | frontend/src/pages/Dashboard.jsx:164-174 | a line of comma-joined cells reads back as its values |
| Csv.RowsReadBack | frontend/src/pages/Dashboard.jsx:166-175 | the row lines joined by line feeds read back as the rows' five values each |
| Csv.ExportReadsBack | frontend/src/pages/Dashboard.jsx:151-175 | the export reads back as the header followed by one line of five values per shown row, in order |
| Dashboard.Load | frontend/src/pages/Dashboard.jsx:34-44 | a listing replaces the snapshot; a failure keeps it and shows the answer's message, or "Failed to load students" when there is none; loading ends and nothing else changes |
| Dashboard.ClientValidate | frontend/src/pages/Dashboard.jsx:85-92 | the form passes exactly when name, course and status are not blank and the raw e-mail and phone match their patterns; otherwise the message is that of the first failing check |
| Dashboard.Submit | frontend/src/pages/Dashboard.jsx:94-111 | a form failing the check sends nothing and shows the message; otherwise the form is sent as an update when editing and a create otherwise; success blanks the form, ends editing and reloads; failure changes only the error, which shows the answer's error, else its message, else Save failed |
| Dashboard.StartEdit | frontend/src/pages/Dashboard.jsx:113-123 | the record becomes the one being edited, the error clears, the form copies the record's four text fields and its status, an empty status becoming Pending, and for a valid record the form sends exactly its stored fields |
| Dashboard.CancelEdit | frontend/src/pages/Dashboard.jsx:125-129 | editing ends, the form is blank and the error clears; nothing else changes |
| Dashboard.Remove | frontend/src/pages/Dashboard.jsx:132-142 | nothing happens without confirmation; a confirmed delete is sent for that record's id, reloads on success and shows Delete failed on failure |
| Dashboard.FirstLoadShowsAll | frontend/src/pages/Dashboard.jsx:14-21 | the page opens loading, with no records, an empty search, every course and nothing being edited, so the first listing to arrive is shown in full and loading ends |
| Dashboard.ResetFilters | frontend/src/pages/Dashboard.jsx:145-148 | after a reset the table shows the whole snapshot |
| Dashboard.ExportCsv | frontend/src/pages/Dashboard.jsx:151-175 | no export exactly when no row is shown; an export reads back as the header and the shown rows |
| Dashboard.ExportAfterReset | frontend/src/pages/Dashboard.jsx:145-175 | after a reset the export holds every record of the snapshot |
| Dashboard.ClientImpliesServer | frontend/src/pages/Dashboard.jsx:85-92 | a form passing the page's check, with a trimmed name of two or more characters and an allowed status, is accepted by the schema |
| Dashboard.ClientLaxOnName | frontend/src/pages/Dashboard.jsx:86 | a one-letter name passes the page's check but the schema refuses it |
| Dashboard.ClientStricterOnPhone | frontend/src/pages/Dashboard.jsx:88 | a phone padded with spaces fails the page's check although the schema would trim and accept it |
| Dashboard.SubmitNewStudent | frontend/src/pages/Dashboard.jsx:94-111 | saving a new student creates it on the server, and after the reload it heads the list with the form blank and no error |
| Dashboard.SubmitRefusedByServer | frontend/src/pages/Dashboard.jsx:108-110 | a form the schema refuses stores nothing and leaves the form in place with the server's error shown |
| Dashboard.EditUnchangedKeepsRecord | frontend/src/pages/Dashboard.jsx:113-123 | editing a stored record and saving it unchanged passes the check and keeps the record's fields |
| Dashboard.CancelUndoesStartEdit | frontend/src/pages/Dashboard.jsx:113-129 | cancelling an edit leaves the page as cancelling without starting would |
| Dashboard.RemoveDropsRecord | frontend/src/pages/Dashboard.jsx:132-142 | after a confirmed delete and reload the list holds every other stored record and not the deleted one |

## Left out

- The health probe (`pingBackend`, the five-second interval and the
  Online/Offline badge) is outside the record state and is not modelled.
- Dashboard.Load: does not model the moment `loading` is set at the start of
  a load; only the state after the answer is modelled.
- Dashboard.Remove: does not model the text of the confirmation prompt; the
  user's answer is the input `confirmed`.
- Dashboard.ExportCsv: does not model building the file (the `Blob`, the
  download link, the date-based file name) or the alert text; an absent
  export stands for the alert.
- RecordStore.Create: does not model the `error` field of a 400 or 500 body,
  which carries the database's own message text; the page receives it as the
  `detail` input of `Dashboard.SaveReply`.
- RecordStore.Update: does not model the `error` field of a 400 or 500 body,
  for the same reason.
- RecordStore.List: does not model the `error` field of its 500 body.
- RecordStore.Delete: does not model the `error` field of its 500 body.
- StudentSchema.Validate: reports the list of broken rules rather than
  Mongoose's message string built from them.
- Malformed ids (which make the database raise a cast error and the handlers
  answer 500) are not modelled: ids are natural numbers.
- Request bodies hold strings only: `null`, numbers, arrays and nested
  objects, and Mongoose's casting of them, are not modelled.
- Update bodies that try to set `_id`, `createdAt` or `updatedAt` are not
  modelled: only the five schema paths are read.
- Whitespace and case are ASCII only: Unicode whitespace for `trim` and for
  `\S` in the e-mail pattern, and non-ASCII letters for lower-casing, are not
  modelled. So an e-mail such as `a`, U+00A0, `b@x.io` fails the real pattern
  but matches `Patterns.EmailShape`.
- StudentSchema.NameRule: lengths are counted in characters, not in the
  UTF-16 code units JavaScript counts, so a one-character name outside the
  Basic Multilingual Plane (such as U+20B9F) is accepted by the schema's
  minimum length of 2 and refused here.
- RecordStore.ListingSpec: the strictly decreasing `createdAt` rests on the
  model's clock, which advances on every write. Real timestamps have
  millisecond resolution and can repeat or step back, and the database orders
  equal `createdAt` values arbitrarily.
- RecordStore.CreateThenListFirst: rests on the same clock; two creates in the
  same millisecond, or a clock that steps back, can list another record first.
- Dashboard.SubmitNewStudent: the new record heading the reloaded list rests
  on the same clock, for the same reason.
- RecordStore.UpdateAgreesWithMerge: its later `updatedAt` rests on the same
  clock; a real update can keep or lower the timestamp.
- RecordStore.UpdateStatusOnly: its later `updatedAt` rests on the same clock,
  for the same reason.
- Concurrency (several clients, racing updates to the same record) is not
  modelled: every handler is one atomic step.
- Routing, the Express server, CORS, the axios client and the database
  connection are not modelled.
- A course named `All` cannot be selected on its own: the filter treats that
  value as every course. The model keeps this behaviour as it is.
