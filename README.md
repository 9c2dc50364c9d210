# Department API core, modelled in Dafny

This project models the request-handling core of a small CRUD web service
for a university department. The service keeps three independent document
collections: `event`, `course` and `timetable`. It covers:

- the create-time schemas (`Event`, `Course`, `Timetable`, and the
  `Semester` and `DayOfWeek` enumerations), with required fields,
  defaults, the year range [2000, 2100], the credits range [0, 30] and the
  closed literal sets;
- `serialize_doc`, which renames `_id` to `id` as a string and turns
  date-like values into ISO text;
- the partial-update bodies and the `update_data` / `$set` /
  `updated_at` logic;
- the list handlers' exact-match query building and what a find with an
  optional limit returns;
- the create, update and delete handlers of all three collections: the
  status each one chooses and what each one does to the store.

Layout, one module per component:

| file | module | what |
|---|---|---|
| options.dfy | `Options` | `Option` |
| object_ids.dfy | `ObjectIds` | identifier text: well-formedness, parsing, `str()` |
| values.dfy | `Values` | document values and records |
| schemas.dfy | `Schemas` | entities, enumerations, create-time validation |
| serialization.dfy | `Serialization` | `serialize_doc` as a method and its specification |
| updates.dfy | `Updates` | partial-update models and decoding their bodies, `update_data`, `$set` |
| queries.dfy | `Queries` | list filters, `limit`, find results |
| handlers.dfy | `Handlers` | responses, and each handler's decision as a function of the state before it |
| service.dfy | `Service` | class `Store`: the collections and the twelve handlers as methods |

The store is a class. It has one `map<ObjectId, Record>` per collection
and a `connected` flag that stands for `db is not None`. Each mutating
handler is a method. Its postcondition ties the response and the new
collection to a pure outcome function in `Handlers`
(`CreateOutcome`, `UpdateOutcome`, `DeleteOutcome`), and the lemmas
about those functions state what the handlers promise. `Store.Valid()`
says every document sits under the identifier held in its own `_id` field,
and that this identifier is canonical, so its text addresses the document.
Every handler keeps it.

Modelling choices:

- An identifier text is well formed when it is 24 hexadecimal digits.
  That is the rule `ObjectId(text)` applies to a string. Parsing lowercases
  the digits, and `str()` gives the lower-case digits back.
- A date or datetime is known only through its ISO text (`Moment`), and
  `isoformat()` reads that text.
- The server timestamp used for `updated_at` is the parameter `now`.
  The identifier the driver generates for an insert is the parameter
  `newId`, required to be fresh and canonical.
- A create body arrives as a decoded record. FastAPI validates it before
  the handler body runs. So an invalid body is rejected even when the
  database is missing. `Unprocessable` carries exactly the declared
  fields that fail their checks, and keys outside the schema are ignored.
- An update body arrives as a decoded record too. FastAPI decodes it into
  the partial model (`EventUpdate`, `CourseUpdate`, `TimetableUpdate`)
  before the handler runs. Each field must be absent, null or of its
  declared type. Otherwise the answer is 422 naming the badly typed
  fields, before the database and identifier checks. Every field is a
  plain optional, so an update may store a year of 1999 or an unknown
  semester name (`Updates.UpdateSkipsCreateRules`). Create-time validity
  is not an invariant of the store.

Notes on the code's behaviour:

- A create or update body that fails validation gets FastAPI's default
  422 rather than a 400. That check comes before the database-availability
  check.
- A list result's order is whatever `get_documents` returns. `database.py`
  is not part of this model, so the model leaves the order open.
- `list_timetable` has a comment about sorting by day and start time, but
  its code does not sort. The model does not sort either.

## Model

| member | source | states |
|---|---|---|
| `ObjectIds.Parse` | main.py:144-147 | an identifier text is accepted exactly when it is well formed (24 hex digits); the result is canonical lower-case hex, digit by digit |
| `ObjectIds.ParseToString` | main.py:136-137 | the text of a stored identifier is well formed and parses back to the same identifier (create's `find_one(ObjectId(new_id))` finds the inserted document) |
| `ObjectIds.ParseIgnoresCase` | main.py:145 | texts that differ only in the case of their hex digits name the same identifier |
| `ObjectIds.ToString` | main.py:30 | `str()` of a generated identifier is a well-formed identifier text |
| `Schemas.ParseSemester` | schemas.py:19-22 | a semester is accepted exactly when it is "Fall", "Spring" or "Summer", and the member's name is the text |
| `Schemas.SemesterRoundTrip` | schemas.py:19-22 | each semester's name parses back to it |
| `Schemas.ParseDay` | schemas.py:25-31 | a day is accepted exactly when it is Monday through Saturday, and the member's name is the text |
| `Schemas.DayRoundTrip` | schemas.py:25-31 | each day's name parses back to it |
| `Schemas.EventRecord` | schemas.py:34-42 | an event's stored form holds exactly the seven declared fields |
| `Schemas.CourseRecord` | schemas.py:45-53 | a course's stored form holds exactly the seven declared fields |
| `Schemas.TimetableRecord` | schemas.py:56-66 | a timetable slot's stored form holds exactly the nine declared fields |
| `Schemas.ReservedKeysUndeclared` | schemas.py:34-66 | no schema declares `_id` or `updated_at` |
| `Schemas.EventErrorsAt` | schemas.py:36-42 | each event field is reported exactly when its own check fails (title and date required, the rest optional strings) |
| `Schemas.CourseErrorsAt` | schemas.py:47-53 | each course field is reported exactly when its own check fails (required strings, semester enum, year range, credits range with default) |
| `Schemas.TimetableErrorsAt` | schemas.py:58-66 | each slot field is reported exactly when its own check fails (semester and day enums, year range, required strings, optional strings) |
| `Schemas.ParseEvent` | schemas.py:34-42 | an accepted event keeps every supplied field as given; a rejection names a non-empty set of event fields (the exact set is `EventFieldsChecked`) |
| `Schemas.ParseCourse` | schemas.py:45-53 | an accepted course satisfies the year and credits ranges, keeps every supplied field as given, and gets credits 3 when they are absent; a rejection names a non-empty set of course fields (the exact set is `CourseFieldsChecked`) |
| `Schemas.ParseTimetable` | schemas.py:56-66 | an accepted slot satisfies the year range and keeps every supplied field as given; a rejection names a non-empty set of slot fields (the exact set is `TimetableFieldsChecked`) |
| `Schemas.Validate` | schemas.py:34-66 | a create body is accepted exactly when every declared field passes its own check; the result has exactly the entity's fields, each holding the supplied value or its default (null, or 3 for credits); a rejection names exactly the declared fields that fail |
| `Schemas.EventFieldsChecked` | schemas.py:34-42 | an event body is accepted exactly when every declared field passes its check; a rejection names exactly the failing fields; an accepted body is stored with each supplied field as given and null for each omitted one |
| `Schemas.CourseFieldsChecked` | schemas.py:45-53 | the same for a course body, with credits 3 when omitted |
| `Schemas.TimetableFieldsChecked` | schemas.py:56-66 | the same for a slot body |
| `Schemas.TimetableStored` | schemas.py:56-66 | an accepted slot body is stored with each declared field as supplied and null for each omitted optional one |
| `Schemas.SameField` | schemas.py:34-66 | each field check reads only its own field |
| `Schemas.ExtraKeysIgnored` | schemas.py:34-66 | keys outside the schema are ignored: bodies that agree on the declared fields validate alike |
| `Schemas.EventRoundTrip` | schemas.py:34-42 | every event passes validation of its own stored form unchanged |
| `Schemas.CourseRoundTrip` | schemas.py:45-53 | every course within the ranges passes validation of its own stored form unchanged |
| `Schemas.TimetableRoundTrip` | schemas.py:56-66 | every slot within the year range passes validation of its own stored form unchanged |
| `Schemas.CourseYearWindow` | schemas.py:50 | an otherwise valid course is accepted exactly when 2000 <= year <= 2100, so both ends are accepted |
| `Schemas.TimetableYearWindow` | schemas.py:59 | an otherwise valid slot is accepted exactly when 2000 <= year <= 2100 |
| `Schemas.CourseYearRejected` | schemas.py:50 | a missing, non-integer or out-of-range course year is rejected and reported as `year` |
| `Schemas.TimetableYearRejected` | schemas.py:59 | a missing, non-integer or out-of-range slot year is rejected and reported as `year` |
| `Schemas.CreditsChecked` | schemas.py:52 | absent credits become 3; integer credits outside [0, 30] are rejected and reported |
| `Schemas.EnumsChecked` | schemas.py:19-31 | a semester outside the three names, or a day outside Monday to Saturday (Sunday included), is rejected and reported |
| `Schemas.RequiredFieldsChecked` | schemas.py:34-66 | a body missing a required field (event: title, date; course: code, title, semester, year; slot: semester, year, day, start_time, end_time, course_code) is rejected naming that field |
| `Schemas.EventOptionalDefaults` | schemas.py:37-42 | an omitted optional event field reads as None |
| `Schemas.EventMinimal` | schemas.py:36-38 | a body with only title and date is a valid event with every optional field None |
| `Serialization.SerializeDoc` | main.py:25-38 | the copy-rename-rewrite loop computes exactly the specified serialised document |
| `Serialization.Serialized` | main.py:25-38 | the serialised document never holds `_id`, and it is empty exactly when the document is |
| `Serialization.SerializedEmpty` | main.py:26-27 | an empty document is returned as it is |
| `Serialization.SerializedRenamesId` | main.py:29-30 | `_id` is removed and `id` holds its string form, which for an ObjectId is its 24-digit text |
| `Serialization.SerializedKeys` | main.py:29-37 | the key set is preserved apart from the `_id` to `id` rename |
| `Serialization.SerializedValues` | main.py:32-37 | every other entry keeps its key; a date-like value becomes its ISO text and any other value is unchanged |
| `Serialization.SerializedHasNoDates` | main.py:32-35 | no date-like value remains after serialisation |
| `Serialization.SerializedIdempotent` | main.py:25-38 | serialising a serialised document changes nothing |
| `Updates.EventDump` | main.py:91-98 | an event update's dump has exactly the seven event fields |
| `Updates.CourseDump` | main.py:101-108 | a course update's dump has exactly the seven course fields |
| `Updates.TimetableDump` | main.py:111-120 | a slot update's dump has exactly the nine slot fields |
| `Updates.EventUpdateErrorsAt` | main.py:91-98 | each event update field is reported exactly when it is present, not null and not a string |
| `Updates.CourseUpdateErrorsAt` | main.py:101-108 | each course update field is reported exactly when it is present, not null and not of its declared type (integer for year and credits) |
| `Updates.TimetableUpdateErrorsAt` | main.py:111-120 | each slot update field is reported exactly when it is present, not null and not of its declared type (integer for year) |
| `Updates.ParseEventUpdate` | main.py:91-98 | decoding an event update body fails only with a non-empty set of event fields |
| `Updates.ParseCourseUpdate` | main.py:101-108 | decoding a course update body fails only with a non-empty set of course fields |
| `Updates.ParseTimetableUpdate` | main.py:111-120 | decoding a slot update body fails only with a non-empty set of slot fields |
| `Updates.EventUpdateDecoded` | main.py:91-98 | a decoded event update dumps each field as supplied, None where omitted or null |
| `Updates.CourseUpdateDecoded` | main.py:101-108 | a decoded course update dumps each field as supplied, None where omitted or null |
| `Updates.TimetableUpdateDecoded` | main.py:111-120 | a decoded slot update dumps each field as supplied, None where omitted or null |
| `Updates.UpdateBody` | main.py:142 | an update body is accepted exactly when every declared field is absent, null or of its type; a rejection names exactly the badly typed fields; the dump holds each declared field's supplied value |
| `Updates.UpdateData` | main.py:148 | `update_data` holds exactly the dumped fields whose value is not None, with those values |
| `Updates.UpdateDataOfBody` | main.py:148 | the `$set` of a decoded body is exactly its declared, non-null fields |
| `Updates.Applied` | main.py:151-152 | after `$set` with the stamp, the document has its old keys, the set keys and `updated_at`, which holds the stamp |
| `Updates.AppliedFields` | main.py:151-152 | after `$set`, supplied fields hold the supplied values, `updated_at` holds the stamp, and every other field keeps its old value |
| `Updates.AppliedTwice` | main.py:151-152 | applying the same update twice equals applying it once at the later time |
| `Updates.DumpAvoidsReservedKeys` | main.py:91-120 | update data never contains `_id` or `updated_at` |
| `Updates.EmptyEventUpdate` | main.py:148-150 | an event update has nothing to set exactly when every field was omitted |
| `Updates.EmptyCourseUpdate` | main.py:202-204 | a course update has nothing to set exactly when every field was omitted |
| `Updates.EmptyTimetableUpdate` | main.py:260-262 | a slot update has nothing to set exactly when every field was omitted |
| `Updates.OnlyLocation` | main.py:148 | a body supplying only `location` sets only `location` |
| `Updates.UpdateSkipsCreateRules` | main.py:101-108 | an update with year 1999 stores 1999, and the updated course no longer passes create validation |
| `Queries.CourseQuery` | main.py:178-182 | the course query has `semester` exactly when it was given non-empty, `year` exactly when it was given (0 included), and no other key |
| `Queries.TimetableQuery` | main.py:232-238 | the same for the slot query, with `day` entering only when non-empty |
| `Queries.CourseFilterSelects` | main.py:178-183 | a course matches the query exactly when it agrees with every supplied argument |
| `Queries.TimetableFilterSelects` | main.py:232-239 | a slot matches the query exactly when it agrees with every supplied argument |
| `Queries.NoArgumentsNoFilter` | main.py:232-238 | with no argument given, or only empty strings, the query is empty |
| `Queries.Matches` | main.py:183 | a document matches a filter only when it has every filter key; every document matches the empty filter |
| `Queries.Cap` | main.py:183 | no limit, or 0, puts no cap on a find; any other limit caps it at its absolute value |
| `Queries.Answers` | main.py:183 | every identifier a find answers with is one of the matching documents |
| `Queries.AnswersCount` | main.py:183 | a find returns as many documents as match, up to the cap |
| `Queries.AnswersEverything` | main.py:129 | an empty query with no limit returns every document of the collection |
| `Handlers.LookupById` | main.py:152-153 | in a store where every document sits under its own `_id`, matching on `_id` is a key lookup |
| `Handlers.Status` | main.py:41-169 | 200 exactly for success, 422 exactly for a body that failed validation, and every code lies in [200, 500] |
| `Handlers.CreateOutcome` | main.py:133-138 | create gives 422 exactly for an invalid body and succeeds exactly for a valid one with a database; a failure changes nothing, a success adds exactly the new key, holding its `_id` |
| `Handlers.UpdateOutcome` | main.py:141-156 | update succeeds exactly with a database, a well-formed identifier, something to set and a matching document; a failure changes nothing, a success keeps the key set |
| `Handlers.UpdateRequestOutcome` | main.py:141-156 | an update request gives 422 exactly when its body fails to decode, naming exactly the badly typed fields; a failure changes nothing |
| `Handlers.DeleteOutcome` | main.py:159-169 | delete succeeds exactly with a database, a well-formed identifier and a matching document; a failure changes nothing, a success removes exactly that key |
| `Handlers.KeyedReachable` | main.py:144-147 | the text of every stored key is well formed and parses back to that key |
| `Handlers.UpdateBodyFirst` | main.py:141-143 | a badly typed update field gives 422 naming it, whatever the database and the identifier, and nothing changes |
| `Handlers.UpdateBodyDecoded` | main.py:142-148 | a well-typed update body reaches the handler with exactly its declared, non-null fields to set |
| `Handlers.UnavailableFirst` | main.py:41-43 | without a database, every delete, and every create or update whose body passed validation, gives 500 and changes nothing |
| `Handlers.MalformedIdRejected` | main.py:144-147 | a malformed identifier gives 400 for update and delete, with the collection unchanged |
| `Handlers.EmptyUpdateRejected` | main.py:148-150 | an update whose fields are all None gives 400 "No fields to update", with the collection unchanged |
| `Handlers.MissingIdNotFound` | main.py:152-154 | an identifier with no document gives 404 for update and delete, with the collection unchanged |
| `Handlers.UpdateChangesOnlySupplied` | main.py:151-156 | a successful update changes only the addressed document, and in it only the supplied fields and `updated_at`; the response is that document, serialised |
| `Handlers.DeleteRemovesExactly` | main.py:166-169 | a successful delete returns success and removes exactly the addressed document |
| `Handlers.CreateKeepsKeyed` | main.py:136 | create keeps every document under its own `_id` |
| `Handlers.UpdateKeepsKeyed` | main.py:152 | update keeps every document under its own `_id` |
| `Handlers.DeleteKeepsKeyed` | main.py:166 | delete keeps every document under its own `_id` |
| `Handlers.CreateStores` | main.py:133-138 | a create adds exactly one document holding the validated fields and its `_id`; the response's `id` is the identifier's text, which addresses it later |
| `Handlers.CreateThenList` | main.py:126-138 | after a create, an unfiltered and unlimited list returns the new document exactly once |
| `Handlers.OpenDayCreated` | main.py:133-138 | creating "Open Day" with a date stores the event with null optionals under the new key |
| `Handlers.OpenDayResponse` | main.py:25-38 | its serialised form has the identifier text as `id` and the date as ISO text |
| `Handlers.OpenDayUpdated` | main.py:141-156 | setting its location changes the location, keeps the title and touches no other document |
| `Handlers.OpenDayDeleted` | main.py:159-169 | deleting it gives back the collection from before the create |
| `Handlers.OpenDayScenario` | main.py:133-169 | create "Open Day", set its location, delete it: the steps give the expected responses and the collection ends as it began |
| `Service.Store.Find` | main.py:129 | the find returns distinct matching documents of the collection, no more than the cap, and every match when the cap is not reached |
| `Service.Store.List` | main.py:183-184 | a list is 500 without a database; otherwise it returns the find's documents, each serialised |
| `Service.Store.ListEvents` | main.py:126-130 | the event list uses the empty query |
| `Service.Store.ListCourses` | main.py:175-184 | the course list uses the query its arguments determine |
| `Service.Store.ListTimetable` | main.py:229-242 | the slot list uses the query its arguments determine |
| `Service.Store.Create` | main.py:133-138 | create validates, checks the database, inserts, reads back and serialises, as `CreateOutcome` says; the other collections are unchanged |
| `Service.Store.CreateEvent` | main.py:133-138 | `create_event` is create on the event collection |
| `Service.Store.CreateCourse` | main.py:187-192 | `create_course` is create on the course collection |
| `Service.Store.CreateTimetable` | main.py:245-250 | `create_timetable` is create on the timetable collection |
| `Service.Store.Update` | main.py:141-156 | update follows `UpdateOutcome`; the other collections are unchanged |
| `Service.Store.UpdateEvent` | main.py:141-156 | `update_event` decodes the body first (422 naming the badly typed fields, nothing else checked), then is update with the decoded payload's dump |
| `Service.Store.UpdateCourse` | main.py:195-210 | `update_course` decodes the body first (422 naming the badly typed fields, nothing else checked), then is update with the decoded payload's dump |
| `Service.Store.UpdateTimetable` | main.py:253-268 | `update_timetable` decodes the body first (422 naming the badly typed fields, nothing else checked), then is update with the decoded payload's dump |
| `Service.Store.Delete` | main.py:159-169 | delete follows `DeleteOutcome`; the other collections are unchanged |
| `Service.Store.DeleteEvent` | main.py:159-169 | `delete_event` is delete on the event collection |
| `Service.Store.DeleteCourse` | main.py:213-223 | `delete_course` is delete on the course collection |
| `Service.Store.DeleteTimetable` | main.py:271-281 | `delete_timetable` is delete on the timetable collection |

## Left out

- The FastAPI app, the CORS middleware and the uvicorn start-up (main.py:11-19, 284-287). These are web-framework plumbing.
- The liveness route `/` (main.py:49-51). It returns a constant message.
- The `/test` diagnostic (main.py:54-73). It is environment lookups, a live collection listing and status strings, all I/O.
- The `/schema` route (main.py:79-85). Its JSON Schema comes from a pydantic library call.
- `database.py` is not part of this model. The model inserts exactly the validated fields under the generated identifier. Any timestamps `create_document` adds are not modelled. A find's natural insertion order is not modelled: `Store.Find` visits documents in an unspecified order.
- Generating identifiers is the driver's job. `newId` is a parameter, required fresh and canonical.
- Leading or embedded whitespace that `bytes.fromhex` might tolerate inside a 24-character identifier is not modelled.
- The server-clock round trip `db.command("isMaster")` (main.py:151) becomes the parameter `now`. A reply with no `localTime` is not modelled.
- Pydantic's lax-mode coercions (numeric strings to integers and the like), JSON decoding and ISO-8601 date parsing are not modelled. A create body presents its date as a `Date` value. Error reports carry only the failing field names.
- `Serialization.StrOf`: the `str()` of a date-valued `_id` is modelled as its ISO text. Python's `str` of a datetime uses a space separator. Documents the store creates always have an ObjectId there.
- The `try`/`except` around `isoformat()` (main.py:33-37) is not modelled: date values do not raise.
- Concurrency, per-document atomicity, and a read-back that finds nothing because of a concurrent delete are not modelled.
- MongoDB matching beyond plain values is not modelled: array fields, and equality between numeric types.
- `serialize_doc` works on a copy. In Dafny a map is a value, so the caller's document cannot change. No separate lemma states this.
- A request with no body, or with a body that is not a JSON object, also gets FastAPI's 422. The model's bodies are always records, so that case is not modelled.
- The list routes take their query-string arguments already decoded. A `year=abc` or `limit=abc` gets FastAPI's 422 before `ensure_db_available()` runs (main.py:176, 230), and that case is not modelled.
- `connected` stands only for `db is None`. A store call that raises while `db` is set, for example because the server is unreachable, gives a 500 from FastAPI, and that is not modelled.
- `Queries.Cap`: treating a limit of 0 as no limit and a negative limit as its absolute value is pymongo's `cursor.limit` rule. The model assumes `get_documents` in `database.py` applies it. main.py:183 only passes `limit` through.
