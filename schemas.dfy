/** The create-time schemas: the three entities, their two enumerations, and
    the validation a create request's body goes through before its handler
    runs (field presence, types, defaults, ranges, enumeration sets). */
module Schemas {
  import opened Options
  import opened Values

  /** The three collections; each entity is stored in the collection named
      after its lower-cased class name. */
  datatype Kind = EventKind | CourseKind | TimetableKind

  function CollectionName(k: Kind): string {
    match k
    case EventKind => "event"
    case CourseKind => "course"
    case TimetableKind => "timetable"
  }

  // ---------------------------------------------------------------- enums

  datatype Semester = Fall | Spring | Summer

  function SemesterName(s: Semester): string {
    match s
    case Fall => "Fall"
    case Spring => "Spring"
    case Summer => "Summer"
  }

  /** The enum lookup `Semester(t)`: only the three literal names are members. */
  function ParseSemester(t: string): (r: Option<Semester>)
    ensures r.Some? <==> (t == "Fall" || t == "Spring" || t == "Summer")
    ensures r.Some? ==> SemesterName(r.value) == t
  {
    if t == "Fall" then Some(Fall)
    else if t == "Spring" then Some(Spring)
    else if t == "Summer" then Some(Summer)
    else None
  }

  lemma SemesterRoundTrip(s: Semester)
    ensures ParseSemester(SemesterName(s)) == Some(s)
  {
  }

  datatype DayOfWeek = Monday | Tuesday | Wednesday | Thursday | Friday | Saturday

  function DayName(d: DayOfWeek): string {
    match d
    case Monday => "Monday"
    case Tuesday => "Tuesday"
    case Wednesday => "Wednesday"
    case Thursday => "Thursday"
    case Friday => "Friday"
    case Saturday => "Saturday"
  }

  /** The enum lookup `DayOfWeek(t)`: Monday through Saturday, nothing else. */
  function ParseDay(t: string): (r: Option<DayOfWeek>)
    ensures r.Some? <==> (t == "Monday" || t == "Tuesday" || t == "Wednesday"
                          || t == "Thursday" || t == "Friday" || t == "Saturday")
    ensures r.Some? ==> DayName(r.value) == t
  {
    if t == "Monday" then Some(Monday)
    else if t == "Tuesday" then Some(Tuesday)
    else if t == "Wednesday" then Some(Wednesday)
    else if t == "Thursday" then Some(Thursday)
    else if t == "Friday" then Some(Friday)
    else if t == "Saturday" then Some(Saturday)
    else None
  }

  lemma DayRoundTrip(d: DayOfWeek)
    ensures ParseDay(DayName(d)) == Some(d)
  {
  }

  // ------------------------------------------------------------- entities

  datatype Event = Event(
    title: string,
    description: Option<string>,
    date: Moment,
    time: Option<string>,
    location: Option<string>,
    audience: Option<string>,
    link: Option<string>)

  datatype Course = Course(
    code: string,
    title: string,
    semester: Semester,
    year: int,
    lecturer: Option<string>,
    credits: Option<int>,
    description: Option<string>)

  datatype Timetable = Timetable(
    semester: Semester,
    year: int,
    day: DayOfWeek,
    startTime: string,
    endTime: string,
    courseCode: string,
    venue: Option<string>,
    lecturer: Option<string>,
    notes: Option<string>)

  const MinYear: int := 2000
  const MaxYear: int := 2100
  const MinCredits: int := 0
  const MaxCredits: int := 30
  const DefaultCredits: int := 3

  predicate ValidYear(y: int) {
    MinYear <= y <= MaxYear
  }

  predicate ValidCredits(c: int) {
    MinCredits <= c <= MaxCredits
  }

  /** The range constraints of `Course`; a null `credits` is allowed. */
  predicate ValidCourse(c: Course) {
    ValidYear(c.year) && (c.credits.Some? ==> ValidCredits(c.credits.value))
  }

  predicate ValidTimetable(t: Timetable) {
    ValidYear(t.year)
  }

  const EventFields: set<string> :=
    {"title", "description", "date", "time", "location", "audience", "link"}
  const CourseFields: set<string> :=
    {"code", "title", "semester", "year", "lecturer", "credits", "description"}
  const TimetableFields: set<string> :=
    {"semester", "year", "day", "start_time", "end_time", "course_code", "venue", "lecturer", "notes"}

  function Fields(k: Kind): set<string> {
    match k
    case EventKind => EventFields
    case CourseKind => CourseFields
    case TimetableKind => TimetableFields
  }

  /** No schema declares the identifier field or the update stamp. */
  lemma ReservedKeysUndeclared(k: Kind)
    ensures IdKey !in Fields(k) && UpdatedAtKey !in Fields(k)
  {
    match k
    case EventKind =>
    case CourseKind =>
    case TimetableKind =>
  }

  // ------------------------------------------------ entity -> stored fields

  function Text(o: Option<string>): Value {
    if o.Some? then Str(o.value) else Null
  }

  function Number(o: Option<int>): Value {
    if o.Some? then Int(o.value) else Null
  }

  /** `model_dump()` of an event: every field, a missing optional one as null. */
  function EventRecord(e: Event): (r: Record)
    ensures r.Keys == EventFields
  {
    map["title" := Str(e.title), "description" := Text(e.description), "date" := Date(e.date),
        "time" := Text(e.time), "location" := Text(e.location), "audience" := Text(e.audience),
        "link" := Text(e.link)]
  }

  function CourseRecord(c: Course): (r: Record)
    ensures r.Keys == CourseFields
  {
    map["code" := Str(c.code), "title" := Str(c.title), "semester" := Str(SemesterName(c.semester)),
        "year" := Int(c.year), "lecturer" := Text(c.lecturer), "credits" := Number(c.credits),
        "description" := Text(c.description)]
  }

  function TimetableRecord(t: Timetable): (r: Record)
    ensures r.Keys == TimetableFields
  {
    map["semester" := Str(SemesterName(t.semester)), "year" := Int(t.year), "day" := Str(DayName(t.day)),
        "start_time" := Str(t.startTime), "end_time" := Str(t.endTime), "course_code" := Str(t.courseCode),
        "venue" := Text(t.venue), "lecturer" := Text(t.lecturer), "notes" := Text(t.notes)]
  }

  // ------------------------------------------------------- field decoders
  // Each decoder returns None when the field fails validation.

  function RequiredText(p: Record, f: string): Option<string> {
    if f in p && p[f].Str? then Some(p[f].text) else None
  }

  /** An `Optional[str]` field defaulting to None: absent or null gives None. */
  function OptionalText(p: Record, f: string): Option<Option<string>> {
    if f !in p || p[f].Null? then Some(None)
    else if p[f].Str? then Some(Some(p[f].text))
    else None
  }

  function RequiredDate(p: Record, f: string): Option<Moment> {
    if f in p && p[f].Date? then Some(p[f].moment) else None
  }

  function RequiredYear(p: Record, f: string): Option<int> {
    if f in p && p[f].Int? && ValidYear(p[f].num) then Some(p[f].num) else None
  }

  function RequiredSemester(p: Record, f: string): Option<Semester> {
    if f in p && p[f].Str? then ParseSemester(p[f].text) else None
  }

  function RequiredDay(p: Record, f: string): Option<DayOfWeek> {
    if f in p && p[f].Str? then ParseDay(p[f].text) else None
  }

  /** `credits: Optional[int] = Field(3, ge=0, le=30)`: absent gives 3, null
      gives None, an integer must lie in the range. */
  function OptionalCredits(p: Record, f: string): Option<Option<int>> {
    if f !in p then Some(Some(DefaultCredits))
    else if p[f].Null? then Some(None)
    else if p[f].Int? && ValidCredits(p[f].num) then Some(Some(p[f].num))
    else None
  }

  /** Whether field `f` of a create body for collection `k` passes the check
      its declaration in the schema asks for, taken one field at a time. */
  predicate FieldOk(k: Kind, p: Record, f: string) {
    match k
    case EventKind =>
      if f == "title" then RequiredText(p, f).Some?
      else if f == "date" then RequiredDate(p, f).Some?
      else OptionalText(p, f).Some?
    case CourseKind =>
      if f == "code" || f == "title" then RequiredText(p, f).Some?
      else if f == "semester" then RequiredSemester(p, f).Some?
      else if f == "year" then RequiredYear(p, f).Some?
      else if f == "credits" then OptionalCredits(p, f).Some?
      else OptionalText(p, f).Some?
    case TimetableKind =>
      if f == "semester" then RequiredSemester(p, f).Some?
      else if f == "year" then RequiredYear(p, f).Some?
      else if f == "day" then RequiredDay(p, f).Some?
      else if f == "start_time" || f == "end_time" || f == "course_code" then RequiredText(p, f).Some?
      else OptionalText(p, f).Some?
  }

  /** The value stored for a declared field the body leaves out. */
  function Default(k: Kind, f: string): Value {
    if k == CourseKind && f == "credits" then Int(DefaultCredits) else Null
  }

  /** The outcome of validating a request body: the entity, or the set of
      fields that failed. */
  datatype Checked<T> = Accepted(value: T) | Rejected(fields: set<string>)

  // ------------------------------------------------------------- parsers

  /** The fields of an event body that fail their checks. */
  function EventErrors(p: Record): set<string> {
    set f | f in EventFields && !FieldOk(EventKind, p, f)
  }

  /** Each declared field of an event body is reported exactly when its own
      decoder fails. */
  lemma EventErrorsAt(p: Record)
    ensures "title" in EventErrors(p) <==> RequiredText(p, "title").None?
    ensures "description" in EventErrors(p) <==> OptionalText(p, "description").None?
    ensures "date" in EventErrors(p) <==> RequiredDate(p, "date").None?
    ensures "time" in EventErrors(p) <==> OptionalText(p, "time").None?
    ensures "location" in EventErrors(p) <==> OptionalText(p, "location").None?
    ensures "audience" in EventErrors(p) <==> OptionalText(p, "audience").None?
    ensures "link" in EventErrors(p) <==> OptionalText(p, "link").None?
  {
    assert FieldOk(EventKind, p, "title") == RequiredText(p, "title").Some?;
    assert FieldOk(EventKind, p, "description") == OptionalText(p, "description").Some?;
    assert FieldOk(EventKind, p, "date") == RequiredDate(p, "date").Some?;
    assert FieldOk(EventKind, p, "time") == OptionalText(p, "time").Some?;
    assert FieldOk(EventKind, p, "location") == OptionalText(p, "location").Some?;
    assert FieldOk(EventKind, p, "audience") == OptionalText(p, "audience").Some?;
    assert FieldOk(EventKind, p, "link") == OptionalText(p, "link").Some?;
  }

  function ParseEvent(p: Record): (r: Checked<Event>)
    ensures r.Accepted? ==> forall f :: f in p && f in EventFields ==> EventRecord(r.value)[f] == p[f]
    ensures r.Rejected? ==> r.fields != {} && r.fields <= EventFields
  {
    if RequiredText(p, "title").Some? && OptionalText(p, "description").Some? && RequiredDate(p, "date").Some?
       && OptionalText(p, "time").Some? && OptionalText(p, "location").Some?
       && OptionalText(p, "audience").Some? && OptionalText(p, "link").Some?
    then
      Accepted(Event(RequiredText(p, "title").value, OptionalText(p, "description").value,
                     RequiredDate(p, "date").value, OptionalText(p, "time").value,
                     OptionalText(p, "location").value, OptionalText(p, "audience").value,
                     OptionalText(p, "link").value))
    else
      EventErrorsAt(p);
      Rejected(EventErrors(p))
  }

  /** The fields of a course body that fail their checks. */
  function CourseErrors(p: Record): set<string> {
    set f | f in CourseFields && !FieldOk(CourseKind, p, f)
  }

  /** Each declared field of a course body is reported exactly when its own
      decoder fails. */
  lemma CourseErrorsAt(p: Record)
    ensures "code" in CourseErrors(p) <==> RequiredText(p, "code").None?
    ensures "title" in CourseErrors(p) <==> RequiredText(p, "title").None?
    ensures "semester" in CourseErrors(p) <==> RequiredSemester(p, "semester").None?
    ensures "year" in CourseErrors(p) <==> RequiredYear(p, "year").None?
    ensures "lecturer" in CourseErrors(p) <==> OptionalText(p, "lecturer").None?
    ensures "credits" in CourseErrors(p) <==> OptionalCredits(p, "credits").None?
    ensures "description" in CourseErrors(p) <==> OptionalText(p, "description").None?
  {
    assert FieldOk(CourseKind, p, "code") == RequiredText(p, "code").Some?;
    assert FieldOk(CourseKind, p, "title") == RequiredText(p, "title").Some?;
    assert FieldOk(CourseKind, p, "semester") == RequiredSemester(p, "semester").Some?;
    assert FieldOk(CourseKind, p, "year") == RequiredYear(p, "year").Some?;
    assert FieldOk(CourseKind, p, "lecturer") == OptionalText(p, "lecturer").Some?;
    assert FieldOk(CourseKind, p, "credits") == OptionalCredits(p, "credits").Some?;
    assert FieldOk(CourseKind, p, "description") == OptionalText(p, "description").Some?;
  }

  function ParseCourse(p: Record): (r: Checked<Course>)
    ensures r.Accepted? ==> ValidCourse(r.value)
    ensures r.Accepted? ==> forall f :: f in p && f in CourseFields ==> CourseRecord(r.value)[f] == p[f]
    ensures r.Accepted? && "credits" !in p ==> r.value.credits == Some(DefaultCredits)
    ensures r.Rejected? ==> r.fields != {} && r.fields <= CourseFields
  {
    if RequiredText(p, "code").Some? && RequiredText(p, "title").Some? && RequiredSemester(p, "semester").Some?
       && RequiredYear(p, "year").Some? && OptionalText(p, "lecturer").Some?
       && OptionalCredits(p, "credits").Some? && OptionalText(p, "description").Some?
    then
      Accepted(Course(RequiredText(p, "code").value, RequiredText(p, "title").value,
                      RequiredSemester(p, "semester").value, RequiredYear(p, "year").value,
                      OptionalText(p, "lecturer").value, OptionalCredits(p, "credits").value,
                      OptionalText(p, "description").value))
    else
      CourseErrorsAt(p);
      Rejected(CourseErrors(p))
  }

  /** The fields of a timetable body that fail their checks. */
  function TimetableErrors(p: Record): set<string> {
    set f | f in TimetableFields && !FieldOk(TimetableKind, p, f)
  }

  /** Each declared field of a timetable body is reported exactly when its own
      decoder fails. */
  lemma TimetableErrorsAt(p: Record)
    ensures "semester" in TimetableErrors(p) <==> RequiredSemester(p, "semester").None?
    ensures "year" in TimetableErrors(p) <==> RequiredYear(p, "year").None?
    ensures "day" in TimetableErrors(p) <==> RequiredDay(p, "day").None?
    ensures "start_time" in TimetableErrors(p) <==> RequiredText(p, "start_time").None?
    ensures "end_time" in TimetableErrors(p) <==> RequiredText(p, "end_time").None?
    ensures "course_code" in TimetableErrors(p) <==> RequiredText(p, "course_code").None?
    ensures "venue" in TimetableErrors(p) <==> OptionalText(p, "venue").None?
    ensures "lecturer" in TimetableErrors(p) <==> OptionalText(p, "lecturer").None?
    ensures "notes" in TimetableErrors(p) <==> OptionalText(p, "notes").None?
  {
    assert FieldOk(TimetableKind, p, "semester") == RequiredSemester(p, "semester").Some?;
    assert FieldOk(TimetableKind, p, "year") == RequiredYear(p, "year").Some?;
    assert FieldOk(TimetableKind, p, "day") == RequiredDay(p, "day").Some?;
    assert FieldOk(TimetableKind, p, "start_time") == RequiredText(p, "start_time").Some?;
    assert FieldOk(TimetableKind, p, "end_time") == RequiredText(p, "end_time").Some?;
    assert FieldOk(TimetableKind, p, "course_code") == RequiredText(p, "course_code").Some?;
    assert FieldOk(TimetableKind, p, "venue") == OptionalText(p, "venue").Some?;
    assert FieldOk(TimetableKind, p, "lecturer") == OptionalText(p, "lecturer").Some?;
    assert FieldOk(TimetableKind, p, "notes") == OptionalText(p, "notes").Some?;
  }

  function ParseTimetable(p: Record): (r: Checked<Timetable>)
    ensures r.Accepted? ==> ValidTimetable(r.value)
    ensures r.Accepted? ==> forall f :: f in p && f in TimetableFields ==> TimetableRecord(r.value)[f] == p[f]
    ensures r.Rejected? ==> r.fields != {} && r.fields <= TimetableFields
  {
    if RequiredSemester(p, "semester").Some? && RequiredYear(p, "year").Some? && RequiredDay(p, "day").Some?
       && RequiredText(p, "start_time").Some? && RequiredText(p, "end_time").Some?
       && RequiredText(p, "course_code").Some? && OptionalText(p, "venue").Some?
       && OptionalText(p, "lecturer").Some? && OptionalText(p, "notes").Some?
    then
      Accepted(Timetable(RequiredSemester(p, "semester").value, RequiredYear(p, "year").value,
                         RequiredDay(p, "day").value, RequiredText(p, "start_time").value,
                         RequiredText(p, "end_time").value, RequiredText(p, "course_code").value,
                         OptionalText(p, "venue").value, OptionalText(p, "lecturer").value,
                         OptionalText(p, "notes").value))
    else
      TimetableErrorsAt(p);
      Rejected(TimetableErrors(p))
  }

  /** Validation of a create body for collection `k`, giving the fields that
      will be inserted. */
  function Validate(k: Kind, p: Record): (r: Checked<Record>)
    ensures r.Accepted? <==> forall f :: f in Fields(k) ==> FieldOk(k, p, f)
    ensures r.Accepted? ==> r.value.Keys == Fields(k)
    ensures r.Accepted? ==> forall f :: f in Fields(k) ==> r.value[f] == if f in p then p[f] else Default(k, f)
    ensures r.Rejected? ==> r.fields != {} && forall f :: f in r.fields <==> f in Fields(k) && !FieldOk(k, p, f)
  {
    match k
    case EventKind =>
      EventFieldsChecked(p);
      (match ParseEvent(p) case Accepted(e) => Accepted(EventRecord(e)) case Rejected(fs) => Rejected(fs))
    case CourseKind =>
      CourseFieldsChecked(p);
      (match ParseCourse(p) case Accepted(c) => Accepted(CourseRecord(c)) case Rejected(fs) => Rejected(fs))
    case TimetableKind =>
      TimetableFieldsChecked(p);
      (match ParseTimetable(p) case Accepted(t) => Accepted(TimetableRecord(t)) case Rejected(fs) => Rejected(fs))
  }

  // -------------------------------------------------------------- lemmas

  /** An event body is accepted exactly when every declared field passes its
      own check; a rejection names exactly the fields that fail; an accepted
      body's stored form holds the supplied value of each declared field and
      the default of each omitted one. Keys outside the schema play no part. */
  lemma EventFieldsChecked(p: Record)
    ensures ParseEvent(p).Accepted? <==> forall f :: f in EventFields ==> FieldOk(EventKind, p, f)
    ensures ParseEvent(p).Rejected? ==>
              forall f :: f in ParseEvent(p).fields <==> f in EventFields && !FieldOk(EventKind, p, f)
    ensures ParseEvent(p).Accepted? ==> forall f :: f in EventFields ==>
              EventRecord(ParseEvent(p).value)[f] == if f in p then p[f] else Default(EventKind, f)
  {
    var r := ParseEvent(p);
    forall f | f in EventFields
      ensures FieldOk(EventKind, p, f) == (f !in EventErrors(p))
    {
    }
    if r.Rejected? {
      forall f
        ensures f in r.fields <==> f in EventFields && !FieldOk(EventKind, p, f)
      {
        if f !in EventFields {
          assert f !in EventErrors(p);
        }
      }
    }
  }

  lemma CourseFieldsChecked(p: Record)
    ensures ParseCourse(p).Accepted? <==> forall f :: f in CourseFields ==> FieldOk(CourseKind, p, f)
    ensures ParseCourse(p).Rejected? ==>
              forall f :: f in ParseCourse(p).fields <==> f in CourseFields && !FieldOk(CourseKind, p, f)
    ensures ParseCourse(p).Accepted? ==> forall f :: f in CourseFields ==>
              CourseRecord(ParseCourse(p).value)[f] == if f in p then p[f] else Default(CourseKind, f)
  {
    var r := ParseCourse(p);
    forall f | f in CourseFields
      ensures FieldOk(CourseKind, p, f) == (f !in CourseErrors(p))
    {
    }
    if r.Rejected? {
      forall f
        ensures f in r.fields <==> f in CourseFields && !FieldOk(CourseKind, p, f)
      {
        if f !in CourseFields {
          assert f !in CourseErrors(p);
        }
      }
    }
  }

  lemma TimetableFieldsChecked(p: Record)
    ensures ParseTimetable(p).Accepted? <==> forall f :: f in TimetableFields ==> FieldOk(TimetableKind, p, f)
    ensures ParseTimetable(p).Rejected? ==>
              forall f :: f in ParseTimetable(p).fields <==> f in TimetableFields && !FieldOk(TimetableKind, p, f)
    ensures ParseTimetable(p).Accepted? ==> forall f :: f in TimetableFields ==>
              TimetableRecord(ParseTimetable(p).value)[f] == if f in p then p[f] else Default(TimetableKind, f)
  {
    var r := ParseTimetable(p);
    forall f | f in TimetableFields
      ensures FieldOk(TimetableKind, p, f) == (f !in TimetableErrors(p))
    {
    }
    if r.Accepted? {
      TimetableStored(p);
    }
    if r.Rejected? {
      forall f
        ensures f in r.fields <==> f in TimetableFields && !FieldOk(TimetableKind, p, f)
      {
        if f !in TimetableFields {
          assert f !in TimetableErrors(p);
        }
      }
    }
  }

  /** An accepted timetable body is stored with each declared field as
      supplied, and null for each optional one left out. */
  lemma TimetableStored(p: Record)
    requires ParseTimetable(p).Accepted?
    ensures forall f :: f in TimetableFields ==>
              TimetableRecord(ParseTimetable(p).value)[f] == if f in p then p[f] else Default(TimetableKind, f)
  {
    var stored := TimetableRecord(ParseTimetable(p).value);
    forall f | f in TimetableFields
      ensures stored[f] == if f in p then p[f] else Default(TimetableKind, f)
    {
      if f in {"semester", "year", "day", "start_time"} {
      } else if f in {"end_time", "course_code"} {
      } else {
        assert f in {"venue", "lecturer", "notes"};
      }
    }
  }

  /** Two bodies that agree on field `f` decode it alike. */
  lemma SameField(p: Record, q: Record, f: string)
    requires (f in p <==> f in q) && (f in p ==> p[f] == q[f])
    ensures RequiredText(p, f) == RequiredText(q, f) && OptionalText(p, f) == OptionalText(q, f)
    ensures RequiredDate(p, f) == RequiredDate(q, f) && RequiredYear(p, f) == RequiredYear(q, f)
    ensures RequiredSemester(p, f) == RequiredSemester(q, f) && RequiredDay(p, f) == RequiredDay(q, f)
    ensures OptionalCredits(p, f) == OptionalCredits(q, f)
  {
  }

  /** Keys outside the schema are ignored: two bodies that agree on every
      declared field validate alike. */
  lemma ExtraKeysIgnored(k: Kind, p: Record, q: Record)
    requires forall f :: f in Fields(k) ==> (f in p <==> f in q) && (f in p ==> p[f] == q[f])
    ensures Validate(k, p) == Validate(k, q)
  {
    forall f | f in Fields(k)
      ensures RequiredText(p, f) == RequiredText(q, f) && OptionalText(p, f) == OptionalText(q, f)
      ensures RequiredDate(p, f) == RequiredDate(q, f) && RequiredYear(p, f) == RequiredYear(q, f)
      ensures RequiredSemester(p, f) == RequiredSemester(q, f) && RequiredDay(p, f) == RequiredDay(q, f)
      ensures OptionalCredits(p, f) == OptionalCredits(q, f)
    {
      SameField(p, q, f);
    }
    match k
    case EventKind =>
      assert EventErrors(p) == EventErrors(q);
    case CourseKind =>
      assert CourseErrors(p) == CourseErrors(q);
    case TimetableKind =>
      assert TimetableErrors(p) == TimetableErrors(q);
  }

  /** Every valid entity passes validation of its own stored form unchanged. */
  lemma EventRoundTrip(e: Event)
    ensures ParseEvent(EventRecord(e)) == Accepted(e)
  {
  }

  lemma CourseRoundTrip(c: Course)
    requires ValidCourse(c)
    ensures ParseCourse(CourseRecord(c)) == Accepted(c)
  {
    SemesterRoundTrip(c.semester);
  }

  lemma TimetableRoundTrip(t: Timetable)
    requires ValidTimetable(t)
    ensures ParseTimetable(TimetableRecord(t)) == Accepted(t)
  {
    SemesterRoundTrip(t.semester);
    DayRoundTrip(t.day);
  }

  /** A course body that is otherwise valid is accepted exactly when its year
      lies in [2000, 2100]; both ends are accepted. */
  lemma CourseYearWindow(c: Course, y: int)
    requires ValidCourse(c)
    ensures ParseCourse(CourseRecord(c.(year := y))).Accepted? <==> 2000 <= y <= 2100
  {
    if ValidYear(y) {
      CourseRoundTrip(c.(year := y));
    }
  }

  lemma TimetableYearWindow(t: Timetable, y: int)
    requires ValidTimetable(t)
    ensures ParseTimetable(TimetableRecord(t.(year := y))).Accepted? <==> 2000 <= y <= 2100
  {
    if ValidYear(y) {
      TimetableRoundTrip(t.(year := y));
    }
  }

  /** A year that is missing, not an integer, or out of range is reported. */
  lemma CourseYearRejected(p: Record)
    requires "year" !in p || !p["year"].Int? || !ValidYear(p["year"].num)
    ensures ParseCourse(p).Rejected? && "year" in ParseCourse(p).fields
  {
  }

  lemma TimetableYearRejected(p: Record)
    requires "year" !in p || !p["year"].Int? || !ValidYear(p["year"].num)
    ensures ParseTimetable(p).Rejected? && "year" in ParseTimetable(p).fields
  {
  }

  /** `credits`: absent gives 3; an integer outside [0, 30] is reported. */
  lemma CreditsChecked(p: Record)
    ensures "credits" !in p && ParseCourse(p).Accepted? ==> ParseCourse(p).value.credits == Some(3)
    ensures "credits" in p && p["credits"].Int? && !(0 <= p["credits"].num <= 30) ==>
              ParseCourse(p).Rejected? && "credits" in ParseCourse(p).fields
  {
  }

  /** `semester` must be one of the three names, `day` one of Monday to
      Saturday; any other text (Sunday among them) is reported. */
  lemma EnumsChecked(p: Record)
    ensures "semester" in p && p["semester"].Str? && ParseSemester(p["semester"].text).None? ==>
              ParseCourse(p).Rejected? && "semester" in ParseCourse(p).fields
              && ParseTimetable(p).Rejected? && "semester" in ParseTimetable(p).fields
    ensures "day" in p && p["day"].Str? && ParseDay(p["day"].text).None? ==>
              ParseTimetable(p).Rejected? && "day" in ParseTimetable(p).fields
    ensures ParseDay("Sunday").None?
  {
  }

  /** Required fields: a body missing any of them is rejected naming it. */
  lemma RequiredFieldsChecked(p: Record, f: string)
    ensures f in {"title", "date"} && f !in p ==> ParseEvent(p).Rejected? && f in ParseEvent(p).fields
    ensures f in {"code", "title", "semester", "year"} && f !in p ==>
              ParseCourse(p).Rejected? && f in ParseCourse(p).fields
    ensures f in {"semester", "year", "day", "start_time", "end_time", "course_code"} && f !in p ==>
              ParseTimetable(p).Rejected? && f in ParseTimetable(p).fields
  {
  }

  /** Optional fields: leaving one out is never an error, and it reads as None. */
  lemma EventOptionalDefaults(p: Record)
    requires ParseEvent(p).Accepted?
    ensures var e := ParseEvent(p).value;
            ("description" !in p ==> e.description == None) && ("time" !in p ==> e.time == None)
            && ("location" !in p ==> e.location == None) && ("audience" !in p ==> e.audience == None)
            && ("link" !in p ==> e.link == None)
  {
  }

  /** A minimal event body, title and date alone, is accepted. */
  lemma EventMinimal(title: string, date: Moment)
    ensures ParseEvent(map["title" := Str(title), "date" := Date(date)])
            == Accepted(Event(title, None, date, None, None, None, None))
  {
  }
}
