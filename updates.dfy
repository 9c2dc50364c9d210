/** The partial-update bodies and the `$set` they become. Every field is a
    plain `Optional[str]` or `Optional[int]`: the update path checks types
    only, never the year and credits ranges or the enumeration sets. */
module Updates {
  import opened Options
  import opened Values
  import opened Schemas

  datatype EventUpdate = EventUpdate(
    title: Option<string>,
    description: Option<string>,
    date: Option<string>,
    time: Option<string>,
    location: Option<string>,
    audience: Option<string>,
    link: Option<string>)

  datatype CourseUpdate = CourseUpdate(
    code: Option<string>,
    title: Option<string>,
    semester: Option<string>,
    year: Option<int>,
    lecturer: Option<string>,
    credits: Option<int>,
    description: Option<string>)

  datatype TimetableUpdate = TimetableUpdate(
    semester: Option<string>,
    year: Option<int>,
    day: Option<string>,
    startTime: Option<string>,
    endTime: Option<string>,
    courseCode: Option<string>,
    venue: Option<string>,
    lecturer: Option<string>,
    notes: Option<string>)

  /** `payload.model_dump()`: every declared field, None where omitted. */
  type Dump = map<string, Option<Value>>

  function TextOf(o: Option<string>): Option<Value> {
    if o.Some? then Some(Str(o.value)) else None
  }

  function NumberOf(o: Option<int>): Option<Value> {
    if o.Some? then Some(Int(o.value)) else None
  }

  function EventDump(u: EventUpdate): (d: Dump)
    ensures d.Keys == EventFields
  {
    map["title" := TextOf(u.title), "description" := TextOf(u.description), "date" := TextOf(u.date),
        "time" := TextOf(u.time), "location" := TextOf(u.location), "audience" := TextOf(u.audience),
        "link" := TextOf(u.link)]
  }

  function CourseDump(u: CourseUpdate): (d: Dump)
    ensures d.Keys == CourseFields
  {
    map["code" := TextOf(u.code), "title" := TextOf(u.title), "semester" := TextOf(u.semester),
        "year" := NumberOf(u.year), "lecturer" := TextOf(u.lecturer), "credits" := NumberOf(u.credits),
        "description" := TextOf(u.description)]
  }

  function TimetableDump(u: TimetableUpdate): (d: Dump)
    ensures d.Keys == TimetableFields
  {
    map["semester" := TextOf(u.semester), "year" := NumberOf(u.year), "day" := TextOf(u.day),
        "start_time" := TextOf(u.startTime), "end_time" := TextOf(u.endTime),
        "course_code" := TextOf(u.courseCode), "venue" := TextOf(u.venue),
        "lecturer" := TextOf(u.lecturer), "notes" := TextOf(u.notes)]
  }

  // ---------------------------------------------------- decoding a body

  /** An `Optional[int]` field of an update body: absent or null gives None,
      an integer gives it, anything else fails. */
  function OptionalInt(p: Record, f: string): Option<Option<int>> {
    if f !in p || p[f].Null? then Some(None)
    else if p[f].Int? then Some(Some(p[f].num))
    else None
  }

  /** The update fields declared `Optional[int]`. */
  predicate IsNumberField(k: Kind, f: string) {
    (k != EventKind && f == "year") || (k == CourseKind && f == "credits")
  }

  /** Whether field `f` of an update body has the declared type (or is left
      out, or null). */
  predicate UpdateFieldOk(k: Kind, p: Record, f: string) {
    if IsNumberField(k, f) then OptionalInt(p, f).Some? else OptionalText(p, f).Some?
  }

  /** The declared fields of an update body that have the wrong type. */
  function UpdateErrors(k: Kind, p: Record): set<string> {
    set f | f in Fields(k) && !UpdateFieldOk(k, p, f)
  }

  /** What `model_dump()` holds for field `f` of a decoded update body: the
      supplied value, or None where the field was left out or null. */
  function Supplied(p: Record, f: string): Option<Value> {
    if f in p && !p[f].Null? then Some(p[f]) else None
  }

  lemma EventUpdateErrorsAt(p: Record)
    ensures "title" in UpdateErrors(EventKind, p) <==> OptionalText(p, "title").None?
    ensures "description" in UpdateErrors(EventKind, p) <==> OptionalText(p, "description").None?
    ensures "date" in UpdateErrors(EventKind, p) <==> OptionalText(p, "date").None?
    ensures "time" in UpdateErrors(EventKind, p) <==> OptionalText(p, "time").None?
    ensures "location" in UpdateErrors(EventKind, p) <==> OptionalText(p, "location").None?
    ensures "audience" in UpdateErrors(EventKind, p) <==> OptionalText(p, "audience").None?
    ensures "link" in UpdateErrors(EventKind, p) <==> OptionalText(p, "link").None?
  {
    assert UpdateFieldOk(EventKind, p, "title") == OptionalText(p, "title").Some?;
    assert UpdateFieldOk(EventKind, p, "description") == OptionalText(p, "description").Some?;
    assert UpdateFieldOk(EventKind, p, "date") == OptionalText(p, "date").Some?;
    assert UpdateFieldOk(EventKind, p, "time") == OptionalText(p, "time").Some?;
    assert UpdateFieldOk(EventKind, p, "location") == OptionalText(p, "location").Some?;
    assert UpdateFieldOk(EventKind, p, "audience") == OptionalText(p, "audience").Some?;
    assert UpdateFieldOk(EventKind, p, "link") == OptionalText(p, "link").Some?;
  }

  /** Decoding a request body into `EventUpdate`: every field must be
      absent, null or of its declared type. */
  function ParseEventUpdate(p: Record): (r: Checked<EventUpdate>)
    ensures r.Rejected? ==> r.fields != {} && r.fields <= EventFields
  {
    if OptionalText(p, "title").Some? && OptionalText(p, "description").Some? && OptionalText(p, "date").Some?
       && OptionalText(p, "time").Some? && OptionalText(p, "location").Some? && OptionalText(p, "audience").Some?
       && OptionalText(p, "link").Some?
    then
      Accepted(EventUpdate(OptionalText(p, "title").value, OptionalText(p, "description").value, OptionalText(p, "date").value, OptionalText(p, "time").value, OptionalText(p, "location").value, OptionalText(p, "audience").value, OptionalText(p, "link").value))
    else
      EventUpdateErrorsAt(p);
      Rejected(UpdateErrors(EventKind, p))
  }

  /** A decoded update body dumps to the body's own declared values. */
  lemma EventUpdateDecoded(p: Record)
    requires ParseEventUpdate(p).Accepted?
    ensures forall f :: f in EventFields ==> EventDump(ParseEventUpdate(p).value)[f] == Supplied(p, f)
  {
    var d := EventDump(ParseEventUpdate(p).value);
    forall f | f in EventFields
      ensures d[f] == Supplied(p, f)
    {
      if f in {"title", "description", "date"} {
      } else if f in {"time", "location", "audience"} {
      } else {
        assert f in {"link"};
      }
    }
  }

  lemma CourseUpdateErrorsAt(p: Record)
    ensures "code" in UpdateErrors(CourseKind, p) <==> OptionalText(p, "code").None?
    ensures "title" in UpdateErrors(CourseKind, p) <==> OptionalText(p, "title").None?
    ensures "semester" in UpdateErrors(CourseKind, p) <==> OptionalText(p, "semester").None?
    ensures "year" in UpdateErrors(CourseKind, p) <==> OptionalInt(p, "year").None?
    ensures "lecturer" in UpdateErrors(CourseKind, p) <==> OptionalText(p, "lecturer").None?
    ensures "credits" in UpdateErrors(CourseKind, p) <==> OptionalInt(p, "credits").None?
    ensures "description" in UpdateErrors(CourseKind, p) <==> OptionalText(p, "description").None?
  {
    assert UpdateFieldOk(CourseKind, p, "code") == OptionalText(p, "code").Some?;
    assert UpdateFieldOk(CourseKind, p, "title") == OptionalText(p, "title").Some?;
    assert UpdateFieldOk(CourseKind, p, "semester") == OptionalText(p, "semester").Some?;
    assert UpdateFieldOk(CourseKind, p, "year") == OptionalInt(p, "year").Some?;
    assert UpdateFieldOk(CourseKind, p, "lecturer") == OptionalText(p, "lecturer").Some?;
    assert UpdateFieldOk(CourseKind, p, "credits") == OptionalInt(p, "credits").Some?;
    assert UpdateFieldOk(CourseKind, p, "description") == OptionalText(p, "description").Some?;
  }

  /** Decoding a request body into `CourseUpdate`: every field must be
      absent, null or of its declared type. */
  function ParseCourseUpdate(p: Record): (r: Checked<CourseUpdate>)
    ensures r.Rejected? ==> r.fields != {} && r.fields <= CourseFields
  {
    if OptionalText(p, "code").Some? && OptionalText(p, "title").Some? && OptionalText(p, "semester").Some?
       && OptionalInt(p, "year").Some? && OptionalText(p, "lecturer").Some? && OptionalInt(p, "credits").Some?
       && OptionalText(p, "description").Some?
    then
      Accepted(CourseUpdate(OptionalText(p, "code").value, OptionalText(p, "title").value, OptionalText(p, "semester").value, OptionalInt(p, "year").value, OptionalText(p, "lecturer").value, OptionalInt(p, "credits").value, OptionalText(p, "description").value))
    else
      CourseUpdateErrorsAt(p);
      Rejected(UpdateErrors(CourseKind, p))
  }

  /** A decoded update body dumps to the body's own declared values. */
  lemma CourseUpdateDecoded(p: Record)
    requires ParseCourseUpdate(p).Accepted?
    ensures forall f :: f in CourseFields ==> CourseDump(ParseCourseUpdate(p).value)[f] == Supplied(p, f)
  {
    var d := CourseDump(ParseCourseUpdate(p).value);
    forall f | f in CourseFields
      ensures d[f] == Supplied(p, f)
    {
      if f in {"code", "title", "semester"} {
      } else if f in {"year", "lecturer", "credits"} {
      } else {
        assert f in {"description"};
      }
    }
  }

  lemma TimetableUpdateErrorsAt(p: Record)
    ensures "semester" in UpdateErrors(TimetableKind, p) <==> OptionalText(p, "semester").None?
    ensures "year" in UpdateErrors(TimetableKind, p) <==> OptionalInt(p, "year").None?
    ensures "day" in UpdateErrors(TimetableKind, p) <==> OptionalText(p, "day").None?
    ensures "start_time" in UpdateErrors(TimetableKind, p) <==> OptionalText(p, "start_time").None?
    ensures "end_time" in UpdateErrors(TimetableKind, p) <==> OptionalText(p, "end_time").None?
    ensures "course_code" in UpdateErrors(TimetableKind, p) <==> OptionalText(p, "course_code").None?
    ensures "venue" in UpdateErrors(TimetableKind, p) <==> OptionalText(p, "venue").None?
    ensures "lecturer" in UpdateErrors(TimetableKind, p) <==> OptionalText(p, "lecturer").None?
    ensures "notes" in UpdateErrors(TimetableKind, p) <==> OptionalText(p, "notes").None?
  {
    assert UpdateFieldOk(TimetableKind, p, "semester") == OptionalText(p, "semester").Some?;
    assert UpdateFieldOk(TimetableKind, p, "year") == OptionalInt(p, "year").Some?;
    assert UpdateFieldOk(TimetableKind, p, "day") == OptionalText(p, "day").Some?;
    assert UpdateFieldOk(TimetableKind, p, "start_time") == OptionalText(p, "start_time").Some?;
    assert UpdateFieldOk(TimetableKind, p, "end_time") == OptionalText(p, "end_time").Some?;
    assert UpdateFieldOk(TimetableKind, p, "course_code") == OptionalText(p, "course_code").Some?;
    assert UpdateFieldOk(TimetableKind, p, "venue") == OptionalText(p, "venue").Some?;
    assert UpdateFieldOk(TimetableKind, p, "lecturer") == OptionalText(p, "lecturer").Some?;
    assert UpdateFieldOk(TimetableKind, p, "notes") == OptionalText(p, "notes").Some?;
  }

  /** Decoding a request body into `TimetableUpdate`: every field must be
      absent, null or of its declared type. */
  function ParseTimetableUpdate(p: Record): (r: Checked<TimetableUpdate>)
    ensures r.Rejected? ==> r.fields != {} && r.fields <= TimetableFields
  {
    if OptionalText(p, "semester").Some? && OptionalInt(p, "year").Some? && OptionalText(p, "day").Some?
       && OptionalText(p, "start_time").Some? && OptionalText(p, "end_time").Some? && OptionalText(p, "course_code").Some?
       && OptionalText(p, "venue").Some? && OptionalText(p, "lecturer").Some? && OptionalText(p, "notes").Some?
    then
      Accepted(TimetableUpdate(OptionalText(p, "semester").value, OptionalInt(p, "year").value, OptionalText(p, "day").value, OptionalText(p, "start_time").value, OptionalText(p, "end_time").value, OptionalText(p, "course_code").value, OptionalText(p, "venue").value, OptionalText(p, "lecturer").value, OptionalText(p, "notes").value))
    else
      TimetableUpdateErrorsAt(p);
      Rejected(UpdateErrors(TimetableKind, p))
  }

  /** A decoded update body dumps to the body's own declared values. */
  lemma TimetableUpdateDecoded(p: Record)
    requires ParseTimetableUpdate(p).Accepted?
    ensures forall f :: f in TimetableFields ==> TimetableDump(ParseTimetableUpdate(p).value)[f] == Supplied(p, f)
  {
    var d := TimetableDump(ParseTimetableUpdate(p).value);
    forall f | f in TimetableFields
      ensures d[f] == Supplied(p, f)
    {
      if f in {"semester", "year", "day"} {
      } else if f in {"start_time", "end_time", "course_code"} {
      } else {
        assert f in {"venue", "lecturer", "notes"};
      }
    }
  }

  /** Decoding an update body for collection `k`: the body is accepted
      exactly when every declared field has its declared type, a rejection
      names exactly the fields that do not, and the dump of an accepted body
      holds each declared field's supplied value. */
  function UpdateBody(k: Kind, p: Record): (r: Checked<Dump>)
    ensures r.Accepted? <==> forall f :: f in Fields(k) ==> UpdateFieldOk(k, p, f)
    ensures r.Rejected? ==> r.fields != {} && forall f :: f in r.fields <==> f in Fields(k) && !UpdateFieldOk(k, p, f)
    ensures r.Accepted? ==> r.value.Keys == Fields(k) && forall f :: f in Fields(k) ==> r.value[f] == Supplied(p, f)
  {
    match k
    case EventKind =>
      EventUpdateErrorsAt(p);
      (match ParseEventUpdate(p)
       case Accepted(u) => EventUpdateDecoded(p); Accepted(EventDump(u))
       case Rejected(fs) => Rejected(fs))
    case CourseKind =>
      CourseUpdateErrorsAt(p);
      (match ParseCourseUpdate(p)
       case Accepted(u) => CourseUpdateDecoded(p); Accepted(CourseDump(u))
       case Rejected(fs) => Rejected(fs))
    case TimetableKind =>
      TimetableUpdateErrorsAt(p);
      (match ParseTimetableUpdate(p)
       case Accepted(u) => TimetableUpdateDecoded(p); Accepted(TimetableDump(u))
       case Rejected(fs) => Rejected(fs))
  }

  /** `update_data`: exactly the dumped fields whose value is not None. */
  function UpdateData(d: Dump): (data: Record)
    ensures forall f :: f in data <==> f in d && d[f].Some?
    ensures forall f :: f in data ==> data[f] == d[f].value
  {
    map f | f in d && d[f].Some? :: d[f].value
  }

  /** The stored document after `$set` of `data` plus the `updated_at` stamp. */
  function Applied(doc: Record, data: Record, now: Moment): (r: Record)
    ensures r.Keys == doc.Keys + data.Keys + {UpdatedAtKey}
    ensures r[UpdatedAtKey] == Date(now)
  {
    doc + data[UpdatedAtKey := Date(now)]
  }

  // -------------------------------------------------------------- lemmas

  /** Only supplied fields change: each supplied field takes the supplied
      value, `updated_at` takes the stamp, and every other field of the old
      document keeps its value. */
  lemma AppliedFields(doc: Record, data: Record, now: Moment)
    ensures Applied(doc, data, now).Keys == doc.Keys + data.Keys + {UpdatedAtKey}
    ensures Applied(doc, data, now)[UpdatedAtKey] == Date(now)
    ensures forall f :: f in data && f != UpdatedAtKey ==> Applied(doc, data, now)[f] == data[f]
    ensures forall f :: f in doc && f !in data && f != UpdatedAtKey ==> Applied(doc, data, now)[f] == doc[f]
  {
  }

  /** Applying the same update twice leaves what applying it once at the
      later time leaves. */
  lemma AppliedTwice(doc: Record, data: Record, t1: Moment, t2: Moment)
    ensures Applied(Applied(doc, data, t1), data, t2) == Applied(doc, data, t2)
  {
  }

  /** The update data never names the identifier field or `updated_at`. */
  lemma DumpAvoidsReservedKeys(d: Dump)
    requires d.Keys == EventFields || d.Keys == CourseFields || d.Keys == TimetableFields
    ensures IdKey !in UpdateData(d) && UpdatedAtKey !in UpdateData(d)
  {
    assert IdKey !in d && UpdatedAtKey !in d;
  }

  /** The `$set` of a decoded update body is exactly the body's declared,
      non-null fields; keys outside the model are dropped. */
  lemma UpdateDataOfBody(k: Kind, p: Record)
    requires UpdateBody(k, p).Accepted?
    ensures UpdateData(UpdateBody(k, p).value) == map f | f in p && f in Fields(k) && !p[f].Null? :: p[f]
  {
  }

  /** There is nothing to update exactly when every field was omitted. */
  lemma EmptyEventUpdate(u: EventUpdate)
    ensures UpdateData(EventDump(u)) == map[] <==> u == EventUpdate(None, None, None, None, None, None, None)
  {
    if u != EventUpdate(None, None, None, None, None, None, None) {
      var d := EventDump(u);
      var f := if u.title.Some? then "title" else if u.description.Some? then "description"
               else if u.date.Some? then "date" else if u.time.Some? then "time"
               else if u.location.Some? then "location" else if u.audience.Some? then "audience"
               else "link";
      assert f in UpdateData(d);
    }
  }

  lemma EmptyCourseUpdate(u: CourseUpdate)
    ensures UpdateData(CourseDump(u)) == map[] <==> u == CourseUpdate(None, None, None, None, None, None, None)
  {
    if u != CourseUpdate(None, None, None, None, None, None, None) {
      var d := CourseDump(u);
      var f := if u.code.Some? then "code" else if u.title.Some? then "title"
               else if u.semester.Some? then "semester" else if u.year.Some? then "year"
               else if u.lecturer.Some? then "lecturer" else if u.credits.Some? then "credits"
               else "description";
      assert f in UpdateData(d);
    }
  }

  lemma EmptyTimetableUpdate(u: TimetableUpdate)
    ensures UpdateData(TimetableDump(u)) == map[]
            <==> u == TimetableUpdate(None, None, None, None, None, None, None, None, None)
  {
    if u != TimetableUpdate(None, None, None, None, None, None, None, None, None) {
      var d := TimetableDump(u);
      var f := if u.semester.Some? then "semester" else if u.year.Some? then "year"
               else if u.day.Some? then "day" else if u.startTime.Some? then "start_time"
               else if u.endTime.Some? then "end_time" else if u.courseCode.Some? then "course_code"
               else if u.venue.Some? then "venue" else if u.lecturer.Some? then "lecturer"
               else "notes";
      assert f in UpdateData(d);
    }
  }

  /** A body that supplies only `location` updates only `location`. */
  lemma OnlyLocation(location: string)
    ensures UpdateData(EventDump(EventUpdate(None, None, None, None, Some(location), None, None)))
            == map["location" := Str(location)]
  {
    var d := EventDump(EventUpdate(None, None, None, None, Some(location), None, None));
    assert UpdateData(d).Keys == {"location"};
  }

  /** An update may store what create would reject: a year of 1999 is
      written as it is, and the course document no longer validates. */
  lemma UpdateSkipsCreateRules(c: Course, now: Moment)
    requires ValidCourse(c)
    ensures var data := UpdateData(CourseDump(CourseUpdate(None, None, None, Some(1999), None, None, None)));
            && data == map["year" := Int(1999)]
            && Applied(CourseRecord(c), data, now)["year"] == Int(1999)
            && ParseCourse(Applied(CourseRecord(c), data, now)).Rejected?
  {
    var data := UpdateData(CourseDump(CourseUpdate(None, None, None, Some(1999), None, None, None)));
    assert data.Keys == {"year"};
    CourseYearRejected(Applied(CourseRecord(c), data, now));
  }
}
