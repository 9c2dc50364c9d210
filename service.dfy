/** The service's handlers over one store handle. The store holds the three
    collections; `connected` says whether the module-level database handle
    exists (`db is not None`). */
module Service {
  import opened Options
  import opened ObjectIds
  import opened Values
  import opened Schemas
  import opened Serialization
  import opened Updates
  import opened Queries
  import opened Handlers

  class Store {
    const connected: bool
    var events: Collection
    var courses: Collection
    var timetable: Collection

    ghost predicate Valid()
      reads this
    {
      Keyed(events) && Keyed(courses) && Keyed(timetable)
    }

    function CollectionOf(k: Kind): Collection
      reads this
    {
      match k
      case EventKind => events
      case CourseKind => courses
      case TimetableKind => timetable
    }

    constructor (connected: bool)
      ensures Valid() && this.connected == connected
      ensures events == map[] && courses == map[] && timetable == map[]
    {
      this.connected := connected;
      events, courses, timetable := map[], map[], map[];
    }

    method SetCollection(k: Kind, c: Collection)
      modifies this
      ensures CollectionOf(k) == c
      ensures k != EventKind ==> events == old(events)
      ensures k != CourseKind ==> courses == old(courses)
      ensures k != TimetableKind ==> timetable == old(timetable)
    {
      match k
      case EventKind => events := c;
      case CourseKind => courses := c;
      case TimetableKind => timetable := c;
    }

    // ------------------------------------------------------------- reads

    /** `get_documents(collection, query, limit)`: the matching documents,
        visited in an order the model leaves open, stopping at the cap;
        `ids` gives the identifier each one is stored under. */
    method Find(k: Kind, query: Record, limit: Option<int>) returns (docs: seq<Record>, ids: seq<ObjectId>)
      ensures Answers(CollectionOf(k), query, Cap(limit), ids)
      ensures |docs| == |ids| && forall i :: 0 <= i < |ids| ==> docs[i] == CollectionOf(k)[ids[i]]
    {
      var c := CollectionOf(k);
      var cap := Cap(limit);
      var pending := c.Keys;
      docs, ids := [], [];
      while pending != {} && (cap.None? || |docs| < cap.value)
        invariant pending <= c.Keys
        invariant |docs| == |ids|
        invariant forall i :: 0 <= i < |ids| ==> ids[i] in c && ids[i] !in pending && docs[i] == c[ids[i]] && Matches(docs[i], query)
        invariant forall i, j :: 0 <= i < j < |ids| ==> ids[i] != ids[j]
        invariant cap.Some? ==> |ids| <= cap.value
        invariant forall id :: id in Matching(c, query) && id !in pending ==> id in ids
        decreases pending
      {
        var id :| id in pending;
        if Matches(c[id], query) {
          docs, ids := docs + [c[id]], ids + [id];
        }
        pending := pending - {id};
      }
    }

    /** The shared body of the list handlers once the query is built. */
    method List(k: Kind, query: Record, limit: Option<int>) returns (r: Response, ghost ids: seq<ObjectId>)
      ensures !connected ==> r == Unavailable(UnavailableDetail)
      ensures connected ==> Listed(CollectionOf(k), query, Cap(limit), ids, r)
    {
      if !connected {
        return Unavailable(UnavailableDetail), [];
      }
      var docs;
      docs, ids := Find(k, query, limit);
      var out: seq<Record> := [];
      var i := 0;
      while i < |docs|
        invariant 0 <= i <= |docs|
        invariant |out| == i && forall j :: 0 <= j < i ==> out[j] == Serialized(docs[j])
      {
        var s := SerializeDoc(docs[i]);
        out := out + [s];
        i := i + 1;
      }
      r := Ok(Documents(out));
    }

    method ListEvents(limit: Option<int>) returns (r: Response, ghost ids: seq<ObjectId>)
      ensures !connected ==> r == Unavailable(UnavailableDetail)
      ensures connected ==> Listed(events, map[], Cap(limit), ids, r)
    {
      r, ids := List(EventKind, map[], limit);
    }

    method ListCourses(semester: Option<string>, year: Option<int>, limit: Option<int>)
      returns (r: Response, ghost query: Record, ghost ids: seq<ObjectId>)
      ensures IsCourseFilter(query, semester, year)
      ensures !connected ==> r == Unavailable(UnavailableDetail)
      ensures connected ==> Listed(courses, query, Cap(limit), ids, r)
    {
      if !connected {
        query := CourseQuery(semester, year);
        return Unavailable(UnavailableDetail), query, [];
      }
      var q := CourseQuery(semester, year);
      query := q;
      r, ids := List(CourseKind, q, limit);
    }

    method ListTimetable(semester: Option<string>, year: Option<int>, day: Option<string>, limit: Option<int>)
      returns (r: Response, ghost query: Record, ghost ids: seq<ObjectId>)
      ensures IsTimetableFilter(query, semester, year, day)
      ensures !connected ==> r == Unavailable(UnavailableDetail)
      ensures connected ==> Listed(timetable, query, Cap(limit), ids, r)
    {
      if !connected {
        query := TimetableQuery(semester, year, day);
        return Unavailable(UnavailableDetail), query, [];
      }
      var q := TimetableQuery(semester, year, day);
      query := q;
      r, ids := List(TimetableKind, q, limit);
    }

    // ----------------------------------------------------------- writes

    /** The shared body of the create handlers. `newId` is the identifier
        the driver generates for the insert: fresh and canonical. */
    method Create(k: Kind, body: Record, newId: ObjectId) returns (r: Response)
      requires Valid() && Canonical(newId) && newId !in CollectionOf(k)
      modifies this
      ensures Valid()
      ensures Outcome(r, CollectionOf(k)) == CreateOutcome(connected, old(CollectionOf(k)), k, body, newId)
      ensures k != EventKind ==> events == old(events)
      ensures k != CourseKind ==> courses == old(courses)
      ensures k != TimetableKind ==> timetable == old(timetable)
    {
      CreateKeepsKeyed(connected, CollectionOf(k), k, body, newId);
      var checked := Validate(k, body);
      if checked.Rejected? {
        return Unprocessable(checked.fields);
      }
      if !connected {
        return Unavailable(UnavailableDetail);
      }
      var doc := checked.value[IdKey := Oid(newId)];
      SetCollection(k, CollectionOf(k)[newId := doc]);
      var newIdText := ToString(newId);
      ParseToString(newId);
      var oid := Parse(newIdText);
      var found := CollectionOf(k)[oid.value];
      var out := SerializeDoc(found);
      r := Ok(Document(out));
    }

    /** The shared body of the update handlers. */
    method Update(k: Kind, idText: string, dump: Dump, now: Moment) returns (r: Response)
      requires Valid() && IdKey !in UpdateData(dump)
      modifies this
      ensures Valid()
      ensures Outcome(r, CollectionOf(k)) == UpdateOutcome(connected, old(CollectionOf(k)), k, idText, dump, now)
      ensures k != EventKind ==> events == old(events)
      ensures k != CourseKind ==> courses == old(courses)
      ensures k != TimetableKind ==> timetable == old(timetable)
    {
      UpdateKeepsKeyed(connected, CollectionOf(k), k, idText, dump, now);
      if !connected {
        return Unavailable(UnavailableDetail);
      }
      var oid := Parse(idText);
      if oid.None? {
        return BadRequest(InvalidIdDetail(k));
      }
      var updateData := UpdateData(dump);
      if updateData == map[] {
        return BadRequest(NoFieldsDetail);
      }
      updateData := updateData[UpdatedAtKey := Date(now)];
      var c := CollectionOf(k);
      var id := oid.value;
      if id !in c {
        return NotFound(NotFoundDetail(k));
      }
      SetCollection(k, c[id := c[id] + updateData]);
      var found := CollectionOf(k)[id];
      var out := SerializeDoc(found);
      r := Ok(Document(out));
    }

    /** The shared body of the delete handlers. */
    method Delete(k: Kind, idText: string) returns (r: Response)
      requires Valid()
      modifies this
      ensures Valid()
      ensures Outcome(r, CollectionOf(k)) == DeleteOutcome(connected, old(CollectionOf(k)), k, idText)
      ensures k != EventKind ==> events == old(events)
      ensures k != CourseKind ==> courses == old(courses)
      ensures k != TimetableKind ==> timetable == old(timetable)
    {
      DeleteKeepsKeyed(connected, CollectionOf(k), k, idText);
      if !connected {
        return Unavailable(UnavailableDetail);
      }
      var oid := Parse(idText);
      if oid.None? {
        return BadRequest(InvalidIdDetail(k));
      }
      var c := CollectionOf(k);
      if oid.value !in c {
        return NotFound(NotFoundDetail(k));
      }
      SetCollection(k, c - {oid.value});
      r := Ok(Deleted);
    }

    // ------------------------------------------------- the twelve routes

    method CreateEvent(body: Record, newId: ObjectId) returns (r: Response)
      requires Valid() && Canonical(newId) && newId !in events
      modifies this
      ensures Valid() && courses == old(courses) && timetable == old(timetable)
      ensures Outcome(r, events) == CreateOutcome(connected, old(events), EventKind, body, newId)
    {
      r := Create(EventKind, body, newId);
    }

    /** The body is decoded into `EventUpdate` before the handler runs. */
    method UpdateEvent(eventId: string, body: Record, now: Moment) returns (r: Response)
      requires Valid()
      modifies this
      ensures Valid() && courses == old(courses) && timetable == old(timetable)
      ensures Outcome(r, events) == UpdateRequestOutcome(connected, old(events), EventKind, eventId, body, now)
    {
      var checked := ParseEventUpdate(body);
      if checked.Rejected? {
        return Unprocessable(checked.fields);
      }
      var payload := checked.value;
      DumpAvoidsReservedKeys(EventDump(payload));
      r := Update(EventKind, eventId, EventDump(payload), now);
    }

    method DeleteEvent(eventId: string) returns (r: Response)
      requires Valid()
      modifies this
      ensures Valid() && courses == old(courses) && timetable == old(timetable)
      ensures Outcome(r, events) == DeleteOutcome(connected, old(events), EventKind, eventId)
    {
      r := Delete(EventKind, eventId);
    }

    method CreateCourse(body: Record, newId: ObjectId) returns (r: Response)
      requires Valid() && Canonical(newId) && newId !in courses
      modifies this
      ensures Valid() && events == old(events) && timetable == old(timetable)
      ensures Outcome(r, courses) == CreateOutcome(connected, old(courses), CourseKind, body, newId)
    {
      r := Create(CourseKind, body, newId);
    }

    /** The body is decoded into `CourseUpdate` before the handler runs. */
    method UpdateCourse(courseId: string, body: Record, now: Moment) returns (r: Response)
      requires Valid()
      modifies this
      ensures Valid() && events == old(events) && timetable == old(timetable)
      ensures Outcome(r, courses) == UpdateRequestOutcome(connected, old(courses), CourseKind, courseId, body, now)
    {
      var checked := ParseCourseUpdate(body);
      if checked.Rejected? {
        return Unprocessable(checked.fields);
      }
      var payload := checked.value;
      DumpAvoidsReservedKeys(CourseDump(payload));
      r := Update(CourseKind, courseId, CourseDump(payload), now);
    }

    method DeleteCourse(courseId: string) returns (r: Response)
      requires Valid()
      modifies this
      ensures Valid() && events == old(events) && timetable == old(timetable)
      ensures Outcome(r, courses) == DeleteOutcome(connected, old(courses), CourseKind, courseId)
    {
      r := Delete(CourseKind, courseId);
    }

    method CreateTimetable(body: Record, newId: ObjectId) returns (r: Response)
      requires Valid() && Canonical(newId) && newId !in timetable
      modifies this
      ensures Valid() && events == old(events) && courses == old(courses)
      ensures Outcome(r, timetable) == CreateOutcome(connected, old(timetable), TimetableKind, body, newId)
    {
      r := Create(TimetableKind, body, newId);
    }

    /** The body is decoded into `TimetableUpdate` before the handler runs. */
    method UpdateTimetable(slotId: string, body: Record, now: Moment) returns (r: Response)
      requires Valid()
      modifies this
      ensures Valid() && events == old(events) && courses == old(courses)
      ensures Outcome(r, timetable) == UpdateRequestOutcome(connected, old(timetable), TimetableKind, slotId, body, now)
    {
      var checked := ParseTimetableUpdate(body);
      if checked.Rejected? {
        return Unprocessable(checked.fields);
      }
      var payload := checked.value;
      DumpAvoidsReservedKeys(TimetableDump(payload));
      r := Update(TimetableKind, slotId, TimetableDump(payload), now);
    }

    method DeleteTimetable(slotId: string) returns (r: Response)
      requires Valid()
      modifies this
      ensures Valid() && events == old(events) && courses == old(courses)
      ensures Outcome(r, timetable) == DeleteOutcome(connected, old(timetable), TimetableKind, slotId)
    {
      r := Delete(TimetableKind, slotId);
    }
  }
}
