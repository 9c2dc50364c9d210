/** The decision logic shared by the create, update and delete handlers of
    all three collections, as functions from the store's state before the
    request to the response and the collection afterwards. */
module Handlers {
  import opened Options
  import opened ObjectIds
  import opened Values
  import opened Schemas
  import opened Serialization
  import opened Updates
  import opened Queries

  datatype Body =
    | Document(doc: Record)          // one serialised document
    | Documents(docs: seq<Record>)   // a list of serialised documents
    | Deleted                        // `{"success": True}`

  datatype Response =
    | Ok(body: Body)
    | BadRequest(detail: string)
    | NotFound(detail: string)
    | Unprocessable(fields: set<string>)   // the body failed schema validation
    | Unavailable(detail: string)

  function Status(r: Response): (code: int)
    ensures code == 200 <==> r.Ok?
    ensures r.Unprocessable? <==> code == 422
    ensures 200 <= code <= 500
  {
    match r
    case Ok(_) => 200
    case BadRequest(_) => 400
    case NotFound(_) => 404
    case Unprocessable(_) => 422
    case Unavailable(_) => 500
  }

  const UnavailableDetail: string := "Database not available. Configure DATABASE_URL and DATABASE_NAME."
  const NoFieldsDetail: string := "No fields to update"

  function InvalidIdDetail(k: Kind): string {
    match k
    case EventKind => "Invalid event id"
    case CourseKind => "Invalid course id"
    case TimetableKind => "Invalid timetable id"
  }

  function NotFoundDetail(k: Kind): string {
    match k
    case EventKind => "Event not found"
    case CourseKind => "Course not found"
    case TimetableKind => "Timetable slot not found"
  }

  type Collection = map<ObjectId, Record>

  /** The store keeps each document under the identifier held in its `_id`,
      and every such identifier is one the store generates. */
  ghost predicate Keyed(c: Collection) {
    forall id :: id in c ==> Canonical(id) && IdKey in c[id] && c[id][IdKey] == Oid(id)
  }

  datatype Outcome = Outcome(response: Response, after: Collection)

  /** `create_*`: the body is validated first (before the handler runs), then
      the store must be there; the new document is inserted under the fresh
      identifier and read back. */
  function CreateOutcome(connected: bool, c: Collection, k: Kind, body: Record, newId: ObjectId): (o: Outcome)
    ensures o.response.Unprocessable? <==> Validate(k, body).Rejected?
    ensures o.response.Ok? <==> Validate(k, body).Accepted? && connected
    ensures !o.response.Ok? ==> o.after == c
    ensures o.response.Ok? ==> o.after.Keys == c.Keys + {newId} && IdKey in o.after[newId] && o.after[newId][IdKey] == Oid(newId)
  {
    match Validate(k, body)
    case Rejected(fs) => Outcome(Unprocessable(fs), c)
    case Accepted(fields) =>
      if !connected then Outcome(Unavailable(UnavailableDetail), c)
      else
        var doc := fields[IdKey := Oid(newId)];
        Outcome(Ok(Document(Serialized(doc))), c[newId := doc])
  }

  /** `update_*`: store check, identifier check, non-empty update data, then
      `$set` with `updated_at`, 404 when no document matched. */
  function UpdateOutcome(connected: bool, c: Collection, k: Kind, idText: string, dump: Dump, now: Moment): (o: Outcome)
    ensures o.response.Ok? <==> connected && WellFormed(idText) && UpdateData(dump) != map[] && Parse(idText).value in c
    ensures !o.response.Ok? ==> o.after == c
    ensures o.response.Ok? ==> o.after.Keys == c.Keys
  {
    if !connected then Outcome(Unavailable(UnavailableDetail), c)
    else match Parse(idText)
      case None => Outcome(BadRequest(InvalidIdDetail(k)), c)
      case Some(id) =>
        var data := UpdateData(dump);
        if data == map[] then Outcome(BadRequest(NoFieldsDetail), c)
        else if id !in c then Outcome(NotFound(NotFoundDetail(k)), c)
        else
          var doc := Applied(c[id], data, now);
          Outcome(Ok(Document(Serialized(doc))), c[id := doc])
  }

  /** `delete_*`: store check, identifier check, then removal, 404 when
      nothing was deleted. */
  function DeleteOutcome(connected: bool, c: Collection, k: Kind, idText: string): (o: Outcome)
    ensures o.response.Ok? <==> connected && WellFormed(idText) && Parse(idText).value in c
    ensures !o.response.Ok? ==> o.after == c
    ensures o.response.Ok? ==> o.after.Keys == c.Keys - {Parse(idText).value}
  {
    if !connected then Outcome(Unavailable(UnavailableDetail), c)
    else match Parse(idText)
      case None => Outcome(BadRequest(InvalidIdDetail(k)), c)
      case Some(id) =>
        if id !in c then Outcome(NotFound(NotFoundDetail(k)), c)
        else Outcome(Ok(Deleted), c - {id})
  }

  /** An update request as it arrives: FastAPI decodes the body into the
      partial model before the handler runs, so a badly typed field is 422
      whatever the store and the identifier; a decoded body goes on to
      `UpdateOutcome`. */
  function UpdateRequestOutcome(connected: bool, c: Collection, k: Kind, idText: string, body: Record, now: Moment): (o: Outcome)
    ensures o.response.Unprocessable? <==> UpdateBody(k, body).Rejected?
    ensures o.response.Unprocessable? ==> forall f :: f in o.response.fields <==> f in Fields(k) && !UpdateFieldOk(k, body, f)
    ensures !o.response.Ok? ==> o.after == c
  {
    match UpdateBody(k, body)
    case Rejected(fs) => Outcome(Unprocessable(fs), c)
    case Accepted(dump) => UpdateOutcome(connected, c, k, idText, dump, now)
  }

  /** `ids` answers the find behind a list request, and the response lists
      those documents, serialised, in that order. */
  ghost predicate Listed(c: Collection, query: Record, cap: Option<nat>, ids: seq<ObjectId>, r: Response) {
    && Answers(c, query, cap, ids)
    && r.Ok? && r.body.Documents? && |r.body.docs| == |ids|
    && forall i :: 0 <= i < |ids| ==> r.body.docs[i] == Serialized(c[ids[i]])
  }

  // -------------------------------------------------------------- lemmas

  /** Finding the document whose `_id` is `id` is looking `id` up. */
  lemma LookupById(c: Collection, id: ObjectId)
    requires Keyed(c)
    ensures id in c <==> exists key :: key in c && c[key][IdKey] == Oid(id)
  {
  }

  /** Every stored document can be addressed: the text of its key parses
      back to that key. */
  lemma KeyedReachable(c: Collection, id: ObjectId)
    requires Keyed(c) && id in c
    ensures WellFormed(ToString(id)) && Parse(ToString(id)) == Some(id)
  {
    ParseToString(id);
  }

  /** A badly typed update field is reported as 422 before the store or the
      identifier is looked at, and nothing changes. */
  lemma UpdateBodyFirst(connected: bool, c: Collection, k: Kind, idText: string, body: Record, now: Moment, f: string)
    requires f in Fields(k) && !UpdateFieldOk(k, body, f)
    ensures var o := UpdateRequestOutcome(connected, c, k, idText, body, now);
            o.response.Unprocessable? && f in o.response.fields && o.after == c && Status(o.response) == 422
  {
  }

  /** A well-typed update body reaches `UpdateOutcome` with exactly its
      declared, non-null fields to set. */
  lemma UpdateBodyDecoded(connected: bool, c: Collection, k: Kind, idText: string, body: Record, now: Moment)
    requires forall f :: f in Fields(k) ==> UpdateFieldOk(k, body, f)
    ensures UpdateBody(k, body).Accepted?
    ensures UpdateRequestOutcome(connected, c, k, idText, body, now)
            == UpdateOutcome(connected, c, k, idText, UpdateBody(k, body).value, now)
    ensures UpdateData(UpdateBody(k, body).value) == map f | f in body && f in Fields(k) && !body[f].Null? :: body[f]
  {
    UpdateDataOfBody(k, body);
  }

  /** Without a store, every request that got past body validation is 500
      and changes nothing. */
  lemma UnavailableFirst(c: Collection, k: Kind, body: Record, newId: ObjectId, idText: string, dump: Dump, now: Moment)
    ensures Validate(k, body).Accepted? ==>
              CreateOutcome(false, c, k, body, newId) == Outcome(Unavailable(UnavailableDetail), c)
    ensures UpdateOutcome(false, c, k, idText, dump, now) == Outcome(Unavailable(UnavailableDetail), c)
    ensures DeleteOutcome(false, c, k, idText) == Outcome(Unavailable(UnavailableDetail), c)
  {
  }

  /** A malformed identifier is 400 for update and delete alike, with the
      collection untouched, whatever the body. */
  lemma MalformedIdRejected(c: Collection, k: Kind, idText: string, dump: Dump, now: Moment)
    requires !WellFormed(idText)
    ensures UpdateOutcome(true, c, k, idText, dump, now) == Outcome(BadRequest(InvalidIdDetail(k)), c)
    ensures DeleteOutcome(true, c, k, idText) == Outcome(BadRequest(InvalidIdDetail(k)), c)
    ensures Status(UpdateOutcome(true, c, k, idText, dump, now).response) == 400
  {
  }

  /** A body whose fields are all None is 400 "No fields to update", with the
      collection untouched, whether or not the identifier exists. */
  lemma EmptyUpdateRejected(c: Collection, k: Kind, idText: string, dump: Dump, now: Moment)
    requires WellFormed(idText)
    requires forall f :: f in dump ==> dump[f].None?
    ensures UpdateOutcome(true, c, k, idText, dump, now) == Outcome(BadRequest(NoFieldsDetail), c)
  {
    assert UpdateData(dump).Keys == {};
  }

  /** An identifier with no document is 404 for update and delete, with the
      collection untouched. */
  lemma MissingIdNotFound(c: Collection, k: Kind, idText: string, dump: Dump, now: Moment)
    requires WellFormed(idText) && Parse(idText).value !in c
    ensures UpdateData(dump) != map[] ==>
              UpdateOutcome(true, c, k, idText, dump, now) == Outcome(NotFound(NotFoundDetail(k)), c)
    ensures DeleteOutcome(true, c, k, idText) == Outcome(NotFound(NotFoundDetail(k)), c)
  {
  }

  /** A successful update changes only the addressed document, and in it only
      the supplied fields and `updated_at`; the response is that document,
      serialised. */
  lemma UpdateChangesOnlySupplied(c: Collection, k: Kind, idText: string, dump: Dump, now: Moment)
    requires WellFormed(idText) && Parse(idText).value in c && UpdateData(dump) != map[]
    ensures var o := UpdateOutcome(true, c, k, idText, dump, now);
            var id := Parse(idText).value;
            && o.after.Keys == c.Keys
            && (forall other :: other in c && other != id ==> o.after[other] == c[other])
            && o.after[id][UpdatedAtKey] == Date(now)
            && (forall f :: f in dump && dump[f].Some? && f != UpdatedAtKey ==> o.after[id][f] == dump[f].value)
            && (forall f :: f in c[id] && (f !in dump || dump[f].None?) && f != UpdatedAtKey ==> o.after[id][f] == c[id][f])
            && o.response == Ok(Document(Serialized(o.after[id])))
  {
    AppliedFields(c[Parse(idText).value], UpdateData(dump), now);
  }

  /** A successful delete removes exactly the addressed document. */
  lemma DeleteRemovesExactly(c: Collection, k: Kind, idText: string)
    requires WellFormed(idText) && Parse(idText).value in c
    ensures var o := DeleteOutcome(true, c, k, idText);
            && o.response == Ok(Deleted)
            && o.after.Keys == c.Keys - {Parse(idText).value}
            && forall other :: other in o.after ==> o.after[other] == c[other]
  {
  }

  /** Every decision keeps documents keyed by their `_id`. */
  lemma CreateKeepsKeyed(connected: bool, c: Collection, k: Kind, body: Record, newId: ObjectId)
    requires Keyed(c) && Canonical(newId)
    ensures Keyed(CreateOutcome(connected, c, k, body, newId).after)
  {
  }

  lemma UpdateKeepsKeyed(connected: bool, c: Collection, k: Kind, idText: string, dump: Dump, now: Moment)
    requires Keyed(c) && IdKey !in UpdateData(dump)
    ensures Keyed(UpdateOutcome(connected, c, k, idText, dump, now).after)
  {
    var o := UpdateOutcome(connected, c, k, idText, dump, now);
    if o.after != c {
      var id := Parse(idText).value;
      AppliedFields(c[id], UpdateData(dump), now);
      assert o.after == c[id := Applied(c[id], UpdateData(dump), now)];
    }
  }

  lemma DeleteKeepsKeyed(connected: bool, c: Collection, k: Kind, idText: string)
    requires Keyed(c)
    ensures Keyed(DeleteOutcome(connected, c, k, idText).after)
  {
  }

  /** A created document holds the validated fields and its identifier, and
      the response's `id` is text that addresses it in later requests. */
  lemma CreateStores(c: Collection, k: Kind, body: Record, newId: ObjectId)
    requires Canonical(newId) && newId !in c && Validate(k, body).Accepted?
    ensures var o := CreateOutcome(true, c, k, body, newId);
            && o.after.Keys == c.Keys + {newId}
            && (forall other :: other in c ==> o.after[other] == c[other])
            && o.after[newId].Keys == Fields(k) + {IdKey}
            && (forall f :: f in body && f in Fields(k) ==> o.after[newId][f] == body[f])
            && o.response.Ok? && o.response.body.Document?
            && o.response.body.doc[PublicIdKey] == Str(ToString(newId))
            && Parse(ToString(newId)) == Some(newId)
  {
    var fields := Validate(k, body).value;
    var doc := fields[IdKey := Oid(newId)];
    var o := CreateOutcome(true, c, k, body, newId);
    assert o == Outcome(Ok(Document(Serialized(doc))), c[newId := doc]);
    ReservedKeysUndeclared(k);
    assert doc.Keys == Fields(k) + {IdKey};
    SerializedRenamesId(doc);
    ParseToString(newId);
  }

  /** Create then list: listing the collection afterwards with an empty
      filter and no limit returns the new document exactly once. */
  lemma CreateThenList(c: Collection, k: Kind, body: Record, newId: ObjectId, ids: seq<ObjectId>)
    requires newId !in c && Validate(k, body).Accepted?
    requires Answers(CreateOutcome(true, c, k, body, newId).after, map[], None, ids)
    ensures exists i :: 0 <= i < |ids| && ids[i] == newId
    ensures forall i, j :: 0 <= i < |ids| && 0 <= j < |ids| && ids[i] == newId && ids[j] == newId ==> i == j
  {
    var after := CreateOutcome(true, c, k, body, newId).after;
    assert Matches(after[newId], map[]);
    assert newId in Matching(after, map[]);
  }
  /** The document the Open Day create stores. */
  function OpenDayDoc(newId: ObjectId, date: Moment): Record {
    EventRecord(Event("Open Day", None, date, None, None, None, None))[IdKey := Oid(newId)]
  }

  lemma OpenDayCreated(c: Collection, newId: ObjectId, date: Moment, created: Outcome)
    requires Canonical(newId)
    requires created == CreateOutcome(true, c, EventKind, map["title" := Str("Open Day"), "date" := Date(date)], newId)
    ensures created.after == c[newId := OpenDayDoc(newId, date)]
    ensures created.response == Ok(Document(Serialized(OpenDayDoc(newId, date))))
  {
    EventMinimal("Open Day", date);
  }

  lemma OpenDayUpdated(c: Collection, newId: ObjectId, date: Moment, now: Moment, updated: Outcome)
    requires Canonical(newId)
    requires updated == UpdateOutcome(true, c[newId := OpenDayDoc(newId, date)], EventKind, ToString(newId),
                                      EventDump(EventUpdate(None, None, None, None, Some("Main Hall"), None, None)), now)
    ensures updated.response.Ok?
    ensures newId in updated.after && updated.after - {newId} == c - {newId}
    ensures updated.after[newId]["location"] == Str("Main Hall")
    ensures updated.after[newId]["title"] == Str("Open Day")
  {
    ParseToString(newId);
    var start := OpenDayDoc(newId, date);
    var before := c[newId := start];
    OnlyLocation("Main Hall");
    var data := map["location" := Str("Main Hall")];
    var doc := Applied(start, data, now);
    assert updated == Outcome(Ok(Document(Serialized(doc))), before[newId := doc]);
    AppliedFields(start, data, now);
    assert "title" in start && start["title"] == Str("Open Day");
    assert before[newId := doc] - {newId} == c - {newId};
  }


  lemma OpenDayResponse(newId: ObjectId, date: Moment)
    ensures Serialized(OpenDayDoc(newId, date))[PublicIdKey] == Str(ToString(newId))
    ensures Serialized(OpenDayDoc(newId, date))["date"] == Str(date.isoText)
  {
    var doc := OpenDayDoc(newId, date);
    assert doc[IdKey] == Oid(newId);
    SerializedRenamesId(doc);
    assert "date" in doc && doc["date"] == Date(date);
    SerializedValues(doc, "date");
  }

  /** Deleting the one document a request sequence added gives back the
      collection it started from. */
  lemma OpenDayDeleted(c: Collection, newId: ObjectId, after: Collection)
    requires Canonical(newId) && newId !in c
    requires newId in after && after - {newId} == c - {newId}
    ensures DeleteOutcome(true, after, EventKind, ToString(newId)) == Outcome(Ok(Deleted), c)
  {
    ParseToString(newId);
    DeleteRemovesExactly(after, EventKind, ToString(newId));
    assert c - {newId} == c;
  }

  /** Create an event with title and date, change its location, delete it:
      the created response carries the identifier text and the date as ISO
      text, the update changes the location and keeps the title, and the
      delete leaves the collection as it was before the create. */
  lemma OpenDayScenario(c: Collection, newId: ObjectId, date: Moment, now: Moment)
    requires Canonical(newId) && newId !in c
    ensures var created := CreateOutcome(true, c, EventKind, map["title" := Str("Open Day"), "date" := Date(date)], newId);
            var change := EventUpdate(None, None, None, None, Some("Main Hall"), None, None);
            var updated := UpdateOutcome(true, created.after, EventKind, ToString(newId), EventDump(change), now);
            var deleted := DeleteOutcome(true, updated.after, EventKind, ToString(newId));
            && created.response.Ok? && created.response.body.Document?
            && created.response.body.doc[PublicIdKey] == Str(ToString(newId))
            && created.response.body.doc["date"] == Str(date.isoText)
            && updated.response.Ok?
            && updated.after[newId]["location"] == Str("Main Hall")
            && updated.after[newId]["title"] == Str("Open Day")
            && deleted.response == Ok(Deleted)
            && deleted.after == c
  {
    var created := CreateOutcome(true, c, EventKind, map["title" := Str("Open Day"), "date" := Date(date)], newId);
    OpenDayCreated(c, newId, date, created);
    OpenDayResponse(newId, date);
    var change := EventUpdate(None, None, None, None, Some("Main Hall"), None, None);
    var updated := UpdateOutcome(true, created.after, EventKind, ToString(newId), EventDump(change), now);
    OpenDayUpdated(c, newId, date, now, updated);
    OpenDayDeleted(c, newId, updated.after);
  }
}
