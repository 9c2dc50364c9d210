/** List queries: the exact-match filter the list handlers build from their
    query-string arguments, and what a read of a collection with a filter
    and an optional limit returns. */
module Queries {
  import opened Options
  import opened ObjectIds
  import opened Values

  /** MongoDB exact-match semantics for a filter of plain values: every
      filter key is present in the document with an equal value. */
  predicate Matches(doc: Record, query: Record)
    ensures Matches(doc, query) ==> query.Keys <= doc.Keys
    ensures Matches(doc, map[])
  {
    forall f :: f in query ==> f in doc && doc[f] == query[f]
  }

  /** Python truthiness of an optional string argument: supplied and non-empty. */
  predicate Truthy(o: Option<string>) {
    o.Some? && o.value != ""
  }

  /** The filter `list_courses` must send: `semester` only when truthy,
      `year` whenever it is not None, and nothing else. */
  ghost predicate IsCourseFilter(q: Record, semester: Option<string>, year: Option<int>) {
    && q.Keys <= {"semester", "year"}
    && ("semester" in q <==> Truthy(semester))
    && ("semester" in q ==> q["semester"] == Str(semester.value))
    && ("year" in q <==> year.Some?)
    && ("year" in q ==> q["year"] == Int(year.value))
  }

  /** The filter `list_timetable` must send: also `day` when truthy. */
  ghost predicate IsTimetableFilter(q: Record, semester: Option<string>, year: Option<int>, day: Option<string>) {
    && q.Keys <= {"semester", "year", "day"}
    && ("semester" in q <==> Truthy(semester))
    && ("semester" in q ==> q["semester"] == Str(semester.value))
    && ("year" in q <==> year.Some?)
    && ("year" in q ==> q["year"] == Int(year.value))
    && ("day" in q <==> Truthy(day))
    && ("day" in q ==> q["day"] == Str(day.value))
  }

  /** `list_courses` building its query dict. */
  method CourseQuery(semester: Option<string>, year: Option<int>) returns (q: Record)
    ensures IsCourseFilter(q, semester, year)
  {
    q := map[];
    if semester.Some? && semester.value != "" {
      q := q["semester" := Str(semester.value)];
    }
    if year.Some? {
      q := q["year" := Int(year.value)];
    }
  }

  /** `list_timetable` building its query dict. */
  method TimetableQuery(semester: Option<string>, year: Option<int>, day: Option<string>) returns (q: Record)
    ensures IsTimetableFilter(q, semester, year, day)
  {
    q := map[];
    if semester.Some? && semester.value != "" {
      q := q["semester" := Str(semester.value)];
    }
    if year.Some? {
      q := q["year" := Int(year.value)];
    }
    if day.Some? && day.value != "" {
      q := q["day" := Str(day.value)];
    }
  }

  /** A document matches a course filter exactly when it agrees with every
      argument that was supplied; an empty semester, or none, filters nothing. */
  lemma CourseFilterSelects(q: Record, semester: Option<string>, year: Option<int>, doc: Record)
    requires IsCourseFilter(q, semester, year)
    ensures Matches(doc, q) <==>
              && (Truthy(semester) ==> "semester" in doc && doc["semester"] == Str(semester.value))
              && (year.Some? ==> "year" in doc && doc["year"] == Int(year.value))
  {
    if !Matches(doc, q) {
      var f :| f in q && !(f in doc && doc[f] == q[f]);
      assert f == "semester" || f == "year";
    }
  }

  lemma TimetableFilterSelects(q: Record, semester: Option<string>, year: Option<int>, day: Option<string>, doc: Record)
    requires IsTimetableFilter(q, semester, year, day)
    ensures Matches(doc, q) <==>
              && (Truthy(semester) ==> "semester" in doc && doc["semester"] == Str(semester.value))
              && (year.Some? ==> "year" in doc && doc["year"] == Int(year.value))
              && (Truthy(day) ==> "day" in doc && doc["day"] == Str(day.value))
  {
    if !Matches(doc, q) {
      var f :| f in q && !(f in doc && doc[f] == q[f]);
      assert f == "semester" || f == "year" || f == "day";
    }
  }

  /** With no argument supplied (or empty strings) the filter is empty. */
  lemma NoArgumentsNoFilter(q: Record, semester: Option<string>, year: Option<int>, day: Option<string>)
    requires IsTimetableFilter(q, semester, year, day)
    requires !Truthy(semester) && year.None? && !Truthy(day)
    ensures q == map[]
  {
    assert q.Keys == {};
  }

  // ------------------------------------------------------ query results

  /** The cap a `limit` argument puts on a find: none for None or 0, the
      absolute value otherwise (MongoDB's cursor limit). */
  function Cap(limit: Option<int>): (r: Option<nat>)
    ensures r.Some? ==> r.value > 0
    ensures limit.None? ==> r.None?
  {
    if limit.None? || limit.value == 0 then None
    else if limit.value < 0 then Some(-limit.value)
    else Some(limit.value)
  }

  /** The identifiers of the documents of `c` that match `query`. */
  function Matching(c: map<ObjectId, Record>, query: Record): set<ObjectId> {
    set id | id in c && Matches(c[id], query)
  }

  /** `ids` is a correct answer to the find: distinct matching identifiers,
      no more than the cap, and every match when the cap was not reached. */
  ghost predicate Answers(c: map<ObjectId, Record>, query: Record, cap: Option<nat>, ids: seq<ObjectId>)
    ensures Answers(c, query, cap, ids) ==> forall i :: 0 <= i < |ids| ==> ids[i] in Matching(c, query)
  {
    && (forall i :: 0 <= i < |ids| ==> ids[i] in c && Matches(c[ids[i]], query))
    && (forall i, j :: 0 <= i < j < |ids| ==> ids[i] != ids[j])
    && (cap.Some? ==> |ids| <= cap.value)
    && ((cap.None? || |ids| < cap.value) ==> forall id :: id in Matching(c, query) ==> id in ids)
  }

  function Elements(ids: seq<ObjectId>): set<ObjectId> {
    set i | 0 <= i < |ids| :: ids[i]
  }

  lemma {:induction false} DistinctCount(ids: seq<ObjectId>)
    requires forall i, j :: 0 <= i < j < |ids| ==> ids[i] != ids[j]
    ensures |Elements(ids)| == |ids|
  {
    if ids != [] {
      var rest := ids[..|ids| - 1];
      DistinctCount(rest);
      assert Elements(ids) == Elements(rest) + {ids[|ids| - 1]};
      assert ids[|ids| - 1] !in Elements(rest);
    }
  }

  /** An answer holds exactly as many documents as match, up to the cap. */
  lemma AnswersCount(c: map<ObjectId, Record>, query: Record, cap: Option<nat>, ids: seq<ObjectId>)
    requires Answers(c, query, cap, ids)
    ensures cap.None? ==> |ids| == |Matching(c, query)|
    ensures cap.Some? ==> |ids| == if |Matching(c, query)| < cap.value then |Matching(c, query)| else cap.value
  {
    DistinctCount(ids);
    SubsetCard(Elements(ids), Matching(c, query));
    if cap.None? || |ids| < cap.value {
      assert Elements(ids) == Matching(c, query);
    }
  }

  lemma SubsetCard(a: set<ObjectId>, b: set<ObjectId>)
    requires a <= b
    ensures |a| <= |b|
  {
    assert b == a + (b - a);
  }

  /** With an empty filter and no limit, the answer is the whole collection. */
  lemma AnswersEverything(c: map<ObjectId, Record>, ids: seq<ObjectId>)
    requires Answers(c, map[], None, ids)
    ensures Elements(ids) == c.Keys
  {
    forall id | id in c ensures id in Elements(ids) {
      assert Matches(c[id], map[]);
      assert id in Matching(c, map[]);
      var i :| 0 <= i < |ids| && ids[i] == id;
    }
  }
}
