/** The course and assignment collection loop of `lambda_handler`
    (lambda.py:38-71): fetch the assignments of every course that has an id,
    keep those that pass the due-date-or-UID filter, and tag each kept one
    with its course's name. */
module Collection {
  import opened Values
  import opened Text
  import opened Pagination

  /** lambda.py:66-71: the four-field record kept for one assignment. */
  datatype Record = Record(name: Json, dueAt: Json, htmlUrl: Json, courseName: Json)

  const UNNAMED_COURSE := "Unnamed Course"

  /** lambda.py:38: the first page of the active-course listing. */
  function CoursesUrl(base: string): string
  {
    base + "/api/v1/courses?enrollment_state=active&per_page=100"
  }

  /** lambda.py:54: the first page of one course's assignments. */
  function AssignmentsUrl(base: string, courseId: Json): string
  {
    base + "/api/v1/courses/" + Str(courseId) + "/assignments?per_page=100"
  }

  /** `course.get("name", "Unnamed Course")`. */
  function CourseName(course: Object): Json
  {
    GetOr(course, "name", JStr(UNNAMED_COURSE))
  }

  /** `a.get("UID", "") or ""`: the operand of both `in` tests. */
  function UidOperand(a: Object): Json
  {
    var v := GetOr(a, "UID", JStr(""));
    if Truthy(v) then v else JStr("")
  }

  /** `needle in v`: a substring test, or TypeError when `v` is not a string. */
  function In(needle: string, v: Json): Result<bool>
  {
    if v.JStr? then Ok(Contains(v.s, needle)) else Raised(TypeError(v))
  }

  /** What the filter means to select: a truthy `due_at`, or a string `UID`
      that mentions "assignment" or "quiz". */
  predicate Wanted(a: Object)
  {
    var uid := GetOr(a, "UID", JStr(""));
    Truthy(Get(a, "due_at")) ||
    (uid.JStr? && (Contains(uid.s, "assignment") || Contains(uid.s, "quiz")))
  }

  /** The filter raises on an assignment without a truthy `due_at` whose `UID`
      is truthy but not a string. */
  predicate RaisesOn(a: Object)
  {
    var uid := GetOr(a, "UID", JStr(""));
    !Truthy(Get(a, "due_at")) && Truthy(uid) && !uid.JStr?
  }

  /** lambda.py:65, evaluated left to right with Python's short circuits. */
  function Keep(a: Object): (r: Result<bool>)
    ensures r.Raised? <==> RaisesOn(a)
    ensures r.Ok? ==> (r.value <==> Wanted(a))
  {
    if Truthy(Get(a, "due_at")) then Ok(true)
    else
      match In("assignment", UidOperand(a))
      case Raised(e) => Raised(e)
      case Ok(found) => if found then Ok(true) else In("quiz", UidOperand(a))
  }

  /** lambda.py:66-71: the record built from a kept assignment. */
  function ToRecord(a: Object, courseName: Json): Record
  {
    Record(Get(a, "name"), Get(a, "due_at"), Get(a, "html_url"), courseName)
  }

  /** lambda.py:64-71 for one course: the records of the kept assignments in
      page order, or the first exception the filter raises. */
  function Filter(assignments: seq<Object>, courseName: Json): Result<seq<Record>>
    decreases |assignments|
  {
    if |assignments| == 0 then Ok([])
    else
      var last := assignments[|assignments| - 1];
      var kept := match Keep(last)
        case Raised(e) => Raised(e)
        case Ok(k) => Ok(if k then [ToRecord(last, courseName)] else []);
      Append(Filter(assignments[..|assignments| - 1], courseName), kept)
  }

  /** Filtering works piecewise over a concatenation. */
  lemma {:induction false} FilterConcat(a: seq<Object>, b: seq<Object>, courseName: Json)
    ensures Filter(a + b, courseName) == Append(Filter(a, courseName), Filter(b, courseName))
    decreases |b|
  {
    if |b| == 0 {
      assert a + b == a;
      AppendNothing(Filter(a, courseName));
    } else {
      var n := |a + b|;
      assert (a + b)[..n - 1] == a + b[..|b| - 1];
      assert (a + b)[n - 1] == b[|b| - 1];
      FilterConcat(a, b[..|b| - 1], courseName);
      var last := b[|b| - 1];
      var kept := match Keep(last)
        case Raised(e) => Raised(e)
        case Ok(k) => Ok(if k then [ToRecord(last, courseName)] else []);
      AppendAssociative(Filter(a, courseName), Filter(b[..|b| - 1], courseName), kept);
    }
  }

  /** A single assignment gives its record when it is kept, nothing when it
      is not, and the exception when the condition raises. With
      `FilterConcat` this fixes the filter's result, repetitions included. */
  lemma FilterOne(a: Object, courseName: Json)
    ensures Filter([a], courseName) ==
      match Keep(a)
      case Raised(e) => Raised(e)
      case Ok(k) => Ok(if k then [ToRecord(a, courseName)] else [])
  {
    var kept := match Keep(a)
      case Raised(e) => Raised(e)
      case Ok(k) => Ok(if k then [ToRecord(a, courseName)] else []);
    assert [a][..0] == [] && [a][0] == a;
    assert Filter([a][..0], courseName) == Ok([]);
    assert Filter([a], courseName) == Append(Ok([]), kept);
    if kept.Ok? {
      assert [] + kept.value == kept.value;
    }
  }

  /** Some assignment of `items` makes the filter raise. */
  predicate RaisesIn(items: seq<Object>)
  {
    exists j :: 0 <= j < |items| && RaisesOn(items[j])
  }

  /** `x` is the record of some wanted assignment of `items`. */
  predicate KeptFrom(items: seq<Object>, courseName: Json, x: Record)
  {
    exists j :: 0 <= j < |items| && Wanted(items[j]) && x == ToRecord(items[j], courseName)
  }

  /** The filter holds exactly: it raises iff some assignment makes it raise,
      and otherwise it keeps precisely the wanted assignments, each tagged
      with the course name. */
  lemma {:induction false} FilterExact(assignments: seq<Object>, courseName: Json)
    ensures Filter(assignments, courseName).Raised? <==> RaisesIn(assignments)
    ensures Filter(assignments, courseName).Ok? ==>
      forall x :: x in Filter(assignments, courseName).value <==> KeptFrom(assignments, courseName, x)
    decreases |assignments|
  {
    if |assignments| > 0 {
      var n := |assignments|;
      var init := assignments[..n - 1];
      FilterExact(init, courseName);
      assert forall i :: 0 <= i < n - 1 ==> init[i] == assignments[i];
      if RaisesIn(init) {
        var i :| 0 <= i < n - 1 && RaisesOn(init[i]);
        assert RaisesOn(assignments[i]);
      }
      if Filter(assignments, courseName).Ok? {
        var r := Filter(assignments, courseName).value;
        forall x
          ensures x in r <==> KeptFrom(assignments, courseName, x)
        {
          if KeptFrom(assignments, courseName, x) {
            var i :| 0 <= i < n && Wanted(assignments[i]) && x == ToRecord(assignments[i], courseName);
            if i < n - 1 {
              assert init[i] == assignments[i];
            }
          }
        }
      }
    }
  }

  /** What `get_all_pages` returns for each URL. */
  type Fetch = string -> seq<Object>

  /** lambda.py:50-55: the assignments fetched for one course; none, and no
      request at all, when the course's id is falsy. */
  function CourseItems(fetch: Fetch, base: string, course: Object): seq<Object>
  {
    var id := Get(course, "id");
    if !Truthy(id) then [] else fetch(AssignmentsUrl(base, id))
  }

  /** lambda.py:46-71 for one course: its records, or the exception. */
  function CourseRecords(fetch: Fetch, base: string, course: Object): Result<seq<Record>>
  {
    Filter(CourseItems(fetch, base, course), CourseName(course))
  }

  function RecordsOf(fetch: Fetch, base: string): Object -> Result<seq<Record>>
  {
    (course: Object) => CourseRecords(fetch, base, course)
  }

  /** lambda.py:42-71: the records of all the courses in course order, or
      the first exception. */
  function Collect(fetch: Fetch, base: string, courses: seq<Object>): Result<seq<Record>>
  {
    Gather(RecordsOf(fetch, base), courses, |courses|)
  }

  /** The records of a list of courses are those of its first part followed
      by those of the rest: course order is kept. */
  lemma CollectConcat(fetch: Fetch, base: string, a: seq<Object>, b: seq<Object>)
    ensures Collect(fetch, base, a + b) ==
      Append(Collect(fetch, base, a), Collect(fetch, base, b))
  {
    GatherConcat(RecordsOf(fetch, base), a, b);
  }

  /** A single course gives exactly its own records. */
  lemma CollectOne(fetch: Fetch, base: string, course: Object)
    ensures Collect(fetch, base, [course]) == CourseRecords(fetch, base, course)
  {
    var r := CourseRecords(fetch, base, course);
    assert [course][0] == course;
    assert RecordsOf(fetch, base)(course) == r;
    assert Collect(fetch, base, [course]) == Append(Gather(RecordsOf(fetch, base), [course], 0), r);
    if r.Ok? {
      assert [] + r.value == r.value;
    }
  }

  /** A course with a falsy id adds nothing, whatever the server would have
      answered: it causes no request. */
  lemma SkippedCourse(fetch: Fetch, other: Fetch, base: string, courses: seq<Object>, course: Object)
    requires !Truthy(Get(course, "id"))
    ensures CourseItems(fetch, base, course) == [] == CourseItems(other, base, course)
    ensures Collect(fetch, base, courses + [course]) == Collect(fetch, base, courses)
  {
    var f := RecordsOf(fetch, base);
    GatherOfPrefix(f, courses, [course], |courses|);
    assert (courses + [course])[|courses|] == course;
    assert f(course) == Ok([]);
    AppendNothing(Collect(fetch, base, courses));
  }

  /** One course's records are exact: an exception iff one of its fetched
      assignments raises, and otherwise the wanted ones. */
  lemma CourseExact(fetch: Fetch, base: string, course: Object)
    ensures var r := RecordsOf(fetch, base)(course);
      var items := CourseItems(fetch, base, course);
      (r.Raised? <==> RaisesIn(items)) &&
      (r.Ok? ==> forall x :: x in r.value <==> KeptFrom(items, CourseName(course), x))
  {
    FilterExact(CourseItems(fetch, base, course), CourseName(course));
  }

  /** The collection is exact: it raises iff some fetched assignment makes the
      filter raise, and otherwise it holds precisely the wanted assignments
      of the courses with an id, each with its course's name. */
  lemma CollectExact(fetch: Fetch, base: string, courses: seq<Object>)
    ensures Collect(fetch, base, courses).Raised? <==>
      exists i :: 0 <= i < |courses| && RaisesIn(CourseItems(fetch, base, courses[i]))
    ensures Collect(fetch, base, courses).Ok? ==>
      forall x :: x in Collect(fetch, base, courses).value <==>
        exists i :: 0 <= i < |courses| && KeptFrom(CourseItems(fetch, base, courses[i]), CourseName(courses[i]), x)
  {
    var f := RecordsOf(fetch, base);
    GatherRaises(f, courses, |courses|);
    forall i | 0 <= i < |courses|
      ensures (f(courses[i]).Raised? <==> RaisesIn(CourseItems(fetch, base, courses[i]))) &&
        (f(courses[i]).Ok? ==> forall x :: x in f(courses[i]).value <==> KeptFrom(CourseItems(fetch, base, courses[i]), CourseName(courses[i]), x))
    {
      CourseExact(fetch, base, courses[i]);
    }
    if Collect(fetch, base, courses).Ok? {
      forall x
        ensures x in Collect(fetch, base, courses).value <==>
          exists i :: 0 <= i < |courses| && KeptFrom(CourseItems(fetch, base, courses[i]), CourseName(courses[i]), x)
      {
        GatherHolds(f, courses, |courses|, x);
      }
    }
  }

  /** lambda.py:64-71 for one course as the code runs it: the assignments in
      page order, each kept one appended as a record. */
  method FilterAssignments(assignments: seq<Object>, courseName: Json) returns (result: Result<seq<Record>>)
    ensures result == Filter(assignments, courseName)
  {
    var kept: seq<Record> := [];
    for k := 0 to |assignments|
      invariant Filter(assignments[..k], courseName) == Ok(kept)
    {
      var a := assignments[k];
      assert assignments[..k + 1][..k] == assignments[..k];
      var keep := Keep(a);
      if keep.Raised? {
        FilterConcat(assignments[..k + 1], assignments[k + 1..], courseName);
        assert assignments[..k + 1] + assignments[k + 1..] == assignments;
        return Raised(keep.error);
      }
      if keep.value {
        kept := kept + [ToRecord(a, courseName)];
      } else {
        assert kept + [] == kept;
      }
    }
    assert assignments[..|assignments|] == assignments;
    result := Ok(kept);
  }

  /** What `get_all_pages` returns for a URL whose chain ends within `bound`
      requests; a URL whose chain does not end is never returned from. */
  function FetchedBy(server: Server, bound: nat): Fetch
  {
    (u: string) => if Ends(server, Some(u), bound) then Pages(Chain(server, Some(u), bound)) else []
  }

  /** `fetch` answers as `get_all_pages` does for every URL whose chain ends. */
  ghost predicate Serves(server: Server, bound: nat, fetch: Fetch)
  {
    forall u :: Ends(server, Some(u), bound) ==> fetch(u) == Pages(Chain(server, Some(u), bound))
  }

  lemma FetchedByServes(server: Server, bound: nat)
    ensures Serves(server, bound, FetchedBy(server, bound))
  {
  }

  /** The chain of a course that has an id ends within `bound` requests. */
  predicate CourseEnds(server: Server, base: string, course: Object, bound: nat)
  {
    var id := Get(course, "id");
    Truthy(id) ==> Ends(server, Some(AssignmentsUrl(base, id)), bound)
  }

  /** The chain of every course the loop reaches ends: the loop reaches
      course `i` only when none of the courses before it raised. */
  predicate AllCoursesEnd(server: Server, base: string, courses: seq<Object>, bound: nat, fetch: Fetch)
  {
    forall i :: 0 <= i < |courses| && Gather(RecordsOf(fetch, base), courses, i).Ok? ==>
      CourseEnds(server, base, courses[i], bound)
  }

  /** The collection loop of lambda.py:42-71 as the code runs it: courses in
      order, each one's filtered assignments appended. An exception raised
      by the filter ends the whole loop. */
  method CollectAssignments(server: Server, base: string, courses: seq<Object>, ghost bound: nat, ghost fetch: Fetch)
    returns (result: Result<seq<Record>>)
    requires AllCoursesEnd(server, base, courses, bound, fetch) && Serves(server, bound, fetch)
    ensures result == Collect(fetch, base, courses)
  {
    var allAssignments: seq<Record> := [];
    for c := 0 to |courses|
      invariant Gather(RecordsOf(fetch, base), courses, c) == Ok(allAssignments)
    {
      var next := CollectStep(server, base, courses, c, allAssignments, bound, fetch);
      if next.Raised? {
        return next;
      }
      allAssignments := next.value;
    }
    result := Ok(allAssignments);
  }

  /** One turn of the collection loop: the records so far, followed by those
      of course `c`, or the exception its filter raises. */
  method CollectStep(server: Server, base: string, courses: seq<Object>, c: nat, allAssignments: seq<Record>,
                     ghost bound: nat, ghost fetch: Fetch)
    returns (next: Result<seq<Record>>)
    requires c < |courses| && Gather(RecordsOf(fetch, base), courses, c) == Ok(allAssignments)
    requires AllCoursesEnd(server, base, courses, bound, fetch) && Serves(server, bound, fetch)
    ensures next == Gather(RecordsOf(fetch, base), courses, c + 1)
    ensures next.Raised? ==> next == Collect(fetch, base, courses)
  {
    assert CourseEnds(server, base, courses[c], bound);
    var kept := CourseAssignments(server, base, courses[c], bound, fetch);
    next := Append(Ok(allAssignments), kept);
    if next.Raised? {
      GatherRaisedSticks(RecordsOf(fetch, base), courses, c + 1);
    }
  }

  /** lambda.py:46-71, the body of the loop: nothing, and no request, for a
      course without an id (the `continue`); otherwise the course's
      assignments filtered, in page order. */
  method CourseAssignments(server: Server, base: string, course: Object, ghost bound: nat, ghost fetch: Fetch)
    returns (kept: Result<seq<Record>>)
    requires CourseEnds(server, base, course, bound) && Serves(server, bound, fetch)
    ensures kept == CourseRecords(fetch, base, course)
  {
    var courseId := Get(course, "id");
    var courseName := CourseName(course);
    if !Truthy(courseId) {
      return Ok([]);
    }
    var assignments := GetAllPages(server, AssignmentsUrl(base, courseId), bound);
    assert assignments == CourseItems(fetch, base, course);
    kept := FilterAssignments(assignments, courseName);
  }
}
