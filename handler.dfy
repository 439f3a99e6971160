/** `lambda_handler` (lambda.py:11-95) without its logging: fetch the active
    courses, collect the wanted assignments of each, and answer with the
    calendar, or with a 500 carrying the message of the exception that ended
    the run. */
module Handler {
  import opened Values
  import opened Pagination
  import opened Collection
  import opened Calendar

  /** The dict the handler returns to the Lambda runtime. The 500 answer has
      no `headers` entry, written here as an empty map. */
  datatype Reply = Reply(statusCode: int, headers: map<string, string>, body: string)

  /** lambda.py:82-85. */
  const CALENDAR_HEADERS: map<string, string> :=
    map["Content-Type" := "text/calendar", "Content-Disposition" := "inline; filename=assignments.ics"]

  /** `type(v).__name__`. */
  function TypeName(v: Json): string
  {
    match v
    case JNull => "NoneType"
    case JBool(_) => "bool"
    case JInt(_) => "int"
    case JStr(_) => "str"
  }

  /** `str(e)` for the TypeError of `needle in v`, in CPython 3.12's words. */
  function Message(e: Error): string
  {
    "argument of type '" + TypeName(e.operand) + "' is not iterable"
  }

  /** lambda.py:94: `json.dumps({"error": str(e)})`. The message holds no
      character that JSON escapes. */
  function ErrorBody(e: Error): string
  {
    "{\"error\": \"" + Message(e) + "\"}"
  }

  /** Every chain the handler follows ends: the course listing's and, for each
      listed course with an id that the loop reaches before an exception, its
      assignment listing's. */
  predicate Terminates(server: Server, base: string, bound: nat)
  {
    Ends(server, Some(CoursesUrl(base)), bound) &&
    AllCoursesEnd(server, base, Pages(Chain(server, Some(CoursesUrl(base)), bound)), bound, FetchedBy(server, bound))
  }

  /** lambda.py:38-39: the active courses. */
  function Courses(server: Server, base: string, bound: nat): seq<Object>
    requires Ends(server, Some(CoursesUrl(base)), bound)
  {
    Pages(Chain(server, Some(CoursesUrl(base)), bound))
  }

  /** What the handler answers. */
  function Handle<D>(server: Server, env: Env<D>, base: string, bound: nat): Reply
    requires Terminates(server, base, bound)
  {
    match Collect(FetchedBy(server, bound), base, Courses(server, base, bound))
    case Raised(e) => Reply(500, map[], ErrorBody(e))
    case Ok(records) => Reply(200, CALENDAR_HEADERS, Ics(env, records))
  }

  /** The handler fails exactly when some fetched assignment makes the filter
      raise; otherwise it answers 200 with the calendar. */
  lemma FailsIff<D>(server: Server, env: Env<D>, base: string, bound: nat)
    requires Terminates(server, base, bound)
    ensures var fetch := FetchedBy(server, bound);
      var courses := Courses(server, base, bound);
      (Handle(server, env, base, bound).statusCode == 500 <==>
         exists i :: 0 <= i < |courses| && RaisesIn(CourseItems(fetch, base, courses[i]))) &&
      (Handle(server, env, base, bound).statusCode in {200, 500})
  {
    CollectExact(FetchedBy(server, bound), base, Courses(server, base, bound));
  }

  /** A failure's message names the type of the offending UID, which is a
      bool or an int. */
  lemma FailureMessage<D>(server: Server, env: Env<D>, base: string, bound: nat)
    requires Terminates(server, base, bound)
    requires Handle(server, env, base, bound).statusCode == 500
    ensures var e := Collect(FetchedBy(server, bound), base, Courses(server, base, bound)).error;
      Handle(server, env, base, bound).body == ErrorBody(e) && TypeName(e.operand) in {"bool", "int"}
  {
    RaisedOperand(FetchedBy(server, bound), base, Courses(server, base, bound));
  }

  /** The exception the collection raises names a truthy UID that is not a
      string: a bool or a non-zero int. */
  lemma RaisedOperand(fetch: Fetch, base: string, courses: seq<Object>)
    requires Collect(fetch, base, courses).Raised?
    ensures var v := Collect(fetch, base, courses).error.operand;
      Truthy(v) && !v.JStr? && !v.JNull?
  {
    var f := RecordsOf(fetch, base);
    GatherRaises(f, courses, |courses|);
    var i :| 0 <= i < |courses| && f(courses[i]) == Collect(fetch, base, courses) &&
      forall k :: 0 <= k < i ==> f(courses[k]).Ok?;
    FilterOperand(CourseItems(fetch, base, courses[i]), CourseName(courses[i]));
  }

  lemma {:induction false} FilterOperand(assignments: seq<Object>, courseName: Json)
    requires Filter(assignments, courseName).Raised?
    ensures var v := Filter(assignments, courseName).error.operand;
      Truthy(v) && !v.JStr?
    decreases |assignments|
  {
    var n := |assignments|;
    if Filter(assignments[..n - 1], courseName).Raised? {
      FilterOperand(assignments[..n - 1], courseName);
    } else {
      var a := assignments[n - 1];
      assert Keep(a).Raised?;
      assert UidOperand(a) == GetOr(a, "UID", JStr(""));
    }
  }

  /** A refused course listing (an expired token's 401, say) is not an error:
      the handler answers 200 with a calendar that holds no event. */
  lemma RefusedListingGivesEmptyCalendar<D>(server: Server, env: Env<D>, base: string, bound: nat)
    requires Terminates(server, base, bound)
    requires server(CoursesUrl(base)).status != 200
    ensures Handle(server, env, base, bound) == Reply(200, CALENDAR_HEADERS, PREAMBLE + CLOSING)
  {
    var courses := Courses(server, base, bound);
    assert |CoursesUrl(base)| > 0;
    assert Chain(server, Some(CoursesUrl(base)), bound) == [server(CoursesUrl(base))];
    assert Pages([server(CoursesUrl(base))]) == [] + Pages([]);
    OnlyEnvelope(env, []);
  }

  /** A server that refuses every request (an expired token, say) meets the
      handler's requirement with a single request. */
  lemma RefusingServerTerminates(base: string)
    ensures Terminates((u: string) => Response(401, [], ""), base, 1)
  {
    var server := (u: string) => Response(401, [], "");
    assert |CoursesUrl(base)| > 0;
    assert Chain(server, Some(CoursesUrl(base)), 1) == [server(CoursesUrl(base))];
    assert Pages([server(CoursesUrl(base))]) == [] + Pages([]);
  }

  /** lambda.py:33-95 as the code runs it. */
  method LambdaHandler<D>(server: Server, env: Env<D>, base: string, ghost bound: nat) returns (reply: Reply)
    requires Terminates(server, base, bound)
    ensures reply == Handle(server, env, base, bound)
  {
    var courses := GetAllPages(server, CoursesUrl(base), bound);
    FetchedByServes(server, bound);
    var allAssignments := CollectAssignments(server, base, courses, bound, FetchedBy(server, bound));
    if allAssignments.Raised? {
      return Reply(500, map[], ErrorBody(allAssignments.error));
    }
    var icsData := GenerateIcs(env, allAssignments.value);
    reply := Reply(200, CALENDAR_HEADERS, icsData);
  }
}
