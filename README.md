# Canvas assignment feed: a verified model

`lambda.py` is an AWS Lambda function. It turns a student's Canvas courses
into an iCalendar feed, in three steps:

- **Fetch.** It fetches the active courses, following the `Link` header
  from page to page (`get_all_pages`).
- **Collect.** For every course that has an id, it fetches that course's
  assignments. It keeps those with a due date or an assignment/quiz UID,
  and tags each kept assignment with its course's name.
- **Serialise.** It writes the kept assignments as a `VCALENDAR` document
  with one `VEVENT` block per dated assignment (`generate_ics`).

The handler answers 200 with the document. If the collection raised an
exception, it answers 500 with the exception's message as JSON.

The project models these steps in Dafny, one module per concern:

| file | module | what it holds |
|---|---|---|
| `values.dfy` | `Values` | decoded JSON scalars and objects; Python truthiness, `dict.get` and `str()`; the `Result` of a step that may raise; `Gather`, the run of one step per element, where the first exception wins |
| `text.dfy` | `Text` | the string operations the code relies on: `in`, `find`, slicing with Python's index rules, `split` and `replace` |
| `pagination.dfy` | `Pagination` | the `Link`-header parser and the page loop of `get_all_pages`, over an abstract server |
| `collection.dfy` | `Collection` | the filter at line 65, the per-course and all-course collection loops, and the records they build |
| `calendar.dfy` | `Calendar` | `generate_ics`, with date parsing, formatting and `hash` passed in as an environment |
| `handler.dfy` | `Handler` | `lambda_handler` without its logging: which reply it gives, and when |

Each loop of the source is a Dafny `method` with the same loop. Each method
is proved equal to a function that states the result outright:

- `GetAllPages` equals `Pages(Chain(...))`.
- `CollectAssignments` equals `Collect(...)`.
- `GenerateIcs` equals `Ics(...)`.
- `LambdaHandler` equals `Handle(...)`.

The properties the code promises are proved as lemmas about those functions.

### How the outside world enters the model

- **HTTP.** The HTTP client is a total function `Server` from URL to a
  `Response(status, body, link)`:
  - `body` is the decoded JSON array of objects;
  - `link` is the `Link` header, or `""` when there is none.
- **Termination.** The source loop ends only if the chain of next links
  does. Every entry point therefore requires `Ends(server, url, bound)`:
  within `bound` requests, some page fails or names no next URL. The
  `bound` is ghost; it proves termination and changes nothing the code
  does.
- **Which chains must end.** The handler requires this of the course
  listing. It also requires it of the assignment listing of each course the
  loop reaches, that is, each course with an id none of whose predecessors
  raised (`Collection.AllCoursesEnd`). The source never fetches the courses
  after the first exception, so their chains may be anything.
- **The Python runtime.** `datetime.fromisoformat`, `strftime` and `hash`
  are the three fields of `Calendar.Env`:
  - a partial parser (`None` where Python raises `ValueError`);
  - a formatter;
  - a hash.
- **Configuration.** The configuration constants become the `base`
  parameter. The access token only goes into a request header, which the
  abstract server does not see.

## Model

| member | source | states |
|---|---|---|
| Values.Truthy | lambda.py:50 | definition of Python truthiness of a JSON scalar, as used by `not course_id`, `a.get("due_at") or ...` and `not a.get("due_at")` |
| Values.Get | lambda.py:46 | definition of `dict.get(key)`: a missing key reads as `None` |
| Values.GetOr | lambda.py:47 | definition of `dict.get(key, default)`: the default only for a missing key, not for a present `null` |
| Values.Str | lambda.py:54 | definition of `str()` of a scalar as an f-string placeholder writes it: `None`, `True`/`False`, decimal digits with a leading `-`, the string itself |
| Text.Contains | lambda.py:122 | definition of `pat in s` as a prefix test at each offset |
| Text.Split | lambda.py:123 | definition of `s.split(",")` for one separator character; "" splits to `[""]` |
| Pagination.Target | lambda.py:126 | definition of `part[part.find("<") + 1: part.find(">")]` with Python's `find` and slice rules |
| Pagination.NextLink | lambda.py:120-127 | definition of the next URL: None without `rel="next"` in the header, else the target of the first comma-separated part containing it, else None |
| Pagination.Present | lambda.py:106 | definition of `while next_url:`: the loop goes on only for a URL that is neither `None` nor "", so an empty target ends it |
| Pagination.Ends | lambda.py:106-128 | definition of a chain that ends within `bound` requests: an absent or empty URL, or a non-200, or a 200 whose next link ends within one fewer |
| Pagination.Chain | lambda.py:106-128 | definition of the responses the loop receives: none for an absent or empty URL, the response alone for a non-200, the response followed by the chain of its next link for a 200 |
| Pagination.Pages | lambda.py:111-117 | definition of the items `extend` adds: the bodies of the 200 responses in order |
| Collection.CoursesUrl | lambda.py:38 | definition of the course-listing URL |
| Collection.AssignmentsUrl | lambda.py:54 | definition of a course's assignment-listing URL, with the id written by `str()` |
| Collection.CourseName | lambda.py:47 | definition of `course.get("name", "Unnamed Course")` |
| Collection.UidOperand | lambda.py:65 | definition of `a.get("UID", "") or ""` |
| Collection.In | lambda.py:65 | definition of `needle in v`: a substring test for a string, a TypeError naming `v` otherwise |
| Collection.Wanted | lambda.py:65 | definition of what the condition selects: a truthy `due_at`, or a string UID containing "assignment" or "quiz" |
| Collection.RaisesOn | lambda.py:65 | definition of when the condition raises: a falsy `due_at` with a truthy UID that is not a string |
| Collection.ToRecord | lambda.py:66-71 | definition of the four-field record built for a kept assignment |
| Collection.Filter | lambda.py:64-71 | definition of one course's inner loop: the records of kept assignments in order, or the first exception |
| Collection.CourseItems | lambda.py:50-55 | definition of a course's fetched assignments: none, and no request, for a falsy id |
| Collection.CourseRecords | lambda.py:46-71 | definition of one course's records: its fetched assignments, filtered under its name |
| Collection.FetchedBy | lambda.py:55 | definition of what `get_all_pages` hands the loop: the pages of the URL's chain when that chain ends within `bound` requests; `[]` otherwise, a case the handler's requirement keeps it from reaching |
| Collection.CourseEnds | lambda.py:50-55 | definition of the termination assumption for one course: a course with a truthy id has an assignment chain that ends within `bound` requests |
| Collection.AllCoursesEnd | lambda.py:45-71 | definition of the termination assumption for the outer loop: every course the loop reaches, that is every course before which no course raised, meets CourseEnds |
| Collection.Collect | lambda.py:45-71 | definition of the outer loop: the courses' records in course order, or the first exception |
| Calendar.DueDate | lambda.py:146-148 | definition of a record's event date: none for a falsy `due_at` (the `continue`), for a non-string one (the AttributeError of `.replace`, caught at line 158) and for one that does not parse (the ValueError of `fromisoformat`); otherwise the parse of `due_at` with every `Z` replaced by `+00:00` |
| Calendar.Uid | lambda.py:149 | definition of the UID: the decimal hash of `html_url` followed by `@canvas` |
| Calendar.Block | lambda.py:150-157 | definition of the eight lines of a VEVENT block, one timestamp for DTSTAMP and DTSTART |
| Calendar.Event | lambda.py:146-157 | definition of one record's lines: its block when it has a date, none otherwise |
| Calendar.Terminated | lambda.py:140-161 | definition of what the `write` calls produce: each line followed by "\n", in order |
| Calendar.Events | lambda.py:144-157 | definition of the event lines of all records, record by record in input order |
| Calendar.Lines | lambda.py:140-161 | definition of every line written: the three header lines, the events, `END:VCALENDAR` |
| Calendar.Ics | lambda.py:139-162 | definition of the returned text: header lines, events, footer, each line ended by "\n" |
| Handler.TypeName | lambda.py:94 | definition of `type(v).__name__` for a JSON scalar: `NoneType`, `bool`, `int`, `str` |
| Handler.Courses | lambda.py:38-39 | definition of the active courses: the pages of the course-listing chain |
| Handler.Terminates | lambda.py:38-71 | definition of the handler's termination assumption: the course-listing chain ends, and so does every course chain the loop reaches (AllCoursesEnd) |
| Handler.Message | lambda.py:94 | definition of `str(e)` for the TypeError of `needle in v` |
| Handler.ErrorBody | lambda.py:94 | definition of `json.dumps({"error": str(e)})` |
| Handler.Handle | lambda.py:33-95 | definition of the reply: 500 with the error body when the collection raised, 200 with the calendar headers and text otherwise |
| Text.Find | lambda.py:126 | `find` gives -1 exactly when the character is absent; otherwise it gives the index of its first occurrence |
| Text.Slice | lambda.py:126 | `s[i:j]` by Python's rules: in-range bounds are plain slicing; a negative end counts from the end; crossed bounds give "", also when they cross only once a negative end is counted from the end (`"ab<"[3:-1]`) |
| Text.ContainsIffOccurs | lambda.py:122 | `pat in s` holds exactly when `pat` occurs at some offset of `s` |
| Text.JoinSplit | lambda.py:123 | joining the parts of `split(",")` with "," gives the header back, so no character is lost or added |
| Text.SplitAtSep | lambda.py:123 | splitting at a separator splits each side independently |
| Text.ContainsSomePiece | lambda.py:122-125 | if the header contains the comma-free `rel="next"`, some comma-separated part contains it, so the scan at line 124 always finds a part |
| Text.ReplaceAll | lambda.py:148 | `replace` leaves a string without the target unchanged; a replacement without the target leaves none behind |
| Pagination.FirstWith | lambda.py:124-127 | the scan gives nothing iff no part contains `rel="next"`; otherwise it gives the first part that does |
| Pagination.NextLinkFirstPart | lambda.py:120-127 | a next URL is found iff the header contains `rel="next"`; it is the target of the first part that contains it |
| Pagination.NextLinkIgnoresLater | lambda.py:123-127 | entries after the first one with `rel="next"` do not change the next URL |
| Pagination.NextLinkSkipsEarlier | lambda.py:123-127 | entries before it that lack `rel="next"` do not change the next URL |
| Pagination.TargetOfBracketed | lambda.py:126 | a part `pre<url>post` with no `<` or `>` before the URL and no `>` inside it yields exactly `url` |
| Pagination.TargetWithoutClose | lambda.py:126 | without a `>`, `find` gives -1 and the slice drops the part's last character; when the only `<` is the last character the target is "", which ends the loop at lambda.py:106 |
| Pagination.NextLinkOfEntry | lambda.py:120-127 | a single well-formed `<url>; rel="next"` entry names `url` |
| Pagination.ChainFollowsLinks | lambda.py:103-128 | the first request is for the start URL, and each later request is for the next URL named by the previous 200 response; the last response failed or named no next URL |
| Pagination.ErrorEndsPagination | lambda.py:111-113 | a non-200 response is the last; its body is not added, and the items of all earlier pages are |
| Pagination.AllSuccess | lambda.py:106-117 | when every response is a 200, the result is every page's items in order, and its length is the sum of the page sizes |
| Pagination.PagesStep | lambda.py:106-128 | one turn of the loop: a non-200 adds nothing more; a 200 adds its body, followed by the items from the next URL on |
| Pagination.ParseNextUrl | lambda.py:120-127 | the loop over the parts, with its early `break`, computes `NextLink` |
| Pagination.GetAllPages | lambda.py:98-131 | the result is the in-order concatenation of the bodies of the 200 responses in the chain, and nothing else |
| Collection.Keep | lambda.py:65 | the condition raises exactly on a falsy `due_at` with a truthy non-string `UID`; otherwise it is true exactly for the wanted assignments |
| Collection.FilterConcat | lambda.py:64-71 | filtering a concatenation filters each part in order; the first exception wins |
| Collection.FilterOne | lambda.py:64-71 | one assignment gives its record when kept, nothing when not, and the exception when the condition raises; with `FilterConcat` this fixes the result, multiplicities included |
| Collection.FilterExact | lambda.py:64-71 | one course's filter raises iff one of its assignments makes it raise; otherwise it keeps precisely the records of the wanted assignments, tagged with the course name |
| Collection.FilterAssignments | lambda.py:64-71 | the inner loop computes `Filter`: kept records in page order, or the first exception |
| Collection.CourseExact | lambda.py:46-71 | the same for one course: its fetched items and its name, which defaults to "Unnamed Course" |
| Collection.CollectConcat | lambda.py:45-71 | the records of a course list are those of its first part followed by those of the rest, so course order is kept |
| Collection.CollectOne | lambda.py:45-71 | a single course gives exactly its own records; with `CollectConcat` this fixes the whole result |
| Collection.SkippedCourse | lambda.py:50-52 | a course with a falsy id contributes nothing and its items do not depend on the server, so no request is made |
| Collection.CollectExact | lambda.py:45-71 | the collection raises iff some fetched assignment makes the filter raise; otherwise it holds precisely the wanted assignments of the courses, each with its course's name |
| Collection.CourseAssignments | lambda.py:46-71 | one turn of the outer loop computes the course's records: nothing for a falsy id; otherwise its fetched pages, filtered |
| Collection.CollectStep | lambda.py:45-71 | after course `c`, the records so far are those of the first `c + 1` courses; an exception is that of the whole collection |
| Collection.CollectAssignments | lambda.py:45-71 | the nested loops compute `Collect` of what `get_all_pages` returns for each course |
| Calendar.EventsConcat | lambda.py:144-157 | events come in input order: the events of a concatenation are those of its parts |
| Calendar.SkippedRecord | lambda.py:146-148 | a record without a parseable date adds no text, wherever it stands |
| Calendar.EventShape | lambda.py:150-157 | a dated record adds exactly an eight-line block from `BEGIN:VEVENT` to `END:VEVENT`, whose DTSTAMP and DTSTART values are identical |
| Calendar.ZuluSuffix | lambda.py:148 | a trailing `Z` and an explicit `+00:00` parse the same |
| Calendar.Envelope | lambda.py:139-162 | the text is the three header lines, the events, then `END:VCALENDAR\n` |
| Calendar.OnlyEnvelope | lambda.py:139-162 | the text is the bare envelope iff no record has a date, in particular for an empty input |
| Calendar.OneEventPerDatedRecord | lambda.py:144-157 | the number of `BEGIN:VEVENT` lines equals the number of dated records |
| Calendar.IcsLines | lambda.py:139-162 | when no field holds a newline, splitting the text at "\n" gives exactly the calendar's lines |
| Calendar.GenerateIcs | lambda.py:134-162 | the writes to the buffer produce `Ics`: envelope, and the events in input order |
| Handler.FailsIff | lambda.py:33-95 | the handler answers 500 iff some fetched assignment makes the filter raise; otherwise it answers 200 |
| Handler.FailureMessage | lambda.py:89-95 | the 500 body is the JSON object carrying the exception's message, which names a `bool` or an `int` |
| Handler.RaisedOperand | lambda.py:65 | the operand of the raised TypeError is a truthy UID that is not a string |
| Handler.RefusedListingGivesEmptyCalendar | lambda.py:38-39 | a refused course listing (a 401, say) is not an error: the answer is 200 with the bare envelope |
| Handler.RefusingServerTerminates | lambda.py:98-131 | the handler's requirement can be met: against a server that refuses every request, the course listing ends after one request and no course is reached |
| Handler.LambdaHandler | lambda.py:33-95 | the handler's steps compute `Handle`: the 200 reply with the calendar headers and text, or the 500 reply |

## Left out

- HTTP and JSON decoding (`requests.get`, `response.json()`, lambda.py:108-115) are the abstract `Server`.
- Response bodies are lists of objects with scalar values. Nested arrays, nested objects and floats are not modelled, and a body that is not a list is not considered.
- The request headers and the access token are not modelled. They do not affect what the loop does with the responses.
- Logging (`print`, `traceback`) and the `context` inspection are not modelled; they only observe the run.
- The `page` counter (lambda.py:104, 128) is not modelled; it is used only in log lines.
- `hash`, `datetime.fromisoformat` and `strftime` are opaque fields of `Env`. ISO 8601 parsing and time-zone arithmetic are not modelled.
- The code appends a literal `Z` after formatting and does not convert other offsets to UTC; the model makes no claim of UTC normalisation.
- Calendar.GenerateIcs: assumes `strftime` never raises. In the source, a raise at line 152 would leave the already-written `BEGIN:VEVENT` and `UID` lines in the buffer.
- The output is modelled as the code writes it: "\n" line ends rather than the CRLF of section 3.1 of RFC 5545, and no text escaping (section 3.3.11).
- Handler.Message: follows CPython 3.12's wording of the TypeError (`argument of type 'int' is not iterable`). Other Python versions word it differently.
- Exceptions other than the filter's TypeError are not modelled. For example, an `AttributeError` from a course that is not a dict cannot arise, because bodies are lists of objects.
- `get_all_pages` on a link chain that never ends (a cycle) runs forever in the source. The model requires the chain to end within `bound` requests and says nothing about the other case.
- The server is a pure function of the URL, so the model assumes the same URL always gets the same answer. A real server could answer a repeated URL differently: two courses with the same id could then get different assignments, and a link cycle could be broken by a changed answer.
- The configuration constants (lambda.py:7-8) are the `base` parameter.
- The 500 reply has no `headers` entry in the source; it is modelled as an empty header map.
