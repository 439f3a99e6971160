/** `generate_ics` (lambda.py:134-162): the collected records written as an
    iCalendar document, one line at a time, each line ended by "\n". */
module Calendar {
  import opened Values
  import opened Text
  import opened Collection

  /** The parts of the Python runtime the serializer calls without this model
      looking inside them: `datetime.fromisoformat` (None where it raises
      ValueError), `strftime('%Y%m%dT%H%M%SZ')` on the parsed date, and the
      built-in `hash`. */
  datatype Env<!D> = Env(fromIsoFormat: string -> Option<D>, strftime: D -> string, hash: Json -> int)

  /** lambda.py:140-142: the three lines that open every calendar. */
  const HEADER: seq<string> := ["BEGIN:VCALENDAR", "VERSION:2.0", "PRODID:-//Canvas Assignment Feed//EN"]

  /** lambda.py:161: the line that closes every calendar. */
  const FOOTER := "END:VCALENDAR"

  const BEGIN_EVENT := "BEGIN:VEVENT"
  const END_EVENT := "END:VEVENT"

  /** The text that opens and the text that closes every calendar. `PREAMBLE`
      is `HEADER` terminated (PreambleText) spelled out as one literal, so that
      the statements about whole documents read as plain text and do not make
      the solver unfold `Terminated` three times at every use. */
  const PREAMBLE := "BEGIN:VCALENDAR\n" + "VERSION:2.0\n" + "PRODID:-//Canvas Assignment Feed//EN\n"
  const CLOSING := FOOTER + "\n"

  /** The lines written one after another, each followed by "\n". */
  function Terminated(lines: seq<string>): string
    decreases |lines|
  {
    if |lines| == 0 then "" else Terminated(lines[..|lines| - 1]) + (lines[|lines| - 1] + "\n")
  }

  /** lambda.py:146-148: the date of a record's event, or None when the record
      is skipped: `due_at` is falsy (the `continue`), is not a string (the
      AttributeError of `.replace`), or does not parse (the ValueError of
      `fromisoformat`). The exception handler of lines 158-159 only logs, so
      every such record is skipped before anything is written for it. */
  function DueDate<D>(env: Env<D>, dueAt: Json): Option<D>
  {
    if !Truthy(dueAt) || !dueAt.JStr? then None
    else env.fromIsoFormat(ReplaceAll(dueAt.s, 'Z', "+00:00"))
  }

  /** lambda.py:149: the event's UID. */
  function Uid<D>(env: Env<D>, htmlUrl: Json): string
  {
    Str(JInt(env.hash(htmlUrl))) + "@canvas"
  }

  /** lambda.py:150-157: the eight lines of a VEVENT block; the one
      timestamp is used for both DTSTAMP and DTSTART. */
  function Block(uid: string, stamp: string, summary: string, description: string, url: string): seq<string>
  {
    [BEGIN_EVENT,
     "UID:" + uid,
     "DTSTAMP:" + stamp,
     "DTSTART:" + stamp,
     "SUMMARY:" + summary,
     "DESCRIPTION:" + description,
     "URL:" + url,
     END_EVENT]
  }

  /** The lines of one record's event: its block, or none for a skipped
      record. */
  function Event<D>(env: Env<D>, a: Record): seq<string>
  {
    match DueDate(env, a.dueAt)
    case None => []
    case Some(due) => Block(Uid(env, a.htmlUrl), env.strftime(due), Str(a.name), Str(a.courseName), Str(a.htmlUrl))
  }

  /** The lines `lines` gives each record, one record after another. */
  function Flatten(lines: Record -> seq<string>, xs: seq<Record>): seq<string>
    decreases |xs|
  {
    if |xs| == 0 then [] else Flatten(lines, xs[..|xs| - 1]) + lines(xs[|xs| - 1])
  }

  function EventOf<D>(env: Env<D>): Record -> seq<string>
  {
    a => Event(env, a)
  }

  /** The event blocks of the records, in input order. */
  function Events<D>(env: Env<D>, assignments: seq<Record>): seq<string>
  {
    Flatten(EventOf(env), assignments)
  }

  lemma {:induction false} FlattenConcat(lines: Record -> seq<string>, a: seq<Record>, b: seq<Record>)
    ensures Flatten(lines, a + b) == Flatten(lines, a) + Flatten(lines, b)
    decreases |b|
  {
    if |b| == 0 {
      assert a + b == a;
    } else {
      var n := |a + b|;
      assert (a + b)[..n - 1] == a + b[..|b| - 1];
      assert (a + b)[n - 1] == b[|b| - 1];
      FlattenConcat(lines, a, b[..|b| - 1]);
    }
  }

  lemma {:induction false} FlattenEmpty(lines: Record -> seq<string>, xs: seq<Record>)
    ensures Flatten(lines, xs) == [] <==> forall i :: 0 <= i < |xs| ==> lines(xs[i]) == []
    decreases |xs|
  {
    if |xs| > 0 {
      var n := |xs|;
      var init := xs[..n - 1];
      FlattenEmpty(lines, init);
      assert forall i :: 0 <= i < n - 1 ==> init[i] == xs[i];
    }
  }

  /** Every line of the calendar. */
  function Lines<D>(env: Env<D>, assignments: seq<Record>): seq<string>
  {
    HEADER + Events(env, assignments) + [FOOTER]
  }

  /** The text `generate_ics` returns. */
  function Ics<D>(env: Env<D>, assignments: seq<Record>): string
  {
    Terminated(Lines(env, assignments))
  }

  /** A record gets an event exactly when it keeps a date. */
  predicate Emits<D>(env: Env<D>, a: Record)
  {
    DueDate(env, a.dueAt).Some?
  }

  lemma {:induction false} TerminatedConcat(a: seq<string>, b: seq<string>)
    ensures Terminated(a + b) == Terminated(a) + Terminated(b)
    decreases |b|
  {
    if |b| == 0 {
      assert a + b == a;
    } else {
      var n := |b|;
      assert (a + b)[..|a + b| - 1] == a + b[..n - 1];
      TerminatedConcat(a, b[..n - 1]);
    }
  }

  lemma TerminatedSnoc(lines: seq<string>, line: string)
    ensures Terminated(lines + [line]) == Terminated(lines) + (line + "\n")
  {
    assert (lines + [line])[..|lines|] == lines;
  }

  lemma TerminatedOne(line: string)
    ensures Terminated([line]) == line + "\n"
  {
    TerminatedSnoc([], line);
  }

  /** The events of a concatenation are those of its parts, in order: no
      event is dropped, added or moved. */
  lemma EventsConcat<D>(env: Env<D>, a: seq<Record>, b: seq<Record>)
    ensures Events(env, a + b) == Events(env, a) + Events(env, b)
  {
    FlattenConcat(EventOf(env), a, b);
  }

  /** A record without a date adds no text, wherever it stands. */
  lemma SkippedRecord<D>(env: Env<D>, a: seq<Record>, r: Record, b: seq<Record>)
    requires !Emits(env, r)
    ensures Ics(env, a + [r] + b) == Ics(env, a + b)
  {
    EventsConcat(env, a + [r], b);
    EventsConcat(env, a, [r]);
    EventsConcat(env, a, b);
    assert Events(env, [r]) == Events(env, [][..0]) + Event(env, r);
    assert Events(env, a) + [] == Events(env, a);
  }

  /** A record with a date adds exactly one `BEGIN:VEVENT` ... `END:VEVENT`
      block, whose DTSTAMP and DTSTART agree. */
  lemma EventShape<D>(env: Env<D>, a: Record)
    requires Emits(env, a)
    ensures var ev := Event(env, a);
      |ev| == 8 && ev[0] == BEGIN_EVENT && ev[7] == END_EVENT &&
      ev[2][..8] == "DTSTAMP:" && ev[3][..8] == "DTSTART:" && ev[2][8..] == ev[3][8..]
  {
    var ev := Event(env, a);
    var stamp := env.strftime(DueDate(env, a.dueAt).value);
    assert ev[2] == "DTSTAMP:" + stamp && ev[3] == "DTSTART:" + stamp;
  }

  /** A trailing 'Z' and an explicit "+00:00" give the same date. */
  lemma ZuluSuffix<D>(env: Env<D>, s: string)
    ensures DueDate(env, JStr(s + "Z")) == DueDate(env, JStr(s + "+00:00"))
  {
    ZuluReplace(s);
  }

  lemma ZuluReplace(s: string)
    ensures ReplaceAll(s + "Z", 'Z', "+00:00") == ReplaceAll(s + "+00:00", 'Z', "+00:00")
  {
    var utc := "+00:00";
    ReplaceAllConcat(s, "Z", 'Z', utc);
    ReplaceAllConcat(s, utc, 'Z', utc);
    ZuluReplaced();
  }

  lemma ZuluReplaced()
    ensures ReplaceAll("Z", 'Z', "+00:00") == "+00:00"
    ensures ReplaceAll("+00:00", 'Z', "+00:00") == "+00:00"
  {
    assert "Z"[1..] == "";
    assert 'Z' !in "+00:00";
  }

  /** Every calendar opens with the three header lines and closes with
      `END:VCALENDAR`, with the events in between. */
  lemma Envelope<D>(env: Env<D>, assignments: seq<Record>)
    ensures Ics(env, assignments) == PREAMBLE + Terminated(Events(env, assignments)) + CLOSING
  {
    var ev := Events(env, assignments);
    TerminatedSnoc(HEADER + ev, FOOTER);
    TerminatedConcat(HEADER, ev);
    PreambleText();
  }

  lemma EventEmpty<D>(env: Env<D>, a: Record)
    ensures Event(env, a) == [] <==> !Emits(env, a)
  {
  }

  lemma EventsEmpty<D>(env: Env<D>, assignments: seq<Record>)
    ensures Events(env, assignments) == [] <==>
      forall i :: 0 <= i < |assignments| ==> !Emits(env, assignments[i])
  {
    FlattenEmpty(EventOf(env), assignments);
    forall i | 0 <= i < |assignments|
      ensures EventOf(env)(assignments[i]) == [] <==> !Emits(env, assignments[i])
    {
      EventEmpty(env, assignments[i]);
    }
  }

  lemma TerminatedEmpty(lines: seq<string>)
    ensures Terminated(lines) == "" <==> lines == []
  {
    if lines != [] {
      assert |Terminated(lines)| > 0;
    }
  }

  /** The calendar is the bare envelope exactly when no record has a date; in
      particular an empty input gives only the envelope. */
  lemma OnlyEnvelope<D>(env: Env<D>, assignments: seq<Record>)
    ensures Ics(env, assignments) == PREAMBLE + CLOSING <==>
      forall i :: 0 <= i < |assignments| ==> !Emits(env, assignments[i])
  {
    Envelope(env, assignments);
    EventsEmpty(env, assignments);
    var t := Terminated(Events(env, assignments));
    TerminatedEmpty(Events(env, assignments));
    if Ics(env, assignments) == PREAMBLE + CLOSING {
      assert |PREAMBLE + t + CLOSING| == |PREAMBLE + CLOSING| + |t|;
    }
  }

  /** How many times `line` occurs among `lines`. */
  function Count(lines: seq<string>, line: string): nat
    decreases |lines|
  {
    if |lines| == 0 then 0 else (if lines[0] == line then 1 else 0) + Count(lines[1..], line)
  }

  lemma {:induction false} CountConcat(a: seq<string>, b: seq<string>, line: string)
    ensures Count(a + b, line) == Count(a, line) + Count(b, line)
    decreases |a|
  {
    if |a| == 0 {
      assert a + b == b;
    } else {
      assert (a + b)[1..] == a[1..] + b;
      CountConcat(a[1..], b, line);
    }
  }

  /** How many of the records have a date. */
  function Dated<D>(env: Env<D>, assignments: seq<Record>): nat
    decreases |assignments|
  {
    if |assignments| == 0 then 0
    else Dated(env, assignments[..|assignments| - 1]) + (if Emits(env, assignments[|assignments| - 1]) then 1 else 0)
  }

  lemma {:induction false} CountNone(lines: seq<string>, line: string)
    requires forall k :: 0 <= k < |lines| ==> lines[k] != line
    ensures Count(lines, line) == 0
    decreases |lines|
  {
    if |lines| > 0 {
      CountNone(lines[1..], line);
    }
  }

  /** Only the first line of a block opens an event. */
  lemma BlockOpensOnce(uid: string, stamp: string, summary: string, description: string, url: string)
    ensures Count(Block(uid, stamp, summary, description, url), BEGIN_EVENT) == 1
  {
    var b := Block(uid, stamp, summary, description, url);
    assert forall k :: 1 <= k < 7 ==> b[k][0] != 'B';
    CountNone(b[1..], BEGIN_EVENT);
  }

  lemma EventOpensOnce<D>(env: Env<D>, a: Record)
    ensures Count(Event(env, a), BEGIN_EVENT) == if Emits(env, a) then 1 else 0
  {
    if Emits(env, a) {
      var due := DueDate(env, a.dueAt).value;
      BlockOpensOnce(Uid(env, a.htmlUrl), env.strftime(due), Str(a.name), Str(a.courseName), Str(a.htmlUrl));
    }
  }

  /** One VEVENT block per dated record and no other. */
  lemma {:induction false} OneEventPerDatedRecord<D>(env: Env<D>, assignments: seq<Record>)
    ensures Count(Lines(env, assignments), BEGIN_EVENT) == Dated(env, assignments)
  {
    EventsCount(env, assignments);
    CountConcat(HEADER + Events(env, assignments), [FOOTER], BEGIN_EVENT);
    CountConcat(HEADER, Events(env, assignments), BEGIN_EVENT);
    assert HEADER[1..][1..][1..] == [];
    assert [FOOTER][1..] == [];
  }

  lemma {:induction false} EventsCount<D>(env: Env<D>, assignments: seq<Record>)
    ensures Count(Events(env, assignments), BEGIN_EVENT) == Dated(env, assignments)
    decreases |assignments|
  {
    if |assignments| > 0 {
      var n := |assignments|;
      EventsCount(env, assignments[..n - 1]);
      CountConcat(Events(env, assignments[..n - 1]), Event(env, assignments[n - 1]), BEGIN_EVENT);
      EventOpensOnce(env, assignments[n - 1]);
    }
  }

  /** Splitting the written text at "\n" gives the lines back, plus the empty
      piece after the last "\n", as long as no line holds a "\n" itself. */
  lemma {:induction false} SplitTerminated(lines: seq<string>)
    requires SingleLines(lines)
    ensures Split(Terminated(lines), '\n') == lines + [""]
    decreases |lines|
  {
    if |lines| > 0 {
      SplitTerminated(lines[1..]);
      TerminatedConcat([lines[0]], lines[1..]);
      TerminatedOne(lines[0]);
      assert [lines[0]] + lines[1..] == lines;
      SplitAtSep(lines[0], Terminated(lines[1..]), '\n');
      SplitWithoutSep(lines[0], '\n');
      assert lines[0] + "\n" + Terminated(lines[1..]) == lines[0] + ['\n'] + Terminated(lines[1..]);
      assert [lines[0]] + (lines[1..] + [""]) == lines + [""];
    }
  }

  /** No field written into the record's event holds a "\n". The serializer
      escapes nothing, so a field with one would break its line in two. */
  predicate SingleLine<D>(env: Env<D>, a: Record)
  {
    '\n' !in Str(a.name) && '\n' !in Str(a.courseName) && '\n' !in Str(a.htmlUrl) &&
    (Emits(env, a) ==> '\n' !in env.strftime(DueDate(env, a.dueAt).value))
  }

  /** No line holds a "\n". */
  predicate SingleLines(lines: seq<string>)
  {
    forall k :: 0 <= k < |lines| ==> '\n' !in lines[k]
  }

  lemma EventSingleLines<D>(env: Env<D>, a: Record)
    requires SingleLine(env, a)
    ensures SingleLines(Event(env, a))
  {
    if Emits(env, a) {
      StrOfIntIsSingleLine(env.hash(a.htmlUrl));
      var due := DueDate(env, a.dueAt).value;
      BlockSingleLines(Uid(env, a.htmlUrl), env.strftime(due), Str(a.name), Str(a.courseName), Str(a.htmlUrl));
    }
  }

  lemma BlockSingleLines(uid: string, stamp: string, summary: string, description: string, url: string)
    requires '\n' !in uid && '\n' !in stamp && '\n' !in summary && '\n' !in description && '\n' !in url
    ensures SingleLines(Block(uid, stamp, summary, description, url))
  {
  }

  lemma {:induction false} FlattenSingleLines(lines: Record -> seq<string>, xs: seq<Record>)
    requires forall i :: 0 <= i < |xs| ==> SingleLines(lines(xs[i]))
    ensures SingleLines(Flatten(lines, xs))
    decreases |xs|
  {
    if |xs| > 0 {
      var n := |xs|;
      var init := xs[..n - 1];
      assert forall i :: 0 <= i < n - 1 ==> init[i] == xs[i];
      FlattenSingleLines(lines, init);
      SingleLinesConcat(Flatten(lines, init), lines(xs[n - 1]));
    }
  }

  lemma SingleLinesConcat(a: seq<string>, b: seq<string>)
    requires SingleLines(a) && SingleLines(b)
    ensures SingleLines(a + b)
  {
    assert forall k :: 0 <= k < |a + b| ==> (a + b)[k] == if k < |a| then a[k] else b[k - |a|];
  }

  lemma EventsSingleLines<D>(env: Env<D>, assignments: seq<Record>)
    requires forall i :: 0 <= i < |assignments| ==> SingleLine(env, assignments[i])
    ensures SingleLines(Events(env, assignments))
  {
    forall i | 0 <= i < |assignments| ensures SingleLines(EventOf(env)(assignments[i])) {
      EventSingleLines(env, assignments[i]);
    }
    FlattenSingleLines(EventOf(env), assignments);
  }

  lemma EnvelopeSingleLines()
    ensures SingleLines(HEADER) && SingleLines([FOOTER])
  {
    assert '\n' !in HEADER[0];
    assert '\n' !in HEADER[1];
    assert '\n' !in HEADER[2];
  }

  /** When no field holds a "\n", the lines of the text are exactly the
      calendar's lines: the envelope and the event blocks in order. */
  lemma IcsLines<D>(env: Env<D>, assignments: seq<Record>)
    requires forall i :: 0 <= i < |assignments| ==> SingleLine(env, assignments[i])
    ensures Split(Ics(env, assignments), '\n') == Lines(env, assignments) + [""]
  {
    EventsSingleLines(env, assignments);
    EnvelopeSingleLines();
    SingleLinesConcat(HEADER, Events(env, assignments));
    SingleLinesConcat(HEADER + Events(env, assignments), [FOOTER]);
    SplitTerminated(Lines(env, assignments));
  }

  /** lambda.py:134-162 as the code runs it: the header, then for each record
      either nothing or its eight lines, then the footer, all appended to one
      buffer. */
  method GenerateIcs<D>(env: Env<D>, assignments: seq<Record>) returns (ics: string)
    ensures ics == Ics(env, assignments)
  {
    var output := "";
    output := output + "BEGIN:VCALENDAR\n";
    output := output + "VERSION:2.0\n";
    output := output + "PRODID:-//Canvas Assignment Feed//EN\n";
    HeaderText();
    assert HEADER + Events(env, assignments[..0]) == HEADER;
    for k := 0 to |assignments|
      invariant output == Terminated(HEADER + Events(env, assignments[..k]))
    {
      var a := assignments[k];
      ghost var before := HEADER + Events(env, assignments[..k]);
      EventsStep(env, assignments, k);
      if !Truthy(a.dueAt) || !a.dueAt.JStr? {
        assert before + [] == before;
        continue;
      }
      var parsed := env.fromIsoFormat(ReplaceAll(a.dueAt.s, 'Z', "+00:00"));
      if parsed.None? {
        assert before + [] == before;
        continue;
      }
      var due := parsed.value;
      var uid := Str(JInt(env.hash(a.htmlUrl))) + "@canvas";
      assert Event(env, a) == Block(uid, env.strftime(due), Str(a.name), Str(a.courseName), Str(a.htmlUrl));
      output := output + "BEGIN:VEVENT\n";
      output := output + ("UID:" + uid + "\n");
      output := output + ("DTSTAMP:" + env.strftime(due) + "\n");
      output := output + ("DTSTART:" + env.strftime(due) + "\n");
      output := output + ("SUMMARY:" + Str(a.name) + "\n");
      output := output + ("DESCRIPTION:" + Str(a.courseName) + "\n");
      output := output + ("URL:" + Str(a.htmlUrl) + "\n");
      output := output + "END:VEVENT\n";
      BlockText(before, uid, env.strftime(due), Str(a.name), Str(a.courseName), Str(a.htmlUrl));
    }
    assert assignments[..|assignments|] == assignments;
    TerminatedSnoc(HEADER + Events(env, assignments), FOOTER);
    output := output + "END:VCALENDAR\n";
    ics := output;
  }

  lemma PreambleText()
    ensures Terminated(HEADER) == PREAMBLE
  {
    HeaderText();
    var a, b, c := "BEGIN:VCALENDAR\n", "VERSION:2.0\n", "PRODID:-//Canvas Assignment Feed//EN\n";
    assert "" + a == a;
  }

  lemma HeaderText()
    ensures Terminated(HEADER) == "" + "BEGIN:VCALENDAR\n" + "VERSION:2.0\n" + "PRODID:-//Canvas Assignment Feed//EN\n"
  {
    TerminatedSnoc([], HEADER[0]);
    TerminatedSnoc(HEADER[..1], HEADER[1]);
    TerminatedSnoc(HEADER[..2], HEADER[2]);
    assert HEADER[..2] + [HEADER[2]] == HEADER;
  }

  lemma EventsStep<D>(env: Env<D>, assignments: seq<Record>, k: nat)
    requires k < |assignments|
    ensures HEADER + Events(env, assignments[..k + 1]) == HEADER + Events(env, assignments[..k]) + Event(env, assignments[k])
  {
    assert assignments[..k + 1][..k] == assignments[..k];
  }

  /** The text of one event block, written out line by line after `before`. */
  lemma BlockText(before: seq<string>, uid: string, stamp: string, summary: string, description: string, url: string)
    ensures Terminated(before + Block(uid, stamp, summary, description, url)) ==
      Terminated(before) + "BEGIN:VEVENT\n" + ("UID:" + uid + "\n") +
      ("DTSTAMP:" + stamp + "\n") + ("DTSTART:" + stamp + "\n") +
      ("SUMMARY:" + summary + "\n") + ("DESCRIPTION:" + description + "\n") +
      ("URL:" + url + "\n") + "END:VEVENT\n"
  {
    var ev := Block(uid, stamp, summary, description, url);
    var l0 := before + [ev[0]];
    var l1 := l0 + [ev[1]];
    var l2 := l1 + [ev[2]];
    var l3 := l2 + [ev[3]];
    var l4 := l3 + [ev[4]];
    var l5 := l4 + [ev[5]];
    var l6 := l5 + [ev[6]];
    var l7 := l6 + [ev[7]];
    assert l7 == before + ev;
    TerminatedSnoc(before, ev[0]);
    TerminatedSnoc(l0, ev[1]);
    TerminatedSnoc(l1, ev[2]);
    TerminatedSnoc(l2, ev[3]);
    TerminatedSnoc(l3, ev[4]);
    TerminatedSnoc(l4, ev[5]);
    TerminatedSnoc(l5, ev[6]);
    TerminatedSnoc(l6, ev[7]);
    assert BEGIN_EVENT + "\n" == "BEGIN:VEVENT\n";
    assert END_EVENT + "\n" == "END:VEVENT\n";
  }
}
