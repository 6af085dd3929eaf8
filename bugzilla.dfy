/** The Bugzilla backend's incremental fetcher. Bugzilla's CSV bug list has
    no pagination cursor, so the fetcher takes the rows of a page one by one,
    and when the page runs dry asks again from the last row's `changeddate`
    plus one second, stopping at the first page with no rows. */
module Bugzilla {
  import opened Wrappers
  import opened Seqs
  import opened DateTimes
  import opened BugzillaClient

  /** One CSV row: header name to value. */
  type Row = map<string, string>

  const ChangedDate := "changeddate"

  /** What the fetcher depends on but does not define: the server (one GET),
      the CSV decoder and `str_to_datetime`. */
  datatype Env = Env(call: Request -> Result<string, HttpError>,
                     decode: string -> seq<Row>,
                     toDateTime: string -> Option<DateTime>)

  datatype FetchError =
    | Transport(http: HttpError)       // the server answered with a failure status
    | MissingChangedDate               // KeyError: a row has no `changeddate` column
    | InvalidChangedDate(text: string) // `str_to_datetime` rejected the last row's date
    | DateOverflow                     // the date plus one second leaves the `datetime` range

  datatype Status = Done | Failed(error: FetchError)

  /** What the lazy bug list does, in order: a request for the bugs changed
      since a date, or a bug handed to the consumer. */
  datatype Event = Requested(from: DateTime) | Yielded(bug: Row)

  datatype Run = Run(events: seq<Event>, status: Status)

  function Cons(e: Event, run: Run): Run {
    Run([e] + run.events, run.status)
  }

  /** The dates of the requests made, in order. */
  function Requests(events: seq<Event>): seq<DateTime> {
    if events == [] then []
    else (if events[0].Requested? then [events[0].from] else []) + Requests(events[1..])
  }

  /** The bugs handed out, in order. */
  function Bugs(events: seq<Event>): seq<Row> {
    if events == [] then []
    else (if events[0].Yielded? then [events[0].bug] else []) + Bugs(events[1..])
  }

  function Yields(rows: seq<Row>): (events: seq<Event>)
    ensures |events| == |rows|
    ensures forall i :: 0 <= i < |rows| ==> events[i] == Yielded(rows[i])
  {
    if rows == [] then [] else [Yielded(rows[0])] + Yields(rows[1..])
  }

  /** `__fetch_and_parse_buglist_page(from_date)`: one request (always
      without a server version) and its body decoded into rows. */
  function FetchPage(env: Env, from: DateTime): Result<seq<Row>, FetchError> {
    match env.call(Buglist(from, None))
    case Failure(e) => Failure(Transport(e))
    case Success(body) => Success(env.decode(body))
  }

  /** The starting date of the request that follows a page whose last row
      carries `lastDate`: that date plus one second. */
  function NextFrom(env: Env, lastDate: string): (r: Result<DateTime, FetchError>)
    ensures r.Success? <==> env.toDateTime(lastDate).Some? && env.toDateTime(lastDate).value != Latest
    ensures r.Success? ==> AddSecond(env.toDateTime(lastDate).value) == Some(r.value)
    ensures r.Failure? ==> r.error == (if env.toDateTime(lastDate).None? then InvalidChangedDate(lastDate) else DateOverflow)
  {
    match env.toDateTime(lastDate)
    case None => Failure(InvalidChangedDate(lastDate))
    case Some(t) =>
      match AddSecond(t)
      case None => Failure(DateOverflow)
      case Some(n) => Success(n)
  }

  /** A row whose `changeddate` is present and readable is not older than `from`. */
  ghost predicate NotBefore(env: Env, row: Row, from: DateTime) {
    ChangedDate in row && env.toDateTime(row[ChangedDate]).Some? ==>
      Seconds(env.toDateTime(row[ChangedDate]).value) >= Seconds(from)
  }

  ghost predicate RowsNotBefore(env: Env, rows: seq<Row>, from: DateTime) {
    forall i :: 0 <= i < |rows| ==> NotBefore(env, rows[i], from)
  }

  /** The server honours `chfieldfrom`: it never lists a bug changed before
      the requested date. Termination rests on this. */
  ghost predicate HonoursChangedFrom(env: Env) {
    forall d: DateTime :: FetchPage(env, d).Success? ==> RowsNotBefore(env, FetchPage(env, d).value, d)
  }

  function Remaining(d: DateTime): nat {
    SecondsBound - Seconds(d)
  }

  /** The bug list started at `from`: the request for `from`, then the rows of its page. */
  ghost function Harvest(env: Env, from: DateTime): Run
    requires HonoursChangedFrom(env)
    decreases Remaining(from), 1, 0
  {
    Cons(Requested(from),
      match FetchPage(env, from)
      case Failure(e) => Run([], Failed(e))
      case Success(page) => Resume(env, from, page))
  }

  /** The bug list from the point where `rows` are what is left of the page
      requested at `from`: each row is taken off the front and yielded, and
      after the last one the next page is requested. */
  ghost function Resume(env: Env, from: DateTime, rows: seq<Row>): Run
    requires HonoursChangedFrom(env) && RowsNotBefore(env, rows, from)
    decreases Remaining(from), 0, |rows|
  {
    if rows == [] then Run([], Done)
    else if ChangedDate !in rows[0] then Run([], Failed(MissingChangedDate))
    else if |rows| > 1 then Cons(Yielded(rows[0]), Resume(env, from, rows[1..]))
    else
      assert NotBefore(env, rows[0], from);
      Cons(Yielded(rows[0]), AfterPage(env, from, rows[0][ChangedDate]))
  }

  /** The bug list once the last row of the page requested at `from` was
      yielded: the next page is requested one second after `lastDate`, the
      `changeddate` of that row, which is not before `from`. */
  ghost function AfterPage(env: Env, from: DateTime, lastDate: string): Run
    requires HonoursChangedFrom(env)
    requires env.toDateTime(lastDate).Some? ==> Seconds(env.toDateTime(lastDate).value) >= Seconds(from)
    decreases Remaining(from), 0, 0
  {
    match NextFrom(env, lastDate)
    case Failure(e) => Run([], Failed(e))
    case Success(next) => Harvest(env, next)
  }

  function Prepend(events: seq<Event>, run: Run): Run {
    Run(events + run.events, run.status)
  }

  lemma PrependCons(events: seq<Event>, e: Event, run: Run)
    ensures Prepend(events, Cons(e, run)) == Prepend(events + [e], run)
  {
    ConcatAssoc(events, [e], run.events);
  }

  /** `__fetch_buglist(from_date)`, run to its end: the loop pops the first
      row, notes its `changeddate`, yields it, and once the page is empty
      requests the next one from that date plus one second. */
  method FetchBuglist(env: Env, fromDate: DateTime) returns (run: Run)
    requires HonoursChangedFrom(env)
    ensures run == Harvest(env, fromDate)
  {
    var from := fromDate;
    var buglist, events, failure := RequestPage(env, from, [], fromDate);
    if failure.Some? {
      return Run(events, Failed(failure.value));
    }
    while buglist != []
      invariant RowsNotBefore(env, buglist, from)
      invariant Prepend(events, Resume(env, from, buglist)) == Harvest(env, fromDate)
      decreases Remaining(from), |buglist|
    {
      var bug := buglist[0];
      if ChangedDate !in bug {
        ResumeMissing(env, from, buglist);
        return Run(events, Failed(MissingChangedDate));
      }
      var lastDate := bug[ChangedDate];
      if |buglist| > 1 {
        ResumeStep(env, from, buglist);
        PrependCons(events, Yielded(bug), Resume(env, from, buglist[1..]));
        events := events + [Yielded(bug)];
        buglist := buglist[1..];
      } else {
        ResumeLast(env, from, buglist);
        PrependCons(events, Yielded(bug), AfterPage(env, from, lastDate));
        events := events + [Yielded(bug)];
        var next := NextFrom(env, lastDate);
        AfterPageCases(env, from, lastDate);
        if next.Failure? {
          return Run(events, Failed(next.error));
        }
        from := next.value;
        buglist, events, failure := RequestPage(env, from, events, fromDate);
        if failure.Some? {
          return Run(events, Failed(failure.value));
        }
      }
    }
    ResumeEmpty(env, from);
    run := Run(events, Done);
  }

  /** `__fetch_and_parse_buglist_page(from)` inside `__fetch_buglist`: the
      request is made, and either it fails and the bug list stops there, or
      its rows are the list to go through next. */
  method RequestPage(env: Env, from: DateTime, events: seq<Event>, ghost fromDate: DateTime)
    returns (buglist: seq<Row>, events': seq<Event>, failure: Option<FetchError>)
    requires HonoursChangedFrom(env)
    requires Prepend(events, Harvest(env, from)) == Harvest(env, fromDate)
    ensures failure.Some? ==> Run(events', Failed(failure.value)) == Harvest(env, fromDate)
    ensures failure.None? ==> && RowsNotBefore(env, buglist, from)
                              && Prepend(events', Resume(env, from, buglist)) == Harvest(env, fromDate)
  {
    var page := FetchPage(env, from);
    HarvestCases(env, from);
    PrependCons(events, Requested(from), HarvestRest(env, from));
    events' := events + [Requested(from)];
    if page.Failure? {
      return [], events', Some(page.error);
    }
    return page.value, events', None;
  }

  /** What follows the request in the bug list started at `from`. */
  ghost function HarvestRest(env: Env, from: DateTime): Run
    requires HonoursChangedFrom(env)
  {
    match FetchPage(env, from)
    case Failure(e) => Run([], Failed(e))
    case Success(page) => Resume(env, from, page)
  }

  lemma HarvestCases(env: Env, from: DateTime)
    requires HonoursChangedFrom(env)
    ensures Harvest(env, from) == Cons(Requested(from), HarvestRest(env, from))
    ensures FetchPage(env, from).Failure? ==> HarvestRest(env, from) == Run([], Failed(FetchPage(env, from).error))
    ensures FetchPage(env, from).Success? ==> && RowsNotBefore(env, FetchPage(env, from).value, from)
                                              && HarvestRest(env, from) == Resume(env, from, FetchPage(env, from).value)
  {
  }

  lemma AfterPageCases(env: Env, from: DateTime, lastDate: string)
    requires HonoursChangedFrom(env)
    requires env.toDateTime(lastDate).Some? ==> Seconds(env.toDateTime(lastDate).value) >= Seconds(from)
    ensures NextFrom(env, lastDate).Failure? ==> AfterPage(env, from, lastDate) == Run([], Failed(NextFrom(env, lastDate).error))
    ensures NextFrom(env, lastDate).Success? ==> && Remaining(NextFrom(env, lastDate).value) < Remaining(from)
                                                 && AfterPage(env, from, lastDate) == Harvest(env, NextFrom(env, lastDate).value)
  {
  }

  lemma ResumeEmpty(env: Env, from: DateTime)
    requires HonoursChangedFrom(env)
    ensures Resume(env, from, []) == Run([], Done)
  {
  }

  lemma ResumeMissing(env: Env, from: DateTime, rows: seq<Row>)
    requires HonoursChangedFrom(env) && RowsNotBefore(env, rows, from)
    requires rows != [] && ChangedDate !in rows[0]
    ensures Resume(env, from, rows) == Run([], Failed(MissingChangedDate))
  {
  }

  /** The last row of a page is yielded, then the bug list goes on after it. */
  lemma ResumeLast(env: Env, from: DateTime, rows: seq<Row>)
    requires HonoursChangedFrom(env) && RowsNotBefore(env, rows, from)
    requires |rows| == 1 && ChangedDate in rows[0]
    ensures var t := env.toDateTime(rows[0][ChangedDate]);
            t.Some? ==> Seconds(t.value) >= Seconds(from)
    ensures Resume(env, from, rows) == Cons(Yielded(rows[0]), AfterPage(env, from, rows[0][ChangedDate]))
  {
    assert NotBefore(env, rows[0], from);
  }

  /** `fetch(from_date)`: the whole bug list as one list, or the error that
      stopped it (the list is then lost, as the exception leaves the comprehension). */
  method Fetch(env: Env, fromDate: DateTime) returns (r: Result<seq<Row>, FetchError>)
    requires HonoursChangedFrom(env)
    ensures var run := Harvest(env, fromDate);
            r == if run.status.Done? then Success(Bugs(run.events)) else Failure(run.status.error)
  {
    var run := FetchBuglist(env, fromDate);
    if run.status.Done? {
      r := Success(Bugs(run.events));
    } else {
      r := Failure(run.status.error);
    }
  }

  // ---------------------------------------------------------------------
  // What the bug list promises

  lemma {:induction false} RequestsAppend(a: seq<Event>, b: seq<Event>)
    ensures Requests(a + b) == Requests(a) + Requests(b)
  {
    if a != [] {
      assert (a + b)[1..] == a[1..] + b;
      RequestsAppend(a[1..], b);
    } else {
      assert a + b == b;
    }
  }

  lemma {:induction false} BugsAppend(a: seq<Event>, b: seq<Event>)
    ensures Bugs(a + b) == Bugs(a) + Bugs(b)
  {
    if a != [] {
      assert (a + b)[1..] == a[1..] + b;
      BugsAppend(a[1..], b);
    } else {
      assert a + b == b;
    }
  }

  lemma {:induction false} YieldsOnlyBugs(rows: seq<Row>)
    ensures Requests(Yields(rows)) == [] && Bugs(Yields(rows)) == rows
  {
    if rows != [] {
      assert Yields(rows)[1..] == Yields(rows[1..]);
      YieldsOnlyBugs(rows[1..]);
    }
  }

  /** The rows of the page requested at `from` (none when the request failed). */
  function PageRows(env: Env, from: DateTime): seq<Row> {
    match FetchPage(env, from)
    case Success(page) => page
    case Failure(_) => []
  }

  /** After a request at `d`, the next one is at `d'`: the page for `d` had
      rows, and `d'` is its last row's `changeddate` plus one second. */
  ghost predicate Advances(env: Env, d: DateTime, d': DateTime) {
    var page := FetchPage(env, d);
    && page.Success? && page.value != [] && ChangedDate in Last(page.value)
    && env.toDateTime(Last(page.value)[ChangedDate]).Some?
    && AddSecond(env.toDateTime(Last(page.value)[ChangedDate]).value) == Some(d')
  }

  ghost predicate Chained(env: Env, dates: seq<DateTime>) {
    forall i :: 0 <= i < |dates| - 1 ==> Advances(env, dates[i], dates[i + 1])
  }

  /** Once the rest of a page is in hand, the requests still to come are
      none, or those of the bug list started right after the page's last row. */
  lemma {:induction false} ResumeRequests(env: Env, from: DateTime, rows: seq<Row>)
    requires HonoursChangedFrom(env) && RowsNotBefore(env, rows, from)
    ensures var rest := Requests(Resume(env, from, rows).events);
            || rest == []
            || (&& rows != [] && ChangedDate in Last(rows)
                && NextFrom(env, Last(rows)[ChangedDate]).Success?
                && rest == Requests(Harvest(env, NextFrom(env, Last(rows)[ChangedDate]).value).events))
    decreases |rows|
  {
    if rows != [] && ChangedDate in rows[0] {
      var run := Resume(env, from, rows);
      if |rows| > 1 {
        ResumeRequests(env, from, rows[1..]);
        assert run.events[1..] == Resume(env, from, rows[1..]).events;
        assert Last(rows[1..]) == Last(rows);
      } else {
        assert run.events[1..] == (match NextFrom(env, rows[0][ChangedDate])
                                   case Failure(e) => Run([], Failed(e))
                                   case Success(next) => Harvest(env, next)).events;
      }
    }
  }

  /** Every request after the first starts one second after the
      `changeddate` of the last row of the page before it, and a request
      follows a page only when that page had rows. */
  lemma {:induction false} HarvestChained(env: Env, from: DateTime)
    requires HonoursChangedFrom(env)
    ensures var dates := Requests(Harvest(env, from).events);
            |dates| >= 1 && dates[0] == from && Chained(env, dates)
    decreases Remaining(from)
  {
    var run := Harvest(env, from);
    var dates := Requests(run.events);
    assert run.events[1..] == (match FetchPage(env, from)
                               case Failure(e) => Run([], Failed(e))
                               case Success(page) => Resume(env, from, page)).events;
    if FetchPage(env, from).Success? {
      var page := FetchPage(env, from).value;
      ResumeRequests(env, from, page);
      var rest := Requests(Resume(env, from, page).events);
      assert dates == [from] + rest;
      if rest != [] {
        var next := NextFrom(env, Last(page)[ChangedDate]).value;
        assert NotBefore(env, page[|page| - 1], from);
        HarvestChained(env, next);
        assert Advances(env, from, next);
        forall i | 0 <= i < |dates| - 1
          ensures Advances(env, dates[i], dates[i + 1])
        {
          if i > 0 {
            assert dates[i] == rest[i - 1] && dates[i + 1] == rest[i];
          }
        }
      }
    }
  }

  /** Requests move strictly forward in time: each starts at least one
      second after every earlier one, so no date is requested twice. */
  lemma {:induction false} HarvestIncreasing(env: Env, from: DateTime)
    requires HonoursChangedFrom(env)
    ensures var dates := Requests(Harvest(env, from).events);
            forall i, j :: 0 <= i < j < |dates| ==> Seconds(dates[i]) < Seconds(dates[j])
  {
    var dates := Requests(Harvest(env, from).events);
    HarvestChained(env, from);
    ChainIncreasing(env, dates);
  }

  lemma {:induction false} ChainIncreasing(env: Env, dates: seq<DateTime>)
    requires HonoursChangedFrom(env) && Chained(env, dates)
    ensures forall i, j :: 0 <= i < j < |dates| ==> Seconds(dates[i]) < Seconds(dates[j])
  {
    if |dates| > 1 {
      var tail := dates[1..];
      assert Chained(env, tail) by {
        forall i | 0 <= i < |tail| - 1 ensures Advances(env, tail[i], tail[i + 1]) {
          assert Advances(env, dates[i + 1], dates[i + 2]);
        }
      }
      ChainIncreasing(env, tail);
      assert Advances(env, dates[0], dates[1]);
      var page := FetchPage(env, dates[0]).value;
      assert NotBefore(env, page[|page| - 1], dates[0]);
      forall i, j | 0 <= i < j < |dates| ensures Seconds(dates[i]) < Seconds(dates[j]) {
        if i > 0 {
          assert dates[i] == tail[i - 1] && dates[j] == tail[j - 1];
        } else if j > 1 {
          assert dates[1] == tail[0] && dates[j] == tail[j - 1];
        }
      }
    }
  }

  /** The bug list laid out page by page: each request followed by every row
      of its page, in page order. */
  function Interleave(env: Env, dates: seq<DateTime>): seq<Event> {
    if dates == [] then []
    else [Requested(dates[0])] + Yields(PageRows(env, dates[0])) + Interleave(env, dates[1..])
  }

  /** The rows of the pages requested at `dates`, page after page. */
  function AllRows(env: Env, dates: seq<DateTime>): seq<Row> {
    if dates == [] then [] else PageRows(env, dates[0]) + AllRows(env, dates[1..])
  }

  /** The last row of a page is yielded, then the next page is requested. */
  lemma ResumeLastRow(env: Env, from: DateTime, rows: seq<Row>, next: DateTime)
    requires HonoursChangedFrom(env) && RowsNotBefore(env, rows, from)
    requires |rows| == 1 && ChangedDate in rows[0]
    requires NextFrom(env, rows[0][ChangedDate]) == Success(next)
    ensures Resume(env, from, rows) == Prepend(Yields(rows), Harvest(env, next))
  {
    assert NotBefore(env, rows[0], from);
    assert Yields(rows) == [Yielded(rows[0])];
  }

  /** A row that is not the last of its page is yielded, then the rest of the page. */
  lemma ResumeStep(env: Env, from: DateTime, rows: seq<Row>)
    requires HonoursChangedFrom(env) && RowsNotBefore(env, rows, from)
    requires |rows| > 1 && ChangedDate in rows[0]
    ensures RowsNotBefore(env, rows[1..], from)
    ensures Resume(env, from, rows) == Cons(Yielded(rows[0]), Resume(env, from, rows[1..]))
  {
  }

  /** A page whose rest ends the bug list normally is yielded in full, and
      what follows is the bug list started one second after its last row. */
  lemma {:induction false} ResumeDone(env: Env, from: DateTime, rows: seq<Row>, next: DateTime)
    requires HonoursChangedFrom(env) && RowsNotBefore(env, rows, from)
    requires rows != [] && ChangedDate in Last(rows)
    requires NextFrom(env, Last(rows)[ChangedDate]) == Success(next)
    requires Resume(env, from, rows).status == Done
    ensures Resume(env, from, rows) == Prepend(Yields(rows), Harvest(env, next))
    decreases |rows|
  {
    if |rows| == 1 {
      ResumeLastRow(env, from, rows, next);
    } else {
      assert ChangedDate in rows[0];
      ResumeStep(env, from, rows);
      assert Last(rows[1..]) == Last(rows);
      ResumeDone(env, from, rows[1..], next);
      var later := Harvest(env, next).events;
      assert Yields(rows) == [Yielded(rows[0])] + Yields(rows[1..]);
      ConcatAssoc([Yielded(rows[0])], Yields(rows[1..]), later);
    }
  }

  /** A page whose rest ends the bug list normally has a readable
      `changeddate` in its last row, one second short of the `datetime` range's end. */
  lemma {:induction false} ResumeDoneContinues(env: Env, from: DateTime, rows: seq<Row>)
    requires HonoursChangedFrom(env) && RowsNotBefore(env, rows, from)
    requires rows != [] && Resume(env, from, rows).status == Done
    ensures ChangedDate in Last(rows) && NextFrom(env, Last(rows)[ChangedDate]).Success?
    decreases |rows|
  {
    if |rows| > 1 {
      assert Resume(env, from, rows) == Cons(Yielded(rows[0]), Resume(env, from, rows[1..]));
      assert Last(rows[1..]) == Last(rows);
      ResumeDoneContinues(env, from, rows[1..]);
    } else {
      assert Last(rows) == rows[0] && ChangedDate in rows[0];
    }
  }

  /** A bug list that ends normally is exactly: request, all rows of its page,
      request, all rows of its page, ..., and a last request whose page was
      empty. Every page before the last had rows, so the requests number the
      non-empty pages plus one. */
  lemma {:induction false} HarvestDone(env: Env, from: DateTime)
    requires HonoursChangedFrom(env)
    requires Harvest(env, from).status == Done
    ensures var run := Harvest(env, from);
            var dates := Requests(run.events);
            && |dates| >= 1
            && run.events == Interleave(env, dates)
            && FetchPage(env, Last(dates)) == Success([])
            && forall i :: 0 <= i < |dates| - 1 ==> PageRows(env, dates[i]) != []
  {
    HarvestLaidOut(env, from);
    HarvestChained(env, from);
    var dates := Requests(Harvest(env, from).events);
    forall i | 0 <= i < |dates| - 1 ensures PageRows(env, dates[i]) != [] {
      assert Advances(env, dates[i], dates[i + 1]);
    }
  }

  lemma {:induction false} HarvestLaidOut(env: Env, from: DateTime)
    requires HonoursChangedFrom(env)
    requires Harvest(env, from).status == Done
    ensures var run := Harvest(env, from);
            var dates := Requests(run.events);
            && |dates| >= 1
            && run.events == Interleave(env, dates)
            && FetchPage(env, Last(dates)) == Success([])
    decreases Remaining(from)
  {
    HarvestCases(env, from);
    var page := FetchPage(env, from).value;
    if page == [] {
      ResumeEmpty(env, from);
      EmptyPageLaidOut(env, from);
    } else {
      ResumeDoneContinues(env, from, page);
      var next := NextFrom(env, Last(page)[ChangedDate]).value;
      assert NotBefore(env, page[|page| - 1], from);
      ResumeDone(env, from, page, next);
      HarvestLaidOut(env, next);
      LaidOutCons(env, from, page, Harvest(env, next).events);
      ConcatAssoc([Requested(from)], Yields(page), Harvest(env, next).events);
    }
  }

  /** A request, all rows of its page, then a bug list laid out page by page,
      is itself laid out page by page. */
  lemma LaidOutCons(env: Env, from: DateTime, page: seq<Row>, later: seq<Event>)
    requires FetchPage(env, from) == Success(page)
    requires later == Interleave(env, Requests(later)) && Requests(later) != []
    ensures var events := [Requested(from)] + Yields(page) + later;
            && Requests(events) == [from] + Requests(later)
            && Last(Requests(events)) == Last(Requests(later))
            && Interleave(env, Requests(events)) == events
  {
    var events := [Requested(from)] + Yields(page) + later;
    RequestsAppend([Requested(from)] + Yields(page), later);
    RequestsAppend([Requested(from)], Yields(page));
    YieldsOnlyBugs(page);
    assert Requests([Requested(from)]) == [from] by {
      assert [Requested(from)][1..] == [];
    }
    var dates := Requests(events);
    assert dates[1..] == Requests(later);
    assert PageRows(env, from) == page;
  }

  lemma EmptyPageLaidOut(env: Env, from: DateTime)
    requires FetchPage(env, from) == Success([])
    ensures Requests([Requested(from)]) == [from]
    ensures Interleave(env, [from]) == [Requested(from)]
  {
    assert [Requested(from)][1..] == [];
    assert PageRows(env, from) == [];
    assert Yields([]) == [];
    assert [from][1..] == [];
  }

  lemma {:induction false} InterleaveBugs(env: Env, dates: seq<DateTime>)
    ensures Bugs(Interleave(env, dates)) == AllRows(env, dates)
  {
    if dates != [] {
      var head := [Requested(dates[0])] + Yields(PageRows(env, dates[0]));
      BugsAppend(head, Interleave(env, dates[1..]));
      BugsAppend([Requested(dates[0])], Yields(PageRows(env, dates[0])));
      YieldsOnlyBugs(PageRows(env, dates[0]));
      InterleaveBugs(env, dates[1..]);
    }
  }

  /** `fetch` returns the rows of every page it requested, page after page. */
  lemma {:induction false} FetchReturnsAllPages(env: Env, from: DateTime)
    requires HonoursChangedFrom(env)
    requires Harvest(env, from).status == Done
    ensures var run := Harvest(env, from);
            Bugs(run.events) == AllRows(env, Requests(run.events))
  {
    HarvestDone(env, from);
    InterleaveBugs(env, Requests(Harvest(env, from).events));
  }

  /** An empty first page: one request, no bugs, done. */
  lemma EmptyFirstPage(env: Env, from: DateTime)
    requires HonoursChangedFrom(env)
    requires FetchPage(env, from) == Success([])
    ensures Harvest(env, from) == Run([Requested(from)], Done)
  {
  }

  // ---------------------------------------------------------------------
  // How every bug list ends, whether normally or not

  /** The rows at the head of `rows` that carry a `changeddate`: those the
      loop yields before it meets a row without one. */
  function Keyed(rows: seq<Row>): (r: seq<Row>)
    ensures |r| <= |rows| && r == rows[..|r|]
    ensures forall i :: 0 <= i < |r| ==> ChangedDate in r[i]
    ensures |r| < |rows| ==> ChangedDate !in rows[|r|]
  {
    if rows == [] || ChangedDate !in rows[0] then [] else [rows[0]] + Keyed(rows[1..])
  }

  /** The bug list with requests at `dates`, laid out page by page: every
      request but the last is followed by all rows of its page, and the last
      by the rows of its page up to the first one without a `changeddate`. */
  function Layout(env: Env, dates: seq<DateTime>): seq<Event>
    requires dates != []
  {
    Interleave(env, dates[..|dates| - 1]) + [Requested(Last(dates))]
    + Yields(Keyed(PageRows(env, Last(dates))))
  }

  ghost predicate LaidOut(env: Env, events: seq<Event>) {
    Requests(events) != [] && events == Layout(env, Requests(events))
  }

  /** Why a bug list whose last request was at `d` ended with `status`: the
      request failed, or its page was empty (the only normal end), or a row
      lacked `changeddate`, or the last row's date could not be advanced. */
  ghost predicate EndsAt(env: Env, d: DateTime, status: Status) {
    match FetchPage(env, d)
    case Failure(e) => status == Failed(e)
    case Success(page) =>
      if page == [] then status == Done
      else if Keyed(page) != page then status == Failed(MissingChangedDate)
      else NextFrom(env, Last(page)[ChangedDate]).Failure?
           && status == Failed(NextFrom(env, Last(page)[ChangedDate]).error)
  }

  /** Every bug list, however it ends, is laid out page by page from its
      first request at `from`, and ends for the reason its last page gives. */
  lemma {:induction false} HarvestLayout(env: Env, from: DateTime)
    requires HonoursChangedFrom(env)
    ensures var run := Harvest(env, from);
            && LaidOut(env, run.events)
            && Requests(run.events)[0] == from
            && EndsAt(env, Last(Requests(run.events)), run.status)
    decreases Remaining(from)
  {
    HarvestCases(env, from);
    var run := Harvest(env, from);
    var page := FetchPage(env, from);
    if page.Failure? {
      assert run.events == [Requested(from)] + Yields([]);
      LayoutFirst(env, from, run, []);
    } else {
      var rows := page.value;
      ResumeLayout(env, from, rows);
      if rows == [] || Keyed(rows) != rows {
        LayoutFirst(env, from, run, Keyed(rows));
      } else {
        var lastDate := Last(rows)[ChangedDate];
        AfterPageCases(env, from, lastDate);
        if NextFrom(env, lastDate).Failure? {
          assert run.events == [Requested(from)] + Yields(rows);
          LayoutFirst(env, from, run, rows);
        } else {
          var next := NextFrom(env, lastDate).value;
          HarvestLayout(env, next);
          var later := Harvest(env, next);
          ConcatAssoc([Requested(from)], Yields(rows), later.events);
          LayoutLater(env, from, rows, run, later);
        }
      }
    }
  }

  /** A bug list that ends after its first request. */
  lemma LayoutFirst(env: Env, from: DateTime, run: Run, rows: seq<Row>)
    requires rows == Keyed(PageRows(env, from))
    requires run.events == [Requested(from)] + Yields(rows)
    requires EndsAt(env, from, run.status)
    ensures && LaidOut(env, run.events)
            && Requests(run.events)[0] == from
            && EndsAt(env, Last(Requests(run.events)), run.status)
  {
    LayoutOne(env, from, rows);
  }

  /** A bug list that goes on after its first page with the bug list `later`. */
  lemma LayoutLater(env: Env, from: DateTime, page: seq<Row>, run: Run, later: Run)
    requires FetchPage(env, from) == Success(page)
    requires run == Run([Requested(from)] + Yields(page) + later.events, later.status)
    requires LaidOut(env, later.events)
    requires EndsAt(env, Last(Requests(later.events)), later.status)
    ensures && LaidOut(env, run.events)
            && Requests(run.events)[0] == from
            && EndsAt(env, Last(Requests(run.events)), run.status)
  {
    LayoutCons(env, from, page, later.events);
  }

  /** The rest of a page requested at `from`: when a row lacks `changeddate`
      (or none is left) the bug list ends after the rows before it;
      otherwise every row is yielded and the bug list goes on after the last. */
  lemma {:induction false} ResumeLayout(env: Env, from: DateTime, rows: seq<Row>)
    requires HonoursChangedFrom(env) && RowsNotBefore(env, rows, from)
    ensures rows == [] || Keyed(rows) != rows ==>
              Resume(env, from, rows)
              == Run(Yields(Keyed(rows)), if rows == [] then Done else Failed(MissingChangedDate))
    ensures rows != [] && Keyed(rows) == rows ==>
              && ChangedDate in Last(rows) && NotBefore(env, Last(rows), from)
              && Resume(env, from, rows) == Prepend(Yields(rows), AfterPage(env, from, Last(rows)[ChangedDate]))
    decreases |rows|
  {
    if rows == [] {
      ResumeEmpty(env, from);
    } else if ChangedDate !in rows[0] {
      ResumeMissing(env, from, rows);
    } else if |rows| == 1 {
      ResumeLast(env, from, rows);
      assert Keyed(rows) == rows;
      assert Yields(rows) == [Yielded(rows[0])];
    } else {
      ResumeStep(env, from, rows);
      ResumeLayout(env, from, rows[1..]);
      assert Last(rows[1..]) == Last(rows);
      assert NotBefore(env, rows[|rows| - 1], from);
      var after := if ChangedDate in Last(rows) then AfterPage(env, from, Last(rows)[ChangedDate])
                   else Run([], Done);
      KeyedRunStep(rows, Resume(env, from, rows), Resume(env, from, rows[1..]), after);
    }
  }

  /** A keyed first row yielded in front of the rest of a page: the rest's
      layout, one row longer. */
  lemma KeyedRunStep(rows: seq<Row>, run: Run, rest: Run, after: Run)
    requires |rows| > 1 && ChangedDate in rows[0]
    requires run == Cons(Yielded(rows[0]), rest)
    requires Keyed(rows[1..]) != rows[1..] ==> rest == Run(Yields(Keyed(rows[1..])), Failed(MissingChangedDate))
    requires Keyed(rows[1..]) == rows[1..] ==> rest == Prepend(Yields(rows[1..]), after)
    ensures Keyed(rows) != rows ==> run == Run(Yields(Keyed(rows)), Failed(MissingChangedDate))
    ensures Keyed(rows) == rows ==> run == Prepend(Yields(rows), after)
  {
    KeyedCons(rows);
    assert Yields(Keyed(rows)) == [Yielded(rows[0])] + Yields(Keyed(rows[1..]));
    if Keyed(rows) == rows {
      assert Yields(rows) == [Yielded(rows[0])] + Yields(rows[1..]);
      ConcatAssoc([Yielded(rows[0])], Yields(rows[1..]), after.events);
    }
  }

  /** A first row with `changeddate` stays in front of the keyed rows of the rest. */
  lemma KeyedCons(rows: seq<Row>)
    requires rows != [] && ChangedDate in rows[0]
    ensures Keyed(rows) == [rows[0]] + Keyed(rows[1..])
    ensures Keyed(rows) == rows <==> Keyed(rows[1..]) == rows[1..]
  {
    assert rows == [rows[0]] + rows[1..];
  }

  /** A request followed by some rows of its page is laid out page by page. */
  lemma LayoutOne(env: Env, from: DateTime, rows: seq<Row>)
    requires rows == Keyed(PageRows(env, from))
    ensures Requests([Requested(from)] + Yields(rows)) == [from]
    ensures LaidOut(env, [Requested(from)] + Yields(rows))
  {
    RequestsOne(from, rows);
    LayoutSingle(env, from);
  }

  lemma RequestsOne(from: DateTime, rows: seq<Row>)
    ensures Requests([Requested(from)] + Yields(rows)) == [from]
  {
    RequestsAppend([Requested(from)], Yields(rows));
    YieldsOnlyBugs(rows);
    assert [Requested(from)][1..] == [];
  }

  lemma LayoutSingle(env: Env, from: DateTime)
    ensures Layout(env, [from]) == [Requested(from)] + Yields(Keyed(PageRows(env, from)))
  {
    assert [from][..0] == [];
  }

  /** A request, all rows of its page, then a bug list laid out page by page,
      is laid out page by page and ends where that bug list ends. */
  lemma LayoutCons(env: Env, from: DateTime, page: seq<Row>, later: seq<Event>)
    requires FetchPage(env, from) == Success(page)
    requires LaidOut(env, later)
    ensures var events := [Requested(from)] + Yields(page) + later;
            && Requests(events) == [from] + Requests(later)
            && Last(Requests(events)) == Last(Requests(later))
            && LaidOut(env, events)
  {
    var ds := Requests(later);
    RequestsCons(from, page, later);
    LayoutStep(env, from, page, ds);
  }

  /** The requests of a request, some rows, then `later`. */
  lemma RequestsCons(from: DateTime, page: seq<Row>, later: seq<Event>)
    ensures Requests([Requested(from)] + Yields(page) + later) == [from] + Requests(later)
  {
    RequestsAppend([Requested(from)] + Yields(page), later);
    RequestsAppend([Requested(from)], Yields(page));
    YieldsOnlyBugs(page);
    assert [Requested(from)][1..] == [];
  }

  /** One more page in front of a layout. */
  lemma LayoutStep(env: Env, from: DateTime, page: seq<Row>, ds: seq<DateTime>)
    requires FetchPage(env, from) == Success(page) && ds != []
    ensures Layout(env, [from] + ds) == [Requested(from)] + Yields(page) + Layout(env, ds)
  {
    var dates := [from] + ds;
    var front := ds[..|ds| - 1];
    assert dates[..|dates| - 1] == [from] + front;
    assert Last(dates) == Last(ds);
    InterleaveStep(env, from, page, front);
    var head := [Requested(from)] + Yields(page);
    var tail := [Requested(Last(ds))] + Yields(Keyed(PageRows(env, Last(ds))));
    ConcatAssoc(head, Interleave(env, front), tail);
    ConcatAssoc(Interleave(env, front), [Requested(Last(ds))], Yields(Keyed(PageRows(env, Last(ds)))));
    ConcatAssoc(head + Interleave(env, front), [Requested(Last(ds))], Yields(Keyed(PageRows(env, Last(ds)))));
  }

  lemma InterleaveStep(env: Env, from: DateTime, page: seq<Row>, front: seq<DateTime>)
    requires FetchPage(env, from) == Success(page)
    ensures Interleave(env, [from] + front) == [Requested(from)] + Yields(page) + Interleave(env, front)
  {
    assert ([from] + front)[1..] == front;
    assert PageRows(env, from) == page;
  }

  /** A page whose rows all carry `changeddate`, then a failed request for
      the next one: the rows are yielded before the error ends the bug list. */
  lemma FailureOnSecondPage(env: Env, from: DateTime, page: seq<Row>, next: DateTime, h: HttpError)
    requires HonoursChangedFrom(env)
    requires FetchPage(env, from) == Success(page) && page != []
    requires forall i :: 0 <= i < |page| ==> ChangedDate in page[i]
    requires NextFrom(env, Last(page)[ChangedDate]) == Success(next)
    requires FetchPage(env, next) == Failure(Transport(h))
    ensures Harvest(env, from) == Run([Requested(from)] + Yields(page) + [Requested(next)], Failed(Transport(h)))
  {
    HarvestCases(env, from);
    assert Keyed(page) == page;
    ResumeLayout(env, from, page);
    AfterPageCases(env, from, Last(page)[ChangedDate]);
    HarvestCases(env, next);
    ConcatAssoc([Requested(from)], Yields(page), [Requested(next)]);
  }
}
