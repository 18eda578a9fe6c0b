/** Which registered tests run, which are reported as skipped, and how the counts reach the exit status. */
module Selection {
  import opened Wrappers
  import opened TestFilter
  import opened TestLabel
  import opened Junit
  import opened JunitReader
  import opened JunitRoundTrip

  /** A registered test; `properties` is what its property function returns. */
  datatype Entry = Entry(name: string, properties: Properties, skip: Option<string>) {
    function Caption(): string { Label(name, properties) }
  }

  datatype Verdict = Run | ReportSkip(reason: string) | Drop

  function VerdictOf(entry: Entry, filter: Option<Filter>): Verdict
  {
    if filter.None? then
      if entry.skip.Some? then ReportSkip(entry.skip.value) else Run
    else
      var matches := filter.value.Matches(entry.Caption(), entry.skip.Some?);
      if matches then Run
      else if entry.skip.Some? && filter.value.Matches(entry.Caption(), false) then ReportSkip(entry.skip.value)
      else Drop
  }

  function SkipResult(entry: Entry, reason: string): TestResult
  {
    TestResult(entry.Caption(), entry.properties, Skip(reason), "0.000")
  }

  function Chosen(entries: seq<Entry>, filter: Option<Filter>): seq<Entry>
  {
    if entries == [] then []
    else
      var last := entries[|entries| - 1];
      Chosen(entries[..|entries| - 1], filter) + if VerdictOf(last, filter).Run? then [last] else []
  }

  function Skipped(entries: seq<Entry>, filter: Option<Filter>): seq<TestResult>
  {
    if entries == [] then []
    else
      var last := entries[|entries| - 1];
      Skipped(entries[..|entries| - 1], filter)
      + match VerdictOf(last, filter)
        case ReportSkip(reason) => [SkipResult(last, reason)]
        case _ => []
  }

  function Dropped(entries: seq<Entry>, filter: Option<Filter>): seq<Entry>
  {
    if entries == [] then []
    else
      var last := entries[|entries| - 1];
      Dropped(entries[..|entries| - 1], filter) + if VerdictOf(last, filter).Drop? then [last] else []
  }

  /** Not excluded, and named by an include token or, without include tokens, not annotated. */
  ghost predicate IsSelected(entry: Entry, f: Filter)
  {
    var caption := Label(entry.name, entry.properties);
    !MentionsAny(caption, f.excludes)
    && (MentionsAny(caption, f.includes) || (f.includes == [] && entry.skip.None?))
  }

  /** The selection closure: whether the test stays, and what is pushed onto the skip results. */
  method Judge(entry: Entry, filter: Option<Filter>, report: bool) returns (stays: bool, skips: seq<TestResult>)
    ensures stays == VerdictOf(entry, filter).Run?
    ensures filter.None? ==> (stays <==> entry.skip.None?)
    ensures filter.Some? ==> (stays <==> IsSelected(entry, filter.value))
    ensures skips == match VerdictOf(entry, filter)
                     case ReportSkip(reason) => if report then [SkipResult(entry, reason)] else []
                     case _ => []
  {
    var caption := entry.Caption();
    skips := [];
    if filter.None? {
      if entry.skip.Some? {
        if report {
          skips := [SkipResult(entry, entry.skip.value)];
        }
        return false, skips;
      }
      return true, skips;
    }
    var matches := filter.value.Matches(caption, entry.skip.Some?);
    var skippedByAnnotation := entry.skip.Some? && filter.value.Matches(caption, false) && !matches;
    if skippedByAnnotation && report {
      skips := [SkipResult(entry, entry.skip.value)];
    }
    return matches, skips;
  }

  /** The closure applied to all registered tests in order. */
  method Select(entries: seq<Entry>, filter: Option<Filter>, report: bool)
    returns (tests: seq<Entry>, skips: seq<TestResult>)
    ensures tests == Chosen(entries, filter)
    ensures skips == if report then Skipped(entries, filter) else []
  {
    tests, skips := [], [];
    for i := 0 to |entries|
      invariant tests == Chosen(entries[..i], filter)
      invariant skips == if report then Skipped(entries[..i], filter) else []
    {
      assert entries[..i + 1][..i] == entries[..i];
      var stays, pushed := Judge(entries[i], filter, report);
      skips := skips + pushed;
      if stays {
        tests := tests + [entries[i]];
      }
    }
    assert entries[..|entries|] == entries;
  }

  // What the verdicts mean

  /** Without a filter exactly the tests without annotation run, and the others are reported with their reason. */
  lemma RunsWithoutFilter(entry: Entry)
    ensures VerdictOf(entry, None).Run? <==> entry.skip.None?
    ensures VerdictOf(entry, None).ReportSkip? <==> entry.skip.Some?
  {
  }

  /** With a filter exactly the selected tests run; an include token overrides the annotation. */
  lemma RunsUnderFilter(entry: Entry, f: Filter)
    ensures VerdictOf(entry, Some(f)).Run? <==> IsSelected(entry, f)
  {
  }

  lemma ReportedReason(entry: Entry, filter: Option<Filter>)
    ensures VerdictOf(entry, filter).ReportSkip? ==> entry.skip == Some(VerdictOf(entry, filter).reason)
  {
  }

  lemma NoFilterIsEmptyFilter(entry: Entry)
    ensures VerdictOf(entry, None) == VerdictOf(entry, Some(Filter([], [])))
  {
  }

  /** Reported as skipped exactly when annotated, not excluded, and nothing is asked for by name. */
  lemma ReportedSkips(entry: Entry, f: Filter)
    ensures VerdictOf(entry, Some(f)).ReportSkip?
       <==> entry.skip.Some? && f.includes == [] && !MentionsAny(entry.Caption(), f.excludes)
  {
  }

  ghost predicate IsRun(entry: Entry, f: Filter) { VerdictOf(entry, Some(f)).Run? }

  lemma ConcatenatedRuns(entry: Entry, f: Filter, g: Filter)
    ensures var h := Filter(f.includes + g.includes, f.excludes + g.excludes);
      var notF, notG := !MentionsAny(entry.Caption(), f.excludes), !MentionsAny(entry.Caption(), g.excludes);
      IsRun(entry, h) <==>
      if f.includes == [] && g.includes == [] then IsRun(entry, f) && IsRun(entry, g)
      else if f.includes == [] then IsRun(entry, g) && notF
      else if g.includes == [] then IsRun(entry, f) && notG
      else (IsRun(entry, f) && notG) || (IsRun(entry, g) && notF)
  {
    MentionsAnyOfConcat(entry.Caption(), f.excludes, g.excludes);
    MentionsAnyOfConcat(entry.Caption(), f.includes, g.includes);
  }

  /**
   * How the runs of a composed filter follow from those of its parts. Without includes on one side that side only
   * excludes, and its view of skip annotations is lost.
   */
  lemma ComposedRuns(entry: Entry, a: string, b: string)
    requires Parsed(a).Ok? && Parsed(b).Ok?
    ensures Parsed(a + "," + b).Ok?
    ensures var f, g, h := Parsed(a).value, Parsed(b).value, Parsed(a + "," + b).value;
      var notF, notG := !MentionsAny(entry.Caption(), f.excludes), !MentionsAny(entry.Caption(), g.excludes);
      IsRun(entry, h) <==>
      if f.includes == [] && g.includes == [] then IsRun(entry, f) && IsRun(entry, g)
      else if f.includes == [] then IsRun(entry, g) && notF
      else if g.includes == [] then IsRun(entry, f) && notG
      else (IsRun(entry, f) && notG) || (IsRun(entry, g) && notF)
  {
    ParsedOfGlued(a, b);
    ConcatenatedRuns(entry, Parsed(a).value, Parsed(b).value);
  }

  /**
   * Filters that only exclude compose to the intersection of what they select, filters that only include to the
   * union.
   */
  lemma ComposedSelection(entries: seq<Entry>, a: string, b: string, e: Entry)
    requires Parsed(a).Ok? && Parsed(b).Ok?
    ensures Parsed(a + "," + b).Ok?
    ensures var f, g, h := Parsed(a).value, Parsed(b).value, Parsed(a + "," + b).value;
      && (f.includes == [] && g.includes == [] ==>
            (e in Chosen(entries, Some(h)) <==> e in Chosen(entries, Some(f)) && e in Chosen(entries, Some(g))))
      && (f.excludes == [] && g.excludes == [] ==>
            (e in Chosen(entries, Some(h)) <==> e in Chosen(entries, Some(f)) || e in Chosen(entries, Some(g))))
  {
    var f, g := Parsed(a).value, Parsed(b).value;
    ComposedRuns(e, a, b);
    ParsedIsParsed(a);
    ParsedIsParsed(b);
    ChosenAndDroppedAre(entries, Some(f));
    ChosenAndDroppedAre(entries, Some(g));
    ChosenAndDroppedAre(entries, Some(Parsed(a + "," + b).value));
  }

  lemma {:induction false} SkippedAre(entries: seq<Entry>, filter: Option<Filter>)
    ensures forall r :: r in Skipped(entries, filter)
              <==> exists e :: e in entries && VerdictOf(e, filter).ReportSkip?
                               && r == SkipResult(e, VerdictOf(e, filter).reason)
  {
    if entries != [] {
      var init, last := entries[..|entries| - 1], entries[|entries| - 1];
      SkippedAre(init, filter);
      assert entries == init + [last];
    }
  }

  lemma {:induction false} ChosenAndDroppedAre(entries: seq<Entry>, filter: Option<Filter>)
    ensures forall e :: e in Chosen(entries, filter) <==> e in entries && VerdictOf(e, filter).Run?
    ensures forall e :: e in Dropped(entries, filter) <==> e in entries && VerdictOf(e, filter).Drop?
  {
    if entries != [] {
      var init, last := entries[..|entries| - 1], entries[|entries| - 1];
      ChosenAndDroppedAre(init, filter);
      assert entries == init + [last];
    }
  }

  lemma {:induction false} GroupSizes(entries: seq<Entry>, filter: Option<Filter>)
    ensures |Chosen(entries, filter)| + |Skipped(entries, filter)| + |Dropped(entries, filter)| == |entries|
  {
    if entries != [] {
      GroupSizes(entries[..|entries| - 1], filter);
    }
  }

  /** Every registered test has exactly one of the three fates. */
  lemma VerdictsPartition(entries: seq<Entry>, filter: Option<Filter>)
    ensures |Chosen(entries, filter)| + |Skipped(entries, filter)| + |Dropped(entries, filter)| == |entries|
    ensures forall e :: e in Chosen(entries, filter) <==> e in entries && VerdictOf(e, filter).Run?
    ensures forall e :: e in Dropped(entries, filter) <==> e in entries && VerdictOf(e, filter).Drop?
    ensures forall r :: r in Skipped(entries, filter)
              <==> exists e :: e in entries && VerdictOf(e, filter).ReportSkip?
                               && r == SkipResult(e, VerdictOf(e, filter).reason)
  {
    GroupSizes(entries, filter);
    ChosenAndDroppedAre(entries, filter);
    SkippedAre(entries, filter);
  }

  // Order

  /** Increasing positions of exactly the wanted tests. */
  ghost predicate ArePositions(entries: seq<Entry>, wanted: Entry -> bool, at: seq<nat>)
  {
    && (forall j, k :: 0 <= j < k < |at| ==> at[j] < at[k])
    && (forall k :: 0 <= k < |at| ==> at[k] < |entries| && wanted(entries[at[k]]))
    && forall i: nat :: i < |entries| && wanted(entries[i]) ==> i in at
  }

  lemma PositionsExtend(entries: seq<Entry>, last: Entry, wanted: Entry -> bool, at: seq<nat>)
    requires ArePositions(entries, wanted, at)
    ensures ArePositions(entries + [last], wanted, at + if wanted(last) then [|entries|] else [])
  {
    var longer := at + if wanted(last) then [|entries|] else [];
    assert forall k :: 0 <= k < |at| ==> (entries + [last])[at[k]] == entries[at[k]];
    forall i: nat | i < |entries + [last]| && wanted((entries + [last])[i]) ensures i in longer {
      if i < |entries| {
        assert i in at;
      } else {
        assert longer[|at|] == i;
      }
    }
  }

  /** The chosen tests are those at increasing positions, so selection keeps their order. */
  lemma {:induction false} ChosenKeepsOrder(entries: seq<Entry>, filter: Option<Filter>) returns (at: seq<nat>)
    ensures ArePositions(entries, e => VerdictOf(e, filter).Run?, at) && |Chosen(entries, filter)| == |at|
    ensures forall k :: 0 <= k < |at| ==> Chosen(entries, filter)[k] == entries[at[k]]
  {
    at := [];
    if entries != [] {
      var init, last := entries[..|entries| - 1], entries[|entries| - 1];
      at := ChosenKeepsOrder(init, filter);
      assert entries == init + [last];
      var runs := (e: Entry) => VerdictOf(e, filter).Run?;
      PositionsExtend(init, last, runs, at);
      at := at + if runs(last) then [|init|] else [];
    }
  }

  /** The result reports the test as skipped for the reason of its annotation, in no time. */
  ghost predicate IsSkipOf(r: TestResult, entry: Entry)
  {
    && r.title == Label(entry.name, entry.properties) && r.properties == entry.properties && r.time == "0.000"
    && entry.skip.Some? && r.outcome == Skip(entry.skip.value)
  }

  /** So are the reported skips. */
  lemma {:induction false} SkippedKeepsOrder(entries: seq<Entry>, filter: Option<Filter>) returns (at: seq<nat>)
    ensures ArePositions(entries, e => VerdictOf(e, filter).ReportSkip?, at) && |Skipped(entries, filter)| == |at|
    ensures forall k :: 0 <= k < |at| ==> IsSkipOf(Skipped(entries, filter)[k], entries[at[k]])
  {
    at := [];
    if entries != [] {
      var init, last := entries[..|entries| - 1], entries[|entries| - 1];
      at := SkippedKeepsOrder(init, filter);
      assert entries == init + [last];
      var skips := (e: Entry) => VerdictOf(e, filter).ReportSkip?;
      PositionsExtend(init, last, skips, at);
      at := at + if skips(last) then [|init|] else [];
    }
  }

  // Running

  /** What a test function did: returned Ok, or an error message. */
  datatype Returned = Passed | Failed(message: string)

  /** The per-thread state of a worker: the title under which serial logs are saved. */
  class Worker {
    var currentTitle: string

    constructor ()
      ensures currentTitle == ""
    {
      currentTitle := "";
    }

    /** `run_test`; `returned` and `time` are what the test function does if it is invoked. */
    method RunTest(entry: Entry, shutdown: bool, returned: Returned, time: TimeText)
      returns (r: TestResult, invoked: bool)
      modifies this
      ensures currentTitle == entry.Caption()
      ensures invoked == !shutdown
      ensures r == ResultOf(entry, shutdown, returned, time) && IsResultOf(r, entry, shutdown, returned, time)
    {
      var caption := entry.Caption();
      var properties := entry.properties;
      currentTitle := caption;
      if shutdown {
        return TestResult(caption, properties, Fail("interrupted"), "0.000"), false;
      }
      invoked := true;
      var outcome;
      match returned {
        case Passed => outcome := Pass;
        case Failed(message) => outcome := Fail(message);
      }
      r := TestResult(caption, properties, outcome, time);
    }
  }

  function ResultOf(entry: Entry, shutdown: bool, returned: Returned, time: TimeText): TestResult
  {
    if shutdown then TestResult(entry.Caption(), entry.properties, Fail("interrupted"), "0.000")
    else TestResult(entry.Caption(), entry.properties, if returned.Passed? then Pass else Fail(returned.message), time)
  }

  /** A pass is a return of Ok without a shutdown request; an error keeps its message, a shutdown is a failure. */
  ghost predicate IsResultOf(r: TestResult, entry: Entry, shutdown: bool, returned: Returned, time: TimeText)
  {
    && r.title == Label(entry.name, entry.properties) && r.properties == entry.properties
    && (r.outcome.Pass? <==> !shutdown && returned.Passed?)
    && (r.outcome.Fail? <==> shutdown || returned.Failed?)
    && (shutdown ==> r.outcome == Fail("interrupted") && r.time == "0.000")
    && (!shutdown ==> r.time == time && (returned.Failed? ==> r.outcome == Fail(returned.message)))
  }

  lemma ResultOfIs(entry: Entry, shutdown: bool, returned: Returned, time: TimeText)
    ensures IsResultOf(ResultOf(entry, shutdown, returned, time), entry, shutdown, returned, time)
  {
  }

  // Accounting

  function Repeat(tests: seq<Entry>, n: nat): (all: seq<Entry>)
    ensures |all| == n * |tests|
  {
    if n == 0 then [] else Repeat(tests, n - 1) + tests
  }

  lemma OneMore(n: nat, m: nat)
    requires n > 0
    ensures n * m == (n - 1) * m + m
  {
  }

  lemma {:induction false} RepeatCounts(tests: seq<Entry>, n: nat, e: Entry)
    ensures multiset(Repeat(tests, n))[e] == n * multiset(tests)[e]
  {
    if n > 0 {
      RepeatCounts(tests, n - 1, e);
      assert multiset(Repeat(tests, n)) == multiset(Repeat(tests, n - 1)) + multiset(tests);
      OneMore(n, multiset(tests)[e]);
    }
  }

  function FailureList(results: seq<TestResult>): (failures: seq<(string, string)>)
    ensures |failures| == Failures(results)
  {
    if results == [] then []
    else
      (if results[0].outcome.Fail? then [(results[0].title, results[0].outcome.message)] else [])
      + FailureList(results[1..])
  }

  /** The list names exactly the failed results, with their messages. */
  lemma {:induction false} FailureListIs(results: seq<TestResult>, title: string, message: string)
    ensures (title, message) in FailureList(results)
       <==> exists k :: 0 <= k < |results| && results[k].title == title && results[k].outcome == Fail(message)
  {
    if results != [] {
      FailureListIs(results[1..], title, message);
      assert forall k :: 1 <= k < |results| ==> results[k] == results[1..][k - 1];
      assert forall k :: 0 <= k < |results[1..]| ==> results[1..][k] == results[k + 1];
    }
  }

  lemma {:induction false} CountsOfConcat(a: seq<TestResult>, b: seq<TestResult>)
    ensures Failures(a + b) == Failures(a) + Failures(b) && Skips(a + b) == Skips(a) + Skips(b)
  {
    if a == [] {
      assert a + b == b;
    } else {
      assert (a + b)[1..] == a[1..] + b;
      CountsOfConcat(a[1..], b);
    }
  }

  lemma {:induction false} SkippedAreSkips(entries: seq<Entry>, filter: Option<Filter>)
    ensures Skips(Skipped(entries, filter)) == |Skipped(entries, filter)| && Failures(Skipped(entries, filter)) == 0
  {
    if entries != [] {
      var init, last := entries[..|entries| - 1], entries[|entries| - 1];
      SkippedAreSkips(init, filter);
      match VerdictOf(last, filter)
      case ReportSkip(reason) =>
        CountsOfConcat(Skipped(init, filter), [SkipResult(last, reason)]);
      case _ =>
        assert Skipped(entries, filter) == Skipped(init, filter);
    }
  }

  lemma {:induction false} RunsAreNoSkips(results: seq<TestResult>)
    requires forall k :: 0 <= k < |results| ==> !results[k].outcome.Skip?
    ensures Skips(results) == 0
  {
    if results != [] {
      RunsAreNoSkips(results[1..]);
    }
  }

  datatype Exit = Success(passed: nat) | Failure(failed: nat, run: nat)

  /** What a worker met when it took one scheduled test. */
  datatype Occurrence = Occurrence(shutdown: bool, returned: Returned, time: TimeText)

  /**
   * Reading the report back gives the numbers that decided the exit status: the total is the runs plus the reported
   * skips, and the failures are those of the runs.
   */
  lemma ReportAgreesWithExit(entries: seq<Entry>, filter: Option<Filter>, repeats: nat, results: seq<TestResult>,
                             totalTime: TimeText)
    requires |results| == repeats * |Chosen(entries, filter)|
    requires forall k :: 0 <= k < |results| ==> !results[k].outcome.Skip?
    ensures var skips := Skipped(entries, filter);
      ReadReport(Document(skips + results, totalTime))
      == Some(Report(|skips| + repeats * |Chosen(entries, filter)|, Failures(results), |skips|, totalTime,
                     skips + results))
  {
    var skips := Skipped(entries, filter);
    ReportCounts(entries, filter, results);
    ReportOf(skips + results, |skips| + |results|, Failures(results), |skips|, totalTime);
  }

  lemma ReportOf(results: seq<TestResult>, total: nat, failures: nat, skipped: nat, time: TimeText)
    requires |results| == total && Failures(results) == failures && Skips(results) == skipped
    ensures ReadReport(Document(results, time)) == Some(Report(total, failures, skipped, time, results))
  {
    ReadReportOfDocument(results, time);
  }

  lemma ReportCounts(entries: seq<Entry>, filter: Option<Filter>, results: seq<TestResult>)
    requires forall k :: 0 <= k < |results| ==> !results[k].outcome.Skip?
    ensures Failures(Skipped(entries, filter) + results) == Failures(results)
    ensures Skips(Skipped(entries, filter) + results) == |Skipped(entries, filter)|
  {
    CountsOfConcat(Skipped(entries, filter), results);
    SkippedAreSkips(entries, filter);
    RunsAreNoSkips(results);
  }

  lemma SameSize(a: seq<Entry>, b: seq<Entry>)
    requires multiset(a) == multiset(b)
    ensures |a| == |b|
  {
    assert |a| == |multiset(a)| && |b| == |multiset(b)|;
  }

  function FailedTests(exit: Exit): nat { if exit.Failure? then exit.failed else 0 }

  /** Every scheduled test on a worker, in its position. */
  method RunAll(scheduled: seq<Entry>, met: seq<Occurrence>) returns (results: seq<TestResult>)
    requires |met| == |scheduled|
    ensures |results| == |scheduled|
    ensures forall i :: 0 <= i < |results| ==>
              IsResultOf(results[i], scheduled[i], met[i].shutdown, met[i].returned, met[i].time)
  {
    var worker := new Worker();
    results := [];
    for i := 0 to |scheduled|
      invariant |results| == i
      invariant forall k :: 0 <= k < i ==>
                  IsResultOf(results[k], scheduled[k], met[k].shutdown, met[k].returned, met[k].time)
    {
      var result, invoked := worker.RunTest(scheduled[i], met[i].shutdown, met[i].returned, met[i].time);
      results := results + [result];
    }
  }

  /**
   * `main` from selection to exit status. `scheduled` is the shuffled list and `met` says what happens to each of
   * its tests; both come from outside. Reading the report back gives the numbers that decided the exit status.
   */
  method RunSuite(entries: seq<Entry>, filter: Option<Filter>, report: bool, repeats: nat,
                  scheduled: seq<Entry>, met: seq<Occurrence>, totalTime: TimeText)
    returns (exit: Exit, junit: Option<string>, results: seq<TestResult>)
    requires multiset(scheduled) == multiset(Repeat(Chosen(entries, filter), repeats)) && |met| == |scheduled|
    ensures |results| == |scheduled| == repeats * |Chosen(entries, filter)|
    ensures forall i :: 0 <= i < |results| ==>
              IsResultOf(results[i], scheduled[i], met[i].shutdown, met[i].returned, met[i].time)
    ensures exit == if Failures(results) > 0 then Failure(Failures(results), |results|) else Success(|results|)
    ensures junit.Some? <==> report
    ensures report ==>
              var skips := Skipped(entries, filter);
              ReadReport(junit.value)
              == Some(Report(|skips| + repeats * |Chosen(entries, filter)|, FailedTests(exit), |skips|, totalTime,
                             skips + results))
  {
    SameSize(scheduled, Repeat(Chosen(entries, filter), repeats));
    var tests, skips := Select(entries, filter, report);
    results := RunAll(scheduled, met);
    var failures := FailureList(results);
    exit := if failures != [] then Failure(|failures|, |results|) else Success(|tests| * repeats);
    junit := None;
    if report {
      var xml := FormatJunit(skips + results, totalTime);
      junit := Some(xml);
      ReportAgreesWithExit(entries, filter, repeats, results, totalTime);
    }
  }
}
