/** Reading a written report gives back everything that was reported. */
module JunitRoundTrip {
  import opened Wrappers
  import opened Decimal
  import opened XmlEvents
  import opened Junit
  import opened JunitReader

  // All names in a report are legal

  lemma TagNames()
    ensures IsName("testsuites") && IsName("testsuite") && IsName("testcase") && IsName("properties")
    ensures IsName("property") && IsName("failure") && IsName("skipped")
  {
  }

  lemma KeyNames()
    ensures IsName("version") && IsName("encoding") && IsName("tests") && IsName("failures") && IsName("skipped")
    ensures IsName("time") && IsName("name") && IsName("classname") && IsName("value") && IsName("message")
  {
  }

  lemma ThenIsPrintable(blank: string, event: Event, rest: seq<Event>)
    requires IsPrintable(event) && ArePrintable(rest)
    ensures ArePrintable(Then(blank, event, rest)) && ArePrintable(Then(blank, event, Characters("\n") + rest))
  {
    PrintOfCharacters(blank, "");
    PrintOfCharacters("\n", "");
  }

  lemma {:induction false} PropertiesArePrintable(properties: Attributes, rest: seq<Event>)
    requires ArePrintable(rest)
    ensures ArePrintable(PropertiesThen(properties, rest))
  {
    if properties != [] {
      PropertiesArePrintable(properties[1..], rest);
      TagNames();
      KeyNames();
      ThenIsPrintable("        ", EmptyElement("property", [("name", properties[0].0), ("value", properties[0].1)]),
                      PropertiesThen(properties[1..], rest));
    }
  }

  lemma BodyIsPrintable(result: TestResult, rest: seq<Event>)
    requires ArePrintable(rest)
    ensures ArePrintable(BodyThen(result, rest))
  {
    TagNames();
    ThenIsPrintable("    ", End("testcase"), rest);
    var ending := Then("    ", End("testcase"), Characters("\n") + rest);
    OutcomeIsPrintable(result.outcome, ending);
    var outcome := OutcomeThen(result.outcome, ending);
    if result.properties != [] {
      ThenIsPrintable("      ", End("properties"), outcome);
      var tail := Then("      ", End("properties"), Characters("\n") + outcome);
      PropertiesArePrintable(result.properties, tail);
      ThenIsPrintable("      ", Start("properties", []), PropertiesThen(result.properties, tail));
    }
  }

  lemma OutcomeIsPrintable(outcome: Outcome, rest: seq<Event>)
    requires ArePrintable(rest)
    ensures ArePrintable(OutcomeThen(outcome, rest))
  {
    TagNames();
    KeyNames();
    match outcome
    case Pass =>
    case Fail(message) =>
      ThenIsPrintable(message, End("failure"), rest);
      ThenIsPrintable("      ", Start("failure", [("message", message)]),
                      Then(message, End("failure"), Characters("\n") + rest));
    case Skip(reason) => ThenIsPrintable("      ", EmptyElement("skipped", [("message", reason)]), rest);
  }

  lemma {:induction false} CasesArePrintable(results: seq<TestResult>, rest: seq<Event>)
    requires ArePrintable(rest)
    ensures ArePrintable(CasesThen(results, rest))
  {
    if results != [] {
      var result, others := results[0], CasesThen(results[1..], rest);
      CasesArePrintable(results[1..], rest);
      BodyIsPrintable(result, others);
      TagNames();
      KeyNames();
      ThenIsPrintable("    ", EmptyElement("testcase", CaseAttributes(result)), others);
      ThenIsPrintable("    ", Start("testcase", CaseAttributes(result)), BodyThen(result, others));
    }
  }

  lemma FooterIsPrintable()
    ensures ArePrintable(FooterEvents())
  {
    TagNames();
    ThenIsPrintable("", End("testsuites"), []);
    ThenIsPrintable("  ", End("testsuite"), Then("", End("testsuites"), Characters("\n") + []));
  }

  lemma SuiteIsPrintable(name: string, attributes: Attributes, indent: string, rest: seq<Event>)
    requires IsName(name) && HasNames(attributes) && ArePrintable(rest)
    ensures ArePrintable(Then(indent, Start(name, attributes), Characters("\n") + rest))
  {
    ThenIsPrintable(indent, Start(name, attributes), rest);
  }

  lemma CountsHaveNames(results: seq<TestResult>, time: TimeText)
    ensures HasNames(CountAttributes(results, time))
    ensures HasNames([("name", "qemu-test")] + CountAttributes(results, time))
  {
    KeyNames();
  }

  lemma SuitesArePrintable(results: seq<TestResult>, time: TimeText, rest: seq<Event>)
    requires ArePrintable(rest)
    ensures ArePrintable(SuitesThen(results, time, rest))
  {
    var counts := CountAttributes(results, time);
    var named := [("name", "qemu-test")] + counts;
    TagNames();
    CountsHaveNames(results, time);
    SuiteIsPrintable("testsuite", named, "  ", rest);
    SuiteIsPrintable("testsuites", counts, "", Then("  ", Start("testsuite", named), Characters("\n") + rest));
  }

  lemma DocumentIsPrintable(results: seq<TestResult>, time: TimeText)
    ensures ArePrintable(DocumentEvents(results, time))
  {
    FooterIsPrintable();
    CasesArePrintable(results, FooterEvents());
    SuitesArePrintable(results, time, CasesThen(results, FooterEvents()));
    KeyNames();
    ThenIsPrintable("", XML_DECLARATION, SuitesThen(results, time, CasesThen(results, FooterEvents())));
  }

  // Reading the events back

  ghost predicate IsBlank(s: string) { forall k :: 0 <= k < |s| ==> s[k] == ' ' || s[k] == '\n' }

  lemma {:induction false} SkipBlankOf(blank: string, rest: seq<Event>)
    requires IsBlank(blank)
    ensures SkipBlank(Characters(blank) + rest) == SkipBlank(rest)
  {
    if blank == "" {
      assert Characters(blank) + rest == rest;
    } else {
      assert (Characters(blank) + rest)[1..] == Characters(blank[1..]) + rest;
      SkipBlankOf(blank[1..], rest);
    }
  }

  lemma SkipToEvent(blank: string, event: Event, rest: seq<Event>)
    requires IsBlank(blank) && !event.Character?
    ensures SkipBlank(Then(blank, event, rest)) == [event] + rest
  {
    SkipBlankOf(blank, [event] + rest);
  }

  /** The two lists of events differ only in the blank text they start with. */
  ghost predicate SameAfterBlank(a: seq<Event>, b: seq<Event>) { SkipBlank(a) == SkipBlank(b) }

  lemma AfterLine(rest: seq<Event>)
    ensures SameAfterBlank(Characters("\n") + rest, rest)
  {
    SkipBlankOf("\n", rest);
  }

  lemma {:induction false} ReadPropertiesOf(events: seq<Event>, properties: Attributes, rest: seq<Event>)
    requires SameAfterBlank(events, PropertiesThen(properties, Then("      ", End("properties"), rest)))
    ensures ReadProperties(events) == Some((properties, rest))
    decreases |properties|
  {
    if properties == [] {
      SkipToEvent("      ", End("properties"), rest);
    } else {
      var tail := PropertiesThen(properties[1..], Then("      ", End("properties"), rest));
      var attributes := [("name", properties[0].0), ("value", properties[0].1)];
      SkipToEvent("        ", EmptyElement("property", attributes), Characters("\n") + tail);
      AfterLine(tail);
      ReadPropertiesOf(Characters("\n") + tail, properties[1..], rest);
      LookupOfTwo("name", properties[0].0, "value", properties[0].1);
      assert [properties[0]] + properties[1..] == properties;
    }
  }

  lemma LookupOfTwo(a: string, x: string, b: string, y: string)
    requires a != b
    ensures Lookup([(a, x), (b, y)], a) == Some(x) && Lookup([(a, x), (b, y)], b) == Some(y)
  {
    assert [(a, x), (b, y)][1..] == [(b, y)];
  }

  lemma ReadPropertiesBlockOf(events: seq<Event>, properties: Attributes, rest: seq<Event>)
    requires SameAfterBlank(events, PropertiesBlockThen(properties, rest))
    requires SkipBlank(rest) != [] && SkipBlank(rest)[0] != Start("properties", [])
    ensures ReadPropertiesBlock(events).Some?
    ensures ReadPropertiesBlock(events).value.0 == properties
    ensures SameAfterBlank(ReadPropertiesBlock(events).value.1, rest)
  {
    if properties == [] {
      SkipBlankTwice(rest);
    } else {
      var tail := PropertiesThen(properties, Then("      ", End("properties"), Characters("\n") + rest));
      SkipToEvent("      ", Start("properties", []), Characters("\n") + tail);
      AfterLine(tail);
      ReadPropertiesOf(Characters("\n") + tail, properties, Characters("\n") + rest);
      ReadOpenedBlock(events, Characters("\n") + tail, properties, Characters("\n") + rest);
      AfterLine(rest);
    }
  }

  lemma ReadOpenedBlock(events: seq<Event>, inner: seq<Event>, properties: Attributes, after: seq<Event>)
    requires SkipBlank(events) == [Start("properties", [])] + inner
    requires ReadProperties(inner) == Some((properties, after))
    ensures ReadPropertiesBlock(events) == Some((properties, after))
  {
    assert ([Start("properties", [])] + inner)[1..] == inner;
  }

  lemma {:induction false} SkipBlankTwice(events: seq<Event>)
    ensures SkipBlank(SkipBlank(events)) == SkipBlank(events)
  {
    if events != [] {
      SkipBlankTwice(events[1..]);
    }
  }

  lemma {:induction false} TakeTextOf(text: string, event: Event, rest: seq<Event>)
    requires !event.Character?
    ensures TakeText(Then(text, event, rest)) == (text, [event] + rest)
  {
    if text == "" {
      assert Then(text, event, rest) == [event] + rest;
    } else {
      assert Then(text, event, rest)[1..] == Then(text[1..], event, rest);
      TakeTextOf(text[1..], event, rest);
      assert [text[0]] + text[1..] == text;
    }
  }

  lemma LookupOfOne(key: string, text: string)
    ensures Lookup([(key, text)], key) == Some(text)
  {
  }

  lemma ReadFailureOf(events: seq<Event>, message: string, rest: seq<Event>)
    requires SameAfterBlank(events, OutcomeThen(Fail(message), rest))
    ensures ReadOutcome(events) == Some((Fail(message), Characters("\n") + rest))
  {
    var tail := Then(message, End("failure"), Characters("\n") + rest);
    SkipToEvent("      ", Start("failure", [("message", message)]), tail);
    TakeTextOf(message, End("failure"), Characters("\n") + rest);
    LookupOfOne("message", message);
  }

  lemma ReadSkipOf(events: seq<Event>, reason: string, rest: seq<Event>)
    requires SameAfterBlank(events, OutcomeThen(Skip(reason), rest))
    ensures ReadOutcome(events) == Some((Skip(reason), Characters("\n") + rest))
  {
    SkipToEvent("      ", EmptyElement("skipped", [("message", reason)]), Characters("\n") + rest);
    LookupOfOne("message", reason);
  }

  lemma ReadOutcomeOf(events: seq<Event>, outcome: Outcome, rest: seq<Event>)
    requires SameAfterBlank(events, OutcomeThen(outcome, rest))
    requires SkipBlank(rest) != [] && SkipBlank(rest)[0].End?
    ensures ReadOutcome(events).Some?
    ensures ReadOutcome(events).value.0 == outcome
    ensures SameAfterBlank(ReadOutcome(events).value.1, rest)
  {
    AfterLine(rest);
    match outcome
    case Pass => SkipBlankTwice(rest);
    case Fail(message) => ReadFailureOf(events, message, rest);
    case Skip(reason) => ReadSkipOf(events, reason, rest);
  }

  lemma OutcomeIsNoProperties(outcome: Outcome, rest: seq<Event>)
    requires SkipBlank(rest) != [] && SkipBlank(rest)[0].End?
    ensures SkipBlank(OutcomeThen(outcome, rest)) != []
    ensures SkipBlank(OutcomeThen(outcome, rest))[0] != Start("properties", [])
  {
    match outcome
    case Pass =>
    case Fail(message) =>
      SkipToEvent("      ", Start("failure", [("message", message)]),
                  Then(message, End("failure"), Characters("\n") + rest));
    case Skip(reason) =>
      SkipToEvent("      ", EmptyElement("skipped", [("message", reason)]), Characters("\n") + rest);
  }

  lemma ReadBodyOf(events: seq<Event>, result: TestResult, rest: seq<Event>)
    requires SameAfterBlank(events, BodyThen(result, rest))
    ensures ReadBody(events) == Some(((result.properties, result.outcome), Characters("\n") + rest))
  {
    var ending := Then("    ", End("testcase"), Characters("\n") + rest);
    SkipToEvent("    ", End("testcase"), Characters("\n") + rest);
    OutcomeIsNoProperties(result.outcome, ending);
    ReadPropertiesBlockOf(events, result.properties, OutcomeThen(result.outcome, ending));
    ReadOutcomeOf(ReadPropertiesBlock(events).value.1, result.outcome, ending);
  }

  lemma LookupInCase(result: TestResult)
    ensures Lookup(CaseAttributes(result), "name") == Some(result.title)
    ensures Lookup(CaseAttributes(result), "time") == Some(result.time)
  {
    assert CaseAttributes(result)[1..] == [("classname", "qemu-test"), ("time", result.time)];
    LookupOfTwo("classname", "qemu-test", "time", result.time);
  }

  lemma ReadCaseOf(result: TestResult, rest: seq<Event>)
    ensures var events := SkipBlank(CaseThen(result, rest));
      AtCase(events) && ReadCase(events) == Some((result, Characters("\n") + rest))
  {
    LookupInCase(result);
    if result.outcome.Pass? && result.properties == [] {
      SkipToEvent("    ", EmptyElement("testcase", CaseAttributes(result)), Characters("\n") + rest);
    } else {
      var body := Characters("\n") + BodyThen(result, rest);
      SkipToEvent("    ", Start("testcase", CaseAttributes(result)), body);
      AfterLine(BodyThen(result, rest));
      ReadBodyOf(body, result, rest);
      ReadFullCase(result, body, Characters("\n") + rest);
    }
  }

  lemma ReadFullCase(result: TestResult, body: seq<Event>, rest: seq<Event>)
    requires Lookup(CaseAttributes(result), "name") == Some(result.title)
    requires Lookup(CaseAttributes(result), "time") == Some(result.time)
    requires ReadBody(body) == Some(((result.properties, result.outcome), rest))
    ensures var events := [Start("testcase", CaseAttributes(result))] + body;
      AtCase(events) && ReadCase(events) == Some((result, rest))
  {
    var events := [Start("testcase", CaseAttributes(result))] + body;
    assert events[0] == Start("testcase", CaseAttributes(result)) && events[1..] == body;
  }

  lemma {:induction false} ReadCasesOf(events: seq<Event>, results: seq<TestResult>, rest: seq<Event>)
    requires SameAfterBlank(events, CasesThen(results, rest))
    requires SkipBlank(rest) != [] && SkipBlank(rest)[0].End?
    ensures ReadCases(events) == Some((results, SkipBlank(rest)))
    decreases |results|
  {
    if results != [] {
      var others := CasesThen(results[1..], rest);
      ReadCaseOf(results[0], others);
      AfterLine(others);
      ReadCasesOf(Characters("\n") + others, results[1..], rest);
      assert [results[0]] + results[1..] == results;
    }
  }

  lemma ReadNumberOf(n: nat)
    ensures ReadNumber(Some(Show(n))) == Some(n)
  {
    ReadOfShow(n);
  }

  lemma LookupSkips(key: string, other: string, text: string, attributes: Attributes)
    ensures Lookup([(other, text)] + attributes, key) == if other == key then Some(text) else Lookup(attributes, key)
  {
    assert ([(other, text)] + attributes)[1..] == attributes;
  }

  lemma LookupCounts(a: string, b: string, c: string, d: string)
    ensures var attributes := [("tests", a), ("failures", b), ("skipped", c), ("time", d)];
      && Lookup(attributes, "tests") == Some(a) && Lookup(attributes, "failures") == Some(b)
      && Lookup(attributes, "skipped") == Some(c) && Lookup(attributes, "time") == Some(d)
  {
    var attributes := [("tests", a), ("failures", b), ("skipped", c), ("time", d)];
    assert attributes[1..] == [("failures", b), ("skipped", c), ("time", d)];
    assert attributes[1..][1..] == [("skipped", c), ("time", d)];
    LookupOfTwo("skipped", c, "time", d);
  }

  ghost function Summary(results: seq<TestResult>, time: TimeText): Report
  {
    Report(|results|, Failures(results), Skips(results), time, [])
  }

  lemma ReadSuiteOf(events: seq<Event>, name: string, attributes: Attributes, results: seq<TestResult>, time: TimeText,
                    rest: seq<Event>)
    requires attributes == CountAttributes(results, time)
        || attributes == [("name", "qemu-test")] + CountAttributes(results, time)
    requires SkipBlank(events) == [Start(name, attributes)] + rest
    ensures ReadSuite(events, name) == Some((Summary(results, time), rest))
  {
    var counts := CountAttributes(results, time);
    LookupCounts(Show(|results|), Show(Failures(results)), Show(Skips(results)), time);
    LookupSkips("tests", "name", "qemu-test", counts);
    LookupSkips("failures", "name", "qemu-test", counts);
    LookupSkips("skipped", "name", "qemu-test", counts);
    LookupSkips("time", "name", "qemu-test", counts);
    ReadNumberOf(|results|);
    ReadNumberOf(Failures(results));
    ReadNumberOf(Skips(results));
  }

  lemma ReadFooter()
    ensures SkipBlank(FooterEvents()) != [] && SkipBlank(FooterEvents())[0].End?
    ensures IsEnd(SkipBlank(FooterEvents()), ["testsuite", "testsuites"])
  {
    var last := Then("", End("testsuites"), Characters("\n") + []);
    SkipToEvent("  ", End("testsuite"), Characters("\n") + last);
    SkipBlankTwice(FooterEvents());
    AfterLine(last);
    SkipToEvent("", End("testsuites"), Characters("\n") + []);
    AfterLine([]);
    assert ["testsuite", "testsuites"][1..] == ["testsuites"];
    assert IsEnd(Characters("\n") + [], []);
    assert IsEnd(Characters("\n") + last, ["testsuites"]);
  }

  lemma ReadEventsOf(results: seq<TestResult>, time: TimeText)
    ensures ReadEvents(DocumentEvents(results, time)) == Some(Summary(results, time).(results := results))
  {
    var counts := CountAttributes(results, time);
    var cases := CasesThen(results, FooterEvents());
    var inner := Then("  ", Start("testsuite", [("name", "qemu-test")] + counts), Characters("\n") + cases);
    var outer := Then("", Start("testsuites", counts), Characters("\n") + inner);
    var events := DocumentEvents(results, time);
    assert events == [XML_DECLARATION] + (Characters("\n") + outer);
    AfterLine(outer);
    SkipToEvent("", Start("testsuites", counts), Characters("\n") + inner);
    ReadSuiteOf(Characters("\n") + outer, "testsuites", counts, results, time, Characters("\n") + inner);
    AfterLine(inner);
    SkipToEvent("  ", Start("testsuite", [("name", "qemu-test")] + counts), Characters("\n") + cases);
    ReadSuiteOf(Characters("\n") + inner, "testsuite", [("name", "qemu-test")] + counts, results, time,
                Characters("\n") + cases);
    AfterLine(cases);
    ReadFooter();
    ReadCasesOf(Characters("\n") + cases, results, FooterEvents());
  }

  /** Every result in order, the three counts and the times come back, whatever the texts contain. */
  lemma ReadReportOfDocument(results: seq<TestResult>, time: TimeText)
    ensures ReadReport(Document(results, time))
         == Some(Report(|results|, Failures(results), Skips(results), time, results))
  {
    DocumentIsPrinted(results, time);
    DocumentIsPrintable(results, time);
    ScanOfPrinted(DocumentEvents(results, time));
    ReadEventsOf(results, time);
  }

  // Nesting

  lemma ThenKeepsOpen(open: seq<string>, blank: string, event: Event, rest: seq<Event>)
    ensures OpenElements(open, Then(blank, event, rest)) == OpenElements(open, [event] + rest)
    ensures OpenElements(open, Characters(blank) + rest) == OpenElements(open, rest)
  {
    CharactersKeepOpen(open, blank);
    OpenElementsOfConcat(open, Characters(blank), [event] + rest);
    OpenElementsOfConcat(open, Characters(blank), rest);
  }

  /** The effect of one event on the open elements, and then of the rest. */
  function AfterEvent(open: seq<string>, event: Event, rest: seq<Event>): Option<seq<string>>
  {
    if event.Start? then OpenElements([event.name] + open, rest)
    else if event.End? then
      if open != [] && open[0] == event.name then OpenElements(open[1..], rest) else None
    else OpenElements(open, rest)
  }

  lemma OpenStep(open: seq<string>, event: Event, rest: seq<Event>)
    ensures OpenElements(open, [event] + rest) == AfterEvent(open, event, rest)
  {
    assert ([event] + rest)[1..] == rest;
  }

  /** One tag on its own line. */
  lemma LineNests(open: seq<string>, blank: string, event: Event, rest: seq<Event>)
    ensures OpenElements(open, Then(blank, event, Characters("\n") + rest)) == AfterEvent(open, event, rest)
  {
    ThenKeepsOpen(open, blank, event, Characters("\n") + rest);
    OpenStep(open, event, Characters("\n") + rest);
    if event.Start? {
      ThenKeepsOpen([event.name] + open, "\n", event, rest);
    } else if event.End? && open != [] {
      ThenKeepsOpen(open[1..], "\n", event, rest);
    } else {
      ThenKeepsOpen(open, "\n", event, rest);
    }
  }

  lemma {:induction false} PropertiesNest(open: seq<string>, properties: Attributes, rest: seq<Event>)
    ensures OpenElements(open, PropertiesThen(properties, rest)) == OpenElements(open, rest)
  {
    if properties != [] {
      LineNests(open, "        ", EmptyElement("property", [("name", properties[0].0), ("value", properties[0].1)]),
                PropertiesThen(properties[1..], rest));
      PropertiesNest(open, properties[1..], rest);
    }
  }

  lemma EndClosesStart(open: seq<string>, name: string)
    ensures ([name] + open)[0] == name && ([name] + open)[1..] == open
  {
  }

  lemma PropertiesBlockNests(open: seq<string>, properties: Attributes, rest: seq<Event>)
    ensures OpenElements(open, PropertiesBlockThen(properties, rest)) == OpenElements(open, rest)
  {
    if properties != [] {
      var tail := Then("      ", End("properties"), Characters("\n") + rest);
      LineNests(open, "      ", Start("properties", []), PropertiesThen(properties, tail));
      PropertiesNest(["properties"] + open, properties, tail);
      LineNests(["properties"] + open, "      ", End("properties"), rest);
      EndClosesStart(open, "properties");
    }
  }

  lemma OutcomeNests(open: seq<string>, outcome: Outcome, rest: seq<Event>)
    ensures OpenElements(open, OutcomeThen(outcome, rest)) == OpenElements(open, rest)
  {
    match outcome
    case Pass =>
    case Fail(message) =>
      var tail := Then(message, End("failure"), Characters("\n") + rest);
      ThenKeepsOpen(open, "      ", Start("failure", [("message", message)]), tail);
      OpenStep(open, Start("failure", [("message", message)]), tail);
      LineNests(["failure"] + open, message, End("failure"), rest);
      EndClosesStart(open, "failure");
    case Skip(reason) => LineNests(open, "      ", EmptyElement("skipped", [("message", reason)]), rest);
  }

  lemma {:induction false} CasesNest(open: seq<string>, results: seq<TestResult>, rest: seq<Event>)
    ensures OpenElements(open, CasesThen(results, rest)) == OpenElements(open, rest)
  {
    if results != [] {
      var result, others := results[0], CasesThen(results[1..], rest);
      CasesNest(open, results[1..], rest);
      LineNests(open, "    ", EmptyElement("testcase", CaseAttributes(result)), others);
      LineNests(open, "    ", Start("testcase", CaseAttributes(result)), BodyThen(result, others));
      var ending := Then("    ", End("testcase"), Characters("\n") + others);
      PropertiesBlockNests(["testcase"] + open, result.properties, OutcomeThen(result.outcome, ending));
      OutcomeNests(["testcase"] + open, result.outcome, ending);
      LineNests(["testcase"] + open, "    ", End("testcase"), others);
      EndClosesStart(open, "testcase");
    }
  }

  /** Every element of a written report is closed, and elements do not overlap. */
  lemma DocumentNests(results: seq<TestResult>, time: TimeText)
    ensures Scan(Document(results, time)).Some?
    ensures IsForest(Scan(Document(results, time)).value)
  {
    DocumentIsPrinted(results, time);
    DocumentIsPrintable(results, time);
    ScanOfPrinted(DocumentEvents(results, time));
    var counts := CountAttributes(results, time);
    var rest := CasesThen(results, FooterEvents());
    var inner := Then("  ", Start("testsuite", [("name", "qemu-test")] + counts), Characters("\n") + rest);
    LineNests([], "", XML_DECLARATION, SuitesThen(results, time, rest));
    LineNests([], "", Start("testsuites", counts), inner);
    var one := ["testsuites"] + [];
    LineNests(one, "  ", Start("testsuite", [("name", "qemu-test")] + counts), rest);
    var two := ["testsuite"] + one;
    CasesNest(two, results, FooterEvents());
    var last := Then("", End("testsuites"), Characters("\n") + []);
    LineNests(two, "  ", End("testsuite"), last);
    EndClosesStart(one, "testsuite");
    LineNests(one, "", End("testsuites"), []);
    EndClosesStart([], "testsuites");
    NoneOpenIsForest(DocumentEvents(results, time));
  }
}
