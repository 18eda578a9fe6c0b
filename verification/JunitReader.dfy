/** A reference reader of JUnit reports, and the proof that it undoes the writer. */
module JunitReader {
  import opened Wrappers
  import opened Decimal
  import opened Escaping
  import opened XmlEvents
  import opened Junit

  datatype Report = Report(tests: nat, failures: nat, skipped: nat, time: string, results: seq<TestResult>)

  // Reading

  function Lookup(attributes: Attributes, key: string): Option<string>
  {
    if attributes == [] then None
    else if attributes[0].0 == key then Some(attributes[0].1)
    else Lookup(attributes[1..], key)
  }

  function ReadNumber(text: Option<string>): Option<nat>
  {
    if text.Some? && text.value != "" && forall k :: 0 <= k < |text.value| ==> '0' <= text.value[k] <= '9'
    then Some(Read(text.value)) else None
  }

  function SkipBlank(events: seq<Event>): (rest: seq<Event>)
    ensures |rest| <= |events|
  {
    if events != [] && (events[0] == Character(' ') || events[0] == Character('\n')) then SkipBlank(events[1..])
    else events
  }

  function TakeText(events: seq<Event>): (r: (string, seq<Event>))
    ensures |r.1| <= |events|
  {
    if events != [] && events[0].Character? then
      var (text, rest) := TakeText(events[1..]);
      ([events[0].c] + text, rest)
    else ("", events)
  }

  /** The property elements up to the end of their block. */
  function ReadProperties(events: seq<Event>): (r: Option<(Attributes, seq<Event>)>)
    ensures r.Some? ==> |r.value.1| < |events|
    decreases |events|
  {
    var events := SkipBlank(events);
    if events == [] then None
    else if events[0] == End("properties") then Some(([], events[1..]))
    else if events[0].EmptyElement? && events[0].name == "property" then
      var key, value := Lookup(events[0].attributes, "name"), Lookup(events[0].attributes, "value");
      if key.None? || value.None? then None
      else
        match ReadProperties(events[1..])
        case None => None
        case Some((others, rest)) => Some(([(key.value, value.value)] + others, rest))
    else None
  }

  function ReadPropertiesBlock(events: seq<Event>): (r: Option<(Attributes, seq<Event>)>)
    ensures r.Some? ==> |r.value.1| <= |events|
  {
    var events := SkipBlank(events);
    if events != [] && events[0] == Start("properties", []) then ReadProperties(events[1..]) else Some(([], events))
  }

  function ReadOutcome(events: seq<Event>): (r: Option<(Outcome, seq<Event>)>)
    ensures r.Some? ==> |r.value.1| <= |events|
  {
    var events := SkipBlank(events);
    if events != [] && events[0].Start? && events[0].name == "failure" then
      var message := Lookup(events[0].attributes, "message");
      var (text, rest) := TakeText(events[1..]);
      if message == Some(text) && rest != [] && rest[0] == End("failure") then Some((Fail(text), rest[1..])) else None
    else if events != [] && events[0].EmptyElement? && events[0].name == "skipped" then
      var reason := Lookup(events[0].attributes, "message");
      if reason.Some? then Some((Skip(reason.value), events[1..])) else None
    else Some((Pass, events))
  }

  /** What is between the start and the end of a test case, up to and including the end. */
  function ReadBody(events: seq<Event>): (r: Option<((Attributes, Outcome), seq<Event>)>)
    ensures r.Some? ==> |r.value.1| < |events|
  {
    match ReadPropertiesBlock(events)
    case None => None
    case Some((properties, rest)) =>
      match ReadOutcome(rest)
      case None => None
      case Some((outcome, rest)) =>
        var rest := SkipBlank(rest);
        if rest != [] && rest[0] == End("testcase") then Some(((properties, outcome), rest[1..])) else None
  }

  predicate AtCase(events: seq<Event>)
  {
    events != [] && (events[0].Start? || events[0].EmptyElement?) && events[0].name == "testcase"
  }

  predicate IsTime(text: Option<string>)
  {
    text.Some? && forall k :: 0 <= k < |text.value| ==> IsTimeChar(text.value[k])
  }

  function ReadCase(events: seq<Event>): (r: Option<(TestResult, seq<Event>)>)
    requires AtCase(events)
    ensures r.Some? ==> |r.value.1| < |events|
  {
    var title, time := Lookup(events[0].attributes, "name"), Lookup(events[0].attributes, "time");
    var body := if events[0].EmptyElement? then Some((([], Pass), events[1..])) else ReadBody(events[1..]);
    if title.None? || !IsTime(time) || body.None? then None
    else
      var ((properties, outcome), rest) := body.value;
      Some((TestResult(title.value, properties, outcome, time.value), rest))
  }

  function ReadCases(events: seq<Event>): Option<(seq<TestResult>, seq<Event>)>
    decreases |events|
  {
    var events := SkipBlank(events);
    if !AtCase(events) then Some(([], events))
    else
      match ReadCase(events)
      case None => None
      case Some((result, rest)) =>
        match ReadCases(rest)
        case None => None
        case Some((others, rest)) => Some(([result] + others, rest))
  }

  /** The counts and the time of a suite element. */
  function ReadSuite(events: seq<Event>, name: string): Option<(Report, seq<Event>)>
  {
    var events := SkipBlank(events);
    if events != [] && events[0].Start? && events[0].name == name then
      var attributes := events[0].attributes;
      var tests, failures, skipped, time :=
        ReadNumber(Lookup(attributes, "tests")), ReadNumber(Lookup(attributes, "failures")),
        ReadNumber(Lookup(attributes, "skipped")), Lookup(attributes, "time");
      if tests.None? || failures.None? || skipped.None? || time.None? then None
      else Some((Report(tests.value, failures.value, skipped.value, time.value, []), events[1..]))
    else None
  }

  predicate IsEnd(events: seq<Event>, names: seq<string>)
    decreases |names|
  {
    var events := SkipBlank(events);
    if names == [] then events == []
    else events != [] && events[0] == End(names[0]) && IsEnd(events[1..], names[1..])
  }

  function ReadEvents(events: seq<Event>): Option<Report>
  {
    if events == [] || !events[0].Declaration? then None
    else
      match ReadSuite(events[1..], "testsuites")
      case None => None
      case Some((outer, rest)) =>
        match ReadSuite(rest, "testsuite")
        case None => None
        case Some((inner, rest)) =>
          match ReadCases(rest)
          case None => None
          case Some((results, rest)) =>
            if outer != inner || !IsEnd(rest, ["testsuite", "testsuites"]) then None
            else Some(inner.(results := results))
  }

  function ReadReport(xml: string): Option<Report>
  {
    match Scan(xml)
    case None => None
    case Some(events) => ReadEvents(events)
  }

  // The events of a document, each followed by the events that come after it

  function Then(blank: string, event: Event, rest: seq<Event>): seq<Event>
  {
    Characters(blank) + ([event] + rest)
  }

  function CountAttributes(results: seq<TestResult>, time: TimeText): Attributes
  {
    [("tests", Show(|results|)), ("failures", Show(Failures(results))), ("skipped", Show(Skips(results))),
     ("time", time)]
  }

  function PropertiesThen(properties: Attributes, rest: seq<Event>): seq<Event>
  {
    if properties == [] then rest
    else
      Then("        ", EmptyElement("property", [("name", properties[0].0), ("value", properties[0].1)]),
           Characters("\n") + PropertiesThen(properties[1..], rest))
  }

  function PropertiesBlockThen(properties: Attributes, rest: seq<Event>): seq<Event>
  {
    if properties == [] then rest
    else
      Then("      ", Start("properties", []),
           Characters("\n") + PropertiesThen(properties, Then("      ", End("properties"), Characters("\n") + rest)))
  }

  function OutcomeThen(outcome: Outcome, rest: seq<Event>): seq<Event>
  {
    match outcome
    case Pass => rest
    case Fail(message) =>
      Then("      ", Start("failure", [("message", message)]), Then(message, End("failure"), Characters("\n") + rest))
    case Skip(reason) => Then("      ", EmptyElement("skipped", [("message", reason)]), Characters("\n") + rest)
  }

  function CaseAttributes(result: TestResult): Attributes
  {
    [("name", result.title), ("classname", "qemu-test"), ("time", result.time)]
  }

  function BodyThen(result: TestResult, rest: seq<Event>): seq<Event>
  {
    PropertiesBlockThen(result.properties,
                        OutcomeThen(result.outcome, Then("    ", End("testcase"), Characters("\n") + rest)))
  }

  function CaseThen(result: TestResult, rest: seq<Event>): seq<Event>
  {
    if result.outcome.Pass? && result.properties == [] then
      Then("    ", EmptyElement("testcase", CaseAttributes(result)), Characters("\n") + rest)
    else
      Then("    ", Start("testcase", CaseAttributes(result)), Characters("\n") + BodyThen(result, rest))
  }

  function CasesThen(results: seq<TestResult>, rest: seq<Event>): seq<Event>
  {
    if results == [] then rest else CaseThen(results[0], CasesThen(results[1..], rest))
  }

  function FooterEvents(): seq<Event>
  {
    Then("  ", End("testsuite"), Characters("\n") + Then("", End("testsuites"), Characters("\n") + []))
  }

  function SuitesThen(results: seq<TestResult>, time: TimeText, rest: seq<Event>): seq<Event>
  {
    var counts := CountAttributes(results, time);
    Then("", Start("testsuites", counts),
         Characters("\n") + Then("  ", Start("testsuite", [("name", "qemu-test")] + counts), Characters("\n") + rest))
  }

  const XML_DECLARATION: Event := Declaration([("version", "1.0"), ("encoding", "UTF-8")])

  function DocumentEvents(results: seq<TestResult>, time: TimeText): seq<Event>
  {
    Then("", XML_DECLARATION, Characters("\n") + SuitesThen(results, time, CasesThen(results, FooterEvents())))
  }

  // The writer prints these events

  predicate IsVerbatim(s: string) { OnePass(s) == s }

  lemma {:induction false} VerbatimText(s: string)
    requires forall k :: 0 <= k < |s| ==>
          IsTimeChar(s[k]) || s[k] == ' ' || s[k] == '\n' || s[k] == '-' || 'a' <= s[k] <= 'z' || 'A' <= s[k] <= 'Z'
    ensures IsVerbatim(s)
  {
    if s != "" {
      VerbatimText(s[1..]);
    }
  }

  /** Appending the events to `before` leaves `after`, whatever follows. */
  ghost predicate Emits(before: string, events: seq<Event>, after: string, rest: seq<Event>)
  {
    before + Print(events, "") == after + Print(rest, "")
  }

  lemma Regroup(a: string, b: string, c: string)
    ensures a + (b + c) == (a + b) + c
  {
  }

  lemma EmitsCharacters(before: string, s: string, rest: seq<Event>)
    ensures Emits(before, Characters(s) + rest, before + OnePass(s), rest)
  {
    PrintOfConcat(Characters(s), rest, "");
    PrintOfCharacters(s, Print(rest, ""));
    Regroup(before, OnePass(s), Print(rest, ""));
  }

  /** The texts the writer puts between quotes are the escaped attribute values. */
  ghost predicate AreTexts(texts: seq<(string, string)>, attributes: Attributes)
  {
    |texts| == |attributes|
    && forall k :: 0 <= k < |texts| ==> texts[k].0 == attributes[k].0 && texts[k].1 == OnePass(attributes[k].1)
  }

  lemma {:induction false} AttributesPrinted(before: string, texts: seq<(string, string)>, attributes: Attributes,
                                             rest: string)
    requires AreTexts(texts, attributes)
    ensures before + PrintAttributes(attributes, rest) == WithAttributes(before, texts) + rest
    decreases |texts|
  {
    if texts != [] {
      var (key, text) := texts[0];
      var tail := PrintAttributes(attributes[1..], rest);
      Regroup(before, " ", key + ("=\"" + (text + ("\"" + tail))));
      Regroup(before + " ", key, "=\"" + (text + ("\"" + tail)));
      Regroup(before + " " + key, "=\"", text + ("\"" + tail));
      Regroup(before + " " + key + "=\"", text, "\"" + tail);
      Regroup(before + " " + key + "=\"" + text, "\"", tail);
      AttributesPrinted(before + " " + key + "=\"" + text + "\"", texts[1..], attributes[1..], rest);
    }
  }

  /** A tag on its line: blank, tag name, attributes, closing characters. */
  lemma TagPrinted(before: string, indent: string, name: string, texts: seq<(string, string)>, attributes: Attributes,
                   close: string, rest: string)
    requires AreTexts(texts, attributes)
    ensures before + indent + ("<" + (name + PrintAttributes(attributes, close + rest)))
         == WithAttributes(WithTag(before, indent, name), texts) + close + rest
  {
    var tail := PrintAttributes(attributes, close + rest);
    Regroup(before + indent, "<", name + tail);
    Regroup(before + indent + "<", name, tail);
    AttributesPrinted(WithTag(before, indent, name), texts, attributes, close + rest);
    Regroup(WithAttributes(WithTag(before, indent, name), texts), close, rest);
  }

  function Closing(event: Event): string
  {
    match event
    case Declaration(_) => "?>"
    case Start(_, _) => ">"
    case EmptyElement(_, _) => " />"
    case End(_) => ">"
    case Character(_) => ""
  }

  function TagName(event: Event): string
  {
    match event
    case Declaration(_) => "?xml"
    case Start(name, _) => name
    case EmptyElement(name, _) => name
    case End(name) => "/" + name
    case Character(_) => ""
  }

  function TagAttributes(event: Event): Attributes
  {
    if event.End? || event.Character? then [] else event.attributes
  }

  lemma EmitsTag(before: string, indent: string, event: Event, texts: seq<(string, string)>, rest: seq<Event>)
    requires IsVerbatim(indent) && !event.Character? && AreTexts(texts, TagAttributes(event))
    ensures Emits(before, Then(indent, event, rest),
                  WithAttributes(WithTag(before, indent, TagName(event)), texts) + Closing(event), rest)
  {
    EmitsCharacters(before, indent, [event] + rest);
    assert ([event] + rest)[1..] == rest;
    TagPrinted(before, indent, TagName(event), texts, TagAttributes(event), Closing(event), Print(rest, ""));
    if event.End? {
      Regroup("/", event.name, ">" + Print(rest, ""));
    }
  }

  lemma EmitsLine(before: string, indent: string, event: Event, texts: seq<(string, string)>, rest: seq<Event>)
    requires IsVerbatim(indent) && !event.Character? && AreTexts(texts, TagAttributes(event))
    ensures Emits(before, Then(indent, event, Characters("\n") + rest),
                  WithAttributes(WithTag(before, indent, TagName(event)), texts) + Closing(event) + "\n", rest)
  {
    EmitsTag(before, indent, event, texts, Characters("\n") + rest);
    VerbatimText("\n");
    EmitsCharacters(WithAttributes(WithTag(before, indent, TagName(event)), texts) + Closing(event), "\n", rest);
  }

  lemma EmitsEnd(before: string, indent: string, name: string, rest: seq<Event>)
    requires IsVerbatim(indent)
    ensures Emits(before, Then(indent, End(name), Characters("\n") + rest), WithEnd(before, indent, name), rest)
  {
    EmitsLine(before, indent, End(name), [], rest);
  }

  lemma Indents()
    ensures IsVerbatim("") && IsVerbatim("  ") && IsVerbatim("    ") && IsVerbatim("      ") && IsVerbatim("        ")
  {
    VerbatimText("  ");
    VerbatimText("    ");
    VerbatimText("      ");
    VerbatimText("        ");
  }

  lemma EmitsProperty(before: string, property: (string, string), rest: seq<Event>)
    ensures Emits(before,
                  Then("        ", EmptyElement("property", [("name", property.0), ("value", property.1)]),
                       Characters("\n") + rest),
                  WithProperty(before, property), rest)
  {
    Indents();
    EscapeIsOnePass(property.0);
    EscapeIsOnePass(property.1);
    EmitsLine(before, "        ", EmptyElement("property", [("name", property.0), ("value", property.1)]),
              [("name", XmlEscape(property.0)), ("value", XmlEscape(property.1))], rest);
  }

  lemma {:induction false} EmitsProperties(before: string, properties: Attributes, rest: seq<Event>)
    ensures Emits(before, PropertiesThen(properties, rest), WithProperties(before, properties), rest)
    decreases |properties|
  {
    if properties != [] {
      EmitsProperty(before, properties[0], PropertiesThen(properties[1..], rest));
      EmitsProperties(WithProperty(before, properties[0]), properties[1..], rest);
    }
  }

  lemma EmitsPropertiesBlock(before: string, properties: Attributes, rest: seq<Event>)
    ensures Emits(before, PropertiesBlockThen(properties, rest), WithPropertiesBlock(before, properties), rest)
  {
    if properties != [] {
      Indents();
      var ending := Then("      ", End("properties"), Characters("\n") + rest);
      EmitsLine(before, "      ", Start("properties", []), [], PropertiesThen(properties, ending));
      var start := WithTag(before, "      ", "properties") + ">" + "\n";
      EmitsProperties(start, properties, ending);
      EmitsEnd(WithProperties(start, properties), "      ", "properties", rest);
    }
  }

  lemma EmitsFailure(before: string, message: string, rest: seq<Event>)
    ensures Emits(before, OutcomeThen(Fail(message), rest), WithOutcome(before, Fail(message)), rest)
  {
    Indents();
    EscapeIsOnePass(message);
    var ending := Then(message, End("failure"), Characters("\n") + rest);
    EmitsTag(before, "      ", Start("failure", [("message", message)]), [("message", XmlEscape(message))], ending);
    var start := WithAttributes(WithTag(before, "      ", "failure"), [("message", XmlEscape(message))]) + ">";
    EmitsCharacters(start, message, [End("failure")] + (Characters("\n") + rest));
    EmitsEnd(start + XmlEscape(message), "", "failure", rest);
    assert Then("", End("failure"), Characters("\n") + rest) == [End("failure")] + (Characters("\n") + rest);
  }

  lemma EmitsOutcome(before: string, outcome: Outcome, rest: seq<Event>)
    ensures Emits(before, OutcomeThen(outcome, rest), WithOutcome(before, outcome), rest)
  {
    match outcome
    case Pass =>
    case Fail(message) => EmitsFailure(before, message, rest);
    case Skip(reason) =>
      Indents();
      EscapeIsOnePass(reason);
      EmitsLine(before, "      ", EmptyElement("skipped", [("message", reason)]), [("message", XmlEscape(reason))],
                rest);
  }

  lemma TextsOfThree(a: (string, string), x: string, b: (string, string), y: string, c: (string, string), z: string)
    requires a.1 == OnePass(x) && b.1 == OnePass(y) && c.1 == OnePass(z)
    ensures AreTexts([a, b, c], [(a.0, x), (b.0, y), (c.0, z)])
  {
  }

  lemma TimeIsVerbatim(time: TimeText)
    ensures IsVerbatim(time)
  {
    VerbatimText(time);
  }

  lemma CaseTextsMatch(result: TestResult)
    ensures AreTexts([("name", XmlEscape(result.title)), ("classname", "qemu-test"), ("time", result.time)],
                     CaseAttributes(result))
  {
    EscapeIsOnePass(result.title);
    SuiteNameIsVerbatim();
    TimeIsVerbatim(result.time);
    TextsOfThree(("name", XmlEscape(result.title)), result.title, ("classname", "qemu-test"), "qemu-test",
                 ("time", result.time), result.time);
  }

  lemma SuiteNameIsVerbatim()
    ensures IsVerbatim("qemu-test")
  {
    VerbatimText("qemu-test");
  }

  lemma EmitsCase(before: string, result: TestResult, rest: seq<Event>)
    ensures Emits(before, CaseThen(result, rest), WithCase(before, result), rest)
  {
    Indents();
    CaseTextsMatch(result);
    var texts := [("name", XmlEscape(result.title)), ("classname", "qemu-test"), ("time", result.time)];
    if result.outcome.Pass? && result.properties == [] {
      EmitsLine(before, "    ", EmptyElement("testcase", CaseAttributes(result)), texts, rest);
    } else {
      EmitsLine(before, "    ", Start("testcase", CaseAttributes(result)), texts, BodyThen(result, rest));
      EmitsBody(WithOpening(before, result) + ">" + "\n", result, rest);
    }
  }

  lemma EmitsBody(before: string, result: TestResult, rest: seq<Event>)
    ensures Emits(before, BodyThen(result, rest),
                  WithEnd(WithOutcome(WithPropertiesBlock(before, result.properties), result.outcome),
                          "    ", "testcase"),
                  rest)
  {
    Indents();
    var ending := Then("    ", End("testcase"), Characters("\n") + rest);
    EmitsPropertiesBlock(before, result.properties, OutcomeThen(result.outcome, ending));
    var inner := WithPropertiesBlock(before, result.properties);
    EmitsOutcome(inner, result.outcome, ending);
    EmitsEnd(WithOutcome(inner, result.outcome), "    ", "testcase", rest);
  }

  lemma {:induction false} EmitsCases(before: string, results: seq<TestResult>, rest: seq<Event>)
    ensures Emits(before, CasesThen(results, rest), WithCases(before, results), rest)
    decreases |results|
  {
    if results != [] {
      EmitsCase(before, results[0], CasesThen(results[1..], rest));
      EmitsCases(WithCase(before, results[0]), results[1..], rest);
    }
  }

  lemma EmitsFooter(before: string)
    ensures Emits(before, FooterEvents(), WithFooter(before), [])
  {
    Indents();
    var last := Then("", End("testsuites"), Characters("\n") + []);
    EmitsEnd(before, "  ", "testsuite", last);
    EmitsEnd(WithEnd(before, "  ", "testsuite"), "", "testsuites", []);
  }

  lemma NumberIsVerbatim(n: nat)
    ensures IsVerbatim(Show(n))
  {
    VerbatimText(Show(n));
  }

  lemma CountTextsMatch(results: seq<TestResult>, time: TimeText)
    ensures AreTexts(CountTexts(results, time), CountAttributes(results, time))
  {
    NumberIsVerbatim(|results|);
    NumberIsVerbatim(Failures(results));
    NumberIsVerbatim(Skips(results));
    TimeIsVerbatim(time);
    TextsOfThree(("tests", Show(|results|)), Show(|results|),
                 ("failures", Show(Failures(results))), Show(Failures(results)),
                 ("skipped", Show(Skips(results))), Show(Skips(results)));
    var three := CountTexts(results, time)[..3];
    assert CountTexts(results, time) == three + [("time", time)];
    assert CountAttributes(results, time) == CountAttributes(results, time)[..3] + [("time", time)];
  }

  lemma DeclarationTextsMatch()
    ensures AreTexts([("version", "1.0"), ("encoding", "UTF-8")], TagAttributes(XML_DECLARATION))
  {
    VerbatimText("1.0");
    VerbatimText("UTF-8");
  }

  function WithSuites(xml: string, results: seq<TestResult>, time: TimeText): string
  {
    var outer := WithAttributes(WithTag(xml, "", "testsuites"), CountTexts(results, time)) + ">" + "\n";
    WithAttributes(WithTag(outer, "  ", "testsuite"), [("name", "qemu-test")] + CountTexts(results, time)) + ">" + "\n"
  }

  lemma EmitsSuites(before: string, results: seq<TestResult>, time: TimeText, rest: seq<Event>)
    ensures Emits(before, SuitesThen(results, time, rest), WithSuites(before, results, time), rest)
  {
    var counts, texts := CountAttributes(results, time), CountTexts(results, time);
    var inner := Then("  ", Start("testsuite", [("name", "qemu-test")] + counts), Characters("\n") + rest);
    CountTextsMatch(results, time);
    SuiteNameIsVerbatim();
    OneMoreText("name", "qemu-test", "qemu-test", texts, counts);
    EmitsSuite(before, "", "testsuites", texts, counts, inner);
    var outer := WithAttributes(WithTag(before, "", "testsuites"), texts) + ">" + "\n";
    EmitsSuite(outer, "  ", "testsuite", [("name", "qemu-test")] + texts, [("name", "qemu-test")] + counts, rest);
  }

  lemma OneMoreText(key: string, text: string, value: string, texts: seq<(string, string)>, attributes: Attributes)
    requires text == OnePass(value) && AreTexts(texts, attributes)
    ensures AreTexts([(key, text)] + texts, [(key, value)] + attributes)
  {
  }

  lemma EmitsSuite(before: string, indent: string, name: string, texts: seq<(string, string)>, attributes: Attributes,
                   rest: seq<Event>)
    requires AreTexts(texts, attributes) && (indent == "" || indent == "  ")
    ensures Emits(before, Then(indent, Start(name, attributes), Characters("\n") + rest),
                  WithAttributes(WithTag(before, indent, name), texts) + ">" + "\n", rest)
  {
    Indents();
    EmitsLine(before, indent, Start(name, attributes), texts, rest);
  }

  lemma EmitsHeader(results: seq<TestResult>, time: TimeText, rest: seq<Event>)
    ensures Emits("", Then("", XML_DECLARATION, Characters("\n") + SuitesThen(results, time, rest)),
                  WithHeader(results, time), rest)
  {
    Indents();
    DeclarationTextsMatch();
    EmitsLine("", "", XML_DECLARATION, [("version", "1.0"), ("encoding", "UTF-8")], SuitesThen(results, time, rest));
    var xml := WithAttributes(WithTag("", "", "?xml"), [("version", "1.0"), ("encoding", "UTF-8")]) + "?>" + "\n";
    EmitsSuites(xml, results, time, rest);
  }

  lemma DocumentIsPrinted(results: seq<TestResult>, time: TimeText)
    ensures Document(results, time) == Print(DocumentEvents(results, time), "")
  {
    EmitsHeader(results, time, CasesThen(results, FooterEvents()));
    EmitsCases(WithHeader(results, time), results, FooterEvents());
    EmitsFooter(WithCases(WithHeader(results, time), results));
    assert "" + Print(DocumentEvents(results, time), "") == Print(DocumentEvents(results, time), "");
    assert Document(results, time) + "" == Document(results, time);
  }
}
