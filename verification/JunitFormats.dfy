/** The lines of the report, as the format strings of the writer spell them. */
module JunitFormats {
  import opened Decimal
  import opened Escaping
  import opened Junit

  // The report, format string by format string

  function CountsText(total: string, failures: string, skipped: string, time: string): string
  {
    total + "\" failures=\"" + failures + "\" skipped=\"" + skipped + "\" time=\"" + time + "\">\n"
  }

  function HeaderText(counts: string): string
  {
    "<?xml version=\"1.0\" encoding=\"UTF-8\"?>\n"
    + ("<testsuites tests=\"" + counts)
    + ("  <testsuite name=\"qemu-test\" tests=\"" + counts)
  }

  function OpeningText(name: string, time: string): string
  {
    "    <testcase name=\"" + name + "\" classname=\"qemu-test\" time=\"" + time + "\""
  }

  function PropertyText(key: string, value: string): string
  {
    "        <property name=\"" + key + "\" value=\"" + value + "\" />\n"
  }

  function PropertiesText(properties: seq<(string, string)>): string
  {
    if properties == [] then ""
    else PropertyText(XmlEscape(properties[0].0), XmlEscape(properties[0].1)) + PropertiesText(properties[1..])
  }

  function FailureText(message: string): string
  {
    "      <failure message=\"" + message + "\">" + message + "</failure>\n"
  }

  function SkippedText(reason: string): string
  {
    "      <skipped message=\"" + reason + "\" />\n"
  }

  function OutcomeText(outcome: Outcome): string
  {
    match outcome
    case Pass => ""
    case Fail(message) => FailureText(XmlEscape(message))
    case Skip(reason) => SkippedText(XmlEscape(reason))
  }

  function PropertiesBlockText(properties: seq<(string, string)>): string
  {
    if properties == [] then ""
    else "      <properties>\n" + PropertiesText(properties) + "      </properties>\n"
  }

  function CaseText(result: TestResult): string
  {
    var opening := OpeningText(XmlEscape(result.title), result.time);
    if result.outcome.Pass? && result.properties == [] then opening + " />\n"
    else
      opening + ">\n" + PropertiesBlockText(result.properties) + OutcomeText(result.outcome) + "    </testcase>\n"
  }

  function CasesText(results: seq<TestResult>): string
  {
    if results == [] then "" else CaseText(results[0]) + CasesText(results[1..])
  }

  function DocumentText(results: seq<TestResult>, time: TimeText): string
  {
    HeaderText(CountsText(Show(|results|), Show(Failures(results)), Show(Skips(results)), time))
    + CasesText(results)
    + "  </testsuite>\n</testsuites>\n"
  }

  // What the parts of the writer append

  lemma Tag(xml: string, indent: string, name: string, tag: string)
    requires tag == indent + "<" + name
    ensures WithTag(xml, indent, name) == xml + tag
  {
  }

  /** One more attribute: `head` ends what is written so far, `opener` is everything up to the text. */
  lemma Attribute(xml: string, head: string, key: string, text: string, opener: string, rest: seq<(string, string)>)
    requires opener == head + " " + key + "=\""
    ensures WithAttributes(xml + head, [(key, text)] + rest) == WithAttributes(xml + opener + text + "\"", rest)
  {
    assert ([(key, text)] + rest)[1..] == rest;
    assert xml + head + " " + key + "=\"" == xml + opener;
  }

  lemma LastAttribute(xml: string, head: string, key: string, text: string, opener: string)
    requires opener == head + " " + key + "=\""
    ensures WithAttributes(xml + head, [(key, text)]) == xml + opener + text + "\""
  {
    assert [(key, text)] + [] == [(key, text)];
    Attribute(xml, head, key, text, opener, []);
  }

  lemma End(xml: string, indent: string, name: string, line: string)
    requires line == indent + "<" + ("/" + name) + ">" + "\n"
    ensures WithEnd(xml, indent, name) == xml + line
  {
    Tag(xml, indent, "/" + name, indent + "<" + ("/" + name));
  }

  lemma DeclarationLine()
    ensures WithAttributes(WithTag("", "", "?xml"), [("version", "1.0"), ("encoding", "UTF-8")])
         == "<?xml version=\"" + "1.0" + "\" encoding=\"" + "UTF-8" + "\""
  {
    Tag("", "", "?xml", "<?xml");
    var a := "<?xml version=\"";
    assert a == "<?xml" + " " + "version" + "=\"";
    assert [("version", "1.0"), ("encoding", "UTF-8")] == [("version", "1.0")] + [("encoding", "UTF-8")];
    Attribute("", "<?xml", "version", "1.0", a, [("encoding", "UTF-8")]);
    assert "" + a == a && "" + "<?xml" == "<?xml";
    EncodingFollows(a + "1.0");
  }

  lemma EncodingFollows(xml: string)
    ensures WithAttributes(xml + "\"", [("encoding", "UTF-8")]) == xml + "\" encoding=\"" + "UTF-8" + "\""
  {
    assert "\" encoding=\"" == "\"" + " " + "encoding" + "=\"";
    LastAttribute(xml, "\"", "encoding", "UTF-8", "\" encoding=\"");
  }

  /** The four counts after a tag with `head`. */
  lemma Counts(xml: string, head: string, opener: string, results: seq<TestResult>, time: TimeText)
    requires opener == head + " " + "tests" + "=\""
    ensures WithAttributes(xml + head, CountTexts(results, time))
         == xml + opener + Show(|results|) + "\" failures=\"" + Show(Failures(results))
            + "\" skipped=\"" + Show(Skips(results)) + "\" time=\"" + time + "\""
  {
    var texts := CountTexts(results, time);
    assert texts == [("tests", Show(|results|))] + texts[1..];
    Attribute(xml, head, "tests", Show(|results|), opener, texts[1..]);
    LastCounts(xml + opener + Show(|results|), Show(Failures(results)), Show(Skips(results)), time);
  }

  lemma LastCounts(xml: string, failures: string, skips: string, time: string)
    ensures WithAttributes(xml + "\"", [("failures", failures), ("skipped", skips), ("time", time)])
         == xml + "\" failures=\"" + failures + "\" skipped=\"" + skips + "\" time=\"" + time + "\""
  {
    var rest := [("skipped", skips), ("time", time)];
    assert [("failures", failures), ("skipped", skips), ("time", time)] == [("failures", failures)] + rest;
    assert rest == [("skipped", skips)] + [("time", time)];
    assert "\" failures=\"" == "\"" + " " + "failures" + "=\"";
    Attribute(xml, "\"", "failures", failures, "\" failures=\"", rest);
    var xml := xml + "\" failures=\"" + failures;
    assert "\" skipped=\"" == "\"" + " " + "skipped" + "=\"";
    Attribute(xml, "\"", "skipped", skips, "\" skipped=\"", [("time", time)]);
    TimeFollows(xml + "\" skipped=\"" + skips, time);
  }

  lemma TimeFollows(xml: string, time: string)
    ensures WithAttributes(xml + "\"", [("time", time)]) == xml + "\" time=\"" + time + "\""
  {
    assert "\" time=\"" == "\"" + " " + "time" + "=\"";
    LastAttribute(xml, "\"", "time", time, "\" time=\"");
  }

  lemma CaseLine(xml: string, result: TestResult)
    ensures WithOpening(xml, result)
         == xml + "    <testcase name=\"" + XmlEscape(result.title) + "\" classname=\"" + "qemu-test"
            + "\" time=\"" + result.time + "\""
  {
    var title := XmlEscape(result.title);
    var rest := [("classname", "qemu-test"), ("time", result.time)];
    Tag(xml, "    ", "testcase", "    <testcase");
    assert "    <testcase name=\"" == "    <testcase" + " " + "name" + "=\"";
    assert [("name", title), ("classname", "qemu-test"), ("time", result.time)] == [("name", title)] + rest;
    assert rest == [("classname", "qemu-test")] + [("time", result.time)];
    Attribute(xml, "    <testcase", "name", title, "    <testcase name=\"", rest);
    var xml := xml + "    <testcase name=\"" + title;
    assert "\" classname=\"" == "\"" + " " + "classname" + "=\"";
    Attribute(xml, "\"", "classname", "qemu-test", "\" classname=\"", [("time", result.time)]);
    TimeFollows(xml + "\" classname=\"" + "qemu-test", result.time);
  }

  lemma PropertyLine(xml: string, property: (string, string))
    ensures WithProperty(xml, property)
         == xml + "        <property name=\"" + XmlEscape(property.0) + "\" value=\"" + XmlEscape(property.1)
            + "\"" + " />" + "\n"
  {
    var (name, value) := (XmlEscape(property.0), XmlEscape(property.1));
    Tag(xml, "        ", "property", "        <property");
    assert "        <property name=\"" == "        <property" + " " + "name" + "=\"";
    assert [("name", name), ("value", value)] == [("name", name)] + [("value", value)];
    Attribute(xml, "        <property", "name", name, "        <property name=\"", [("value", value)]);
    assert "\" value=\"" == "\"" + " " + "value" + "=\"";
    LastAttribute(xml + "        <property name=\"" + name, "\"", "value", value, "\" value=\"");
  }

  lemma FailureLine(xml: string, message: string)
    ensures WithOutcome(xml, Fail(message))
         == xml + "      <failure message=\"" + XmlEscape(message) + "\"" + ">" + XmlEscape(message) + "</failure>\n"
  {
    var text := XmlEscape(message);
    Tag(xml, "      ", "failure", "      <failure");
    assert "      <failure message=\"" == "      <failure" + " " + "message" + "=\"";
    LastAttribute(xml, "      <failure", "message", text, "      <failure message=\"");
    var start := xml + "      <failure message=\"" + text + "\"" + ">";
    assert "</failure>\n" == "" + "<" + ("/" + "failure") + ">" + "\n";
    End(start + text, "", "failure", "</failure>\n");
  }

  lemma SkippedLine(xml: string, reason: string)
    ensures WithOutcome(xml, Skip(reason))
         == xml + "      <skipped message=\"" + XmlEscape(reason) + "\"" + " />" + "\n"
  {
    Tag(xml, "      ", "skipped", "      <skipped");
    assert "      <skipped message=\"" == "      <skipped" + " " + "message" + "=\"";
    LastAttribute(xml, "      <skipped", "message", XmlEscape(reason), "      <skipped message=\"");
  }

  // Part by part

  lemma Regroup(xml: string, a: string, b: string, c: string)
    ensures xml + a + b + c == xml + (a + b + c)
  {
  }

  lemma RegroupFive(xml: string, a: string, x: string, b: string, y: string, c: string)
    ensures xml + a + x + b + y + c == xml + (a + x + b + y + c)
  {
  }

  lemma OpeningIs(xml: string, result: TestResult)
    ensures WithOpening(xml, result) == xml + OpeningText(XmlEscape(result.title), result.time)
  {
    var a, b, d := "    <testcase name=\"", "\" classname=\"", "\" time=\"";
    CaseLine(xml, result);
    assert b + "qemu-test" + d == "\" classname=\"qemu-test\" time=\"";
    Regroup(xml + a + XmlEscape(result.title), b, "qemu-test", d);
    RegroupFive(xml, a, XmlEscape(result.title), b + "qemu-test" + d, result.time, "\"");
  }

  lemma PropertyIs(xml: string, property: (string, string))
    ensures WithProperty(xml, property) == xml + PropertyText(XmlEscape(property.0), XmlEscape(property.1))
  {
    var (key, value) := (XmlEscape(property.0), XmlEscape(property.1));
    var a, b := "        <property name=\"", "\" value=\"";
    PropertyLine(xml, property);
    assert "\"" + " />" + "\n" == "\" />\n";
    Regroup(xml + a + key + b + value, "\"", " />", "\n");
    RegroupFive(xml, a, key, b, value, "\" />\n");
  }

  lemma Append(xml: string, a: string, b: string)
    ensures xml + a + b == xml + (a + b)
  {
  }

  lemma {:induction false} PropertiesAre(xml: string, properties: seq<(string, string)>)
    ensures WithProperties(xml, properties) == xml + PropertiesText(properties)
    decreases |properties|
  {
    if properties == [] {
      assert xml + "" == xml;
    } else {
      var first := PropertyText(XmlEscape(properties[0].0), XmlEscape(properties[0].1));
      PropertyIs(xml, properties[0]);
      PropertiesAre(xml + first, properties[1..]);
      Append(xml, first, PropertiesText(properties[1..]));
    }
  }

  lemma PropertiesOpening(xml: string)
    ensures WithTag(xml, "      ", "properties") + ">" + "\n" == xml + "      <properties>\n"
  {
    Tag(xml, "      ", "properties", "      <properties");
    assert "      <properties" + ">" + "\n" == "      <properties>\n";
    Regroup(xml, "      <properties", ">", "\n");
  }

  lemma PropertiesEnd(xml: string)
    ensures WithEnd(xml, "      ", "properties") == xml + "      </properties>\n"
  {
    assert "      </properties>\n" == "      " + "<" + ("/" + "properties") + ">" + "\n";
    End(xml, "      ", "properties", "      </properties>\n");
  }

  lemma PropertiesBlockIs(xml: string, properties: seq<(string, string)>)
    ensures WithPropertiesBlock(xml, properties) == xml + PropertiesBlockText(properties)
  {
    if properties == [] {
      assert xml + "" == xml;
    } else {
      var opening, inner := "      <properties>\n", PropertiesText(properties);
      PropertiesOpening(xml);
      PropertiesAre(xml + opening, properties);
      PropertiesEnd(xml + opening + inner);
      Regroup(xml, opening, inner, "      </properties>\n");
    }
  }

  lemma OutcomeIs(xml: string, outcome: Outcome)
    ensures WithOutcome(xml, outcome) == xml + OutcomeText(outcome)
  {
    match outcome {
      case Pass => assert xml + "" == xml;
      case Fail(message) => FailureIs(xml, message);
      case Skip(reason) => SkippedIs(xml, reason);
    }
  }

  lemma FailureIs(xml: string, message: string)
    ensures WithOutcome(xml, Fail(message)) == xml + FailureText(XmlEscape(message))
  {
    var a, text := "      <failure message=\"", XmlEscape(message);
    FailureLine(xml, message);
    assert "\"" + ">" == "\">";
    Append(xml + a + text, "\"", ">");
    RegroupFive(xml, a, text, "\">", text, "</failure>\n");
  }

  lemma SkippedIs(xml: string, reason: string)
    ensures WithOutcome(xml, Skip(reason)) == xml + SkippedText(XmlEscape(reason))
  {
    var a, text := "      <skipped message=\"", XmlEscape(reason);
    SkippedLine(xml, reason);
    assert "\"" + " />" + "\n" == "\" />\n";
    Regroup(xml + a + text, "\"", " />", "\n");
    Regroup(xml, a, text, "\" />\n");
  }

  lemma BodyIs(xml: string, properties: seq<(string, string)>, outcome: Outcome)
    ensures WithOutcome(WithPropertiesBlock(xml, properties), outcome)
         == xml + PropertiesBlockText(properties) + OutcomeText(outcome)
  {
    PropertiesBlockIs(xml, properties);
    OutcomeIs(xml + PropertiesBlockText(properties), outcome);
  }

  lemma CaseEnd(xml: string)
    ensures WithEnd(xml, "    ", "testcase") == xml + "    </testcase>\n"
  {
    assert "    </testcase>\n" == "    " + "<" + ("/" + "testcase") + ">" + "\n";
    End(xml, "    ", "testcase", "    </testcase>\n");
  }

  /** The line of the opening tag ends in `end`. */
  lemma OpeningLine(xml: string, result: TestResult, end: string, line: string)
    requires line == end + "\n"
    ensures WithOpening(xml, result) + end + "\n" == xml + OpeningText(XmlEscape(result.title), result.time) + line
  {
    OpeningIs(xml, result);
    Append(xml + OpeningText(XmlEscape(result.title), result.time), end, "\n");
  }

  lemma CaseIs(xml: string, result: TestResult)
    ensures WithCase(xml, result) == xml + CaseText(result)
  {
    if result.outcome.Pass? && result.properties == [] {
      ShortCaseIs(xml, result);
    } else {
      FullCaseIs(xml, result);
    }
  }

  lemma ShortCaseIs(xml: string, result: TestResult)
    ensures WithOpening(xml, result) + " />" + "\n"
         == xml + (OpeningText(XmlEscape(result.title), result.time) + " />\n")
  {
    OpeningLine(xml, result, " />", " />\n");
    Append(xml, OpeningText(XmlEscape(result.title), result.time), " />\n");
  }

  lemma FullCaseIs(xml: string, result: TestResult)
    ensures WithEnd(WithOutcome(WithPropertiesBlock(WithOpening(xml, result) + ">" + "\n", result.properties),
                                result.outcome), "    ", "testcase")
         == xml + (OpeningText(XmlEscape(result.title), result.time) + ">\n" + PropertiesBlockText(result.properties)
                   + OutcomeText(result.outcome) + "    </testcase>\n")
  {
    var opening := OpeningText(XmlEscape(result.title), result.time);
    var block, outcome := PropertiesBlockText(result.properties), OutcomeText(result.outcome);
    OpeningLine(xml, result, ">", ">\n");
    BodyIs(xml + opening + ">\n", result.properties, result.outcome);
    CaseEnd(xml + opening + ">\n" + block + outcome);
    RegroupFive(xml, opening, ">\n", block, outcome, "    </testcase>\n");
  }

  lemma {:induction false} CasesAre(xml: string, results: seq<TestResult>)
    ensures WithCases(xml, results) == xml + CasesText(results)
    decreases |results|
  {
    if results == [] {
      assert xml + "" == xml;
    } else {
      CaseIs(xml, results[0]);
      CasesAre(xml + CaseText(results[0]), results[1..]);
      Append(xml, CaseText(results[0]), CasesText(results[1..]));
    }
  }

  lemma FooterIs(xml: string)
    ensures WithFooter(xml) == xml + "  </testsuite>\n</testsuites>\n"
  {
    var a, b := "  </testsuite>\n", "</testsuites>\n";
    assert a == "  " + "<" + ("/" + "testsuite") + ">" + "\n" && b == "" + "<" + ("/" + "testsuites") + ">" + "\n";
    End(xml, "  ", "testsuite", a);
    End(xml + a, "", "testsuites", b);
    Append(xml, a, b);
    assert a + b == "  </testsuite>\n</testsuites>\n";
  }

  /** A tag with the four counts, up to the end of its line. */
  lemma CountsLine(xml: string, head: string, opener: string, results: seq<TestResult>, time: TimeText)
    requires opener == head + " " + "tests" + "=\""
    ensures WithAttributes(xml + head, CountTexts(results, time)) + ">" + "\n"
         == xml + (opener + CountsText(Show(|results|), Show(Failures(results)), Show(Skips(results)), time))
  {
    Counts(xml, head, opener, results, time);
    CountsRegroup(xml, opener, Show(|results|), Show(Failures(results)), Show(Skips(results)), time);
  }

  lemma CountsRegroup(xml: string, opener: string, total: string, failures: string, skipped: string, time: string)
    ensures xml + opener + total + "\" failures=\"" + failures + "\" skipped=\"" + skipped + "\" time=\"" + time + "\""
            + ">" + "\n"
         == xml + (opener + CountsText(total, failures, skipped, time))
  {
    var a, b, d := "\" failures=\"", "\" skipped=\"", "\" time=\"";
    var end := "\">\n";
    assert "\"" + ">" + "\n" == end;
    Regroup(xml + opener + total + a + failures + b + skipped + d + time, "\"", ">", "\n");
    var left := total + a + failures + b;
    RegroupFive(xml + opener, total, a, failures, b, skipped);
    RegroupFive(xml + opener, left, skipped, d, time, end);
    Append(xml, opener, left + skipped + d + time + end);
    Regroup(xml + opener, total + a, failures, b);
  }

  lemma DeclarationIs()
    ensures WithAttributes(WithTag("", "", "?xml"), [("version", "1.0"), ("encoding", "UTF-8")]) + "?>" + "\n"
         == "<?xml version=\"1.0\" encoding=\"UTF-8\"?>\n"
  {
    DeclarationLine();
    assert "<?xml version=\"" + "1.0" + "\" encoding=\"" == "<?xml version=\"1.0\" encoding=\"";
    assert "UTF-8" + "\"" + "?>" + "\n" == "UTF-8\"?>\n";
    Regroup("<?xml version=\"1.0\" encoding=\"" + "UTF-8", "\"", "?>", "\n");
    assert "<?xml version=\"1.0\" encoding=\"" + "UTF-8\"?>\n" == "<?xml version=\"1.0\" encoding=\"UTF-8\"?>\n";
  }

  lemma SuitesTag(xml: string)
    ensures WithTag(xml, "", "testsuites") == xml + "<testsuites"
    ensures "<testsuites tests=\"" == "<testsuites" + " " + "tests" + "=\""
  {
    Tag(xml, "", "testsuites", "<testsuites");
  }

  lemma SuitesLine(xml: string, results: seq<TestResult>, time: TimeText)
    ensures WithAttributes(WithTag(xml, "", "testsuites"), CountTexts(results, time)) + ">" + "\n"
         == xml + ("<testsuites tests=\""
                   + CountsText(Show(|results|), Show(Failures(results)), Show(Skips(results)), time))
  {
    SuitesTag(xml);
    CountsLine(xml, "<testsuites", "<testsuites tests=\"", results, time);
  }

  lemma SuiteTag(xml: string, counts: seq<(string, string)>)
    ensures WithAttributes(WithTag(xml, "  ", "testsuite"), [("name", "qemu-test")] + counts)
         == WithAttributes(xml + "  <testsuite name=\"" + "qemu-test" + "\"", counts)
    ensures "\" tests=\"" == "\"" + " " + "tests" + "=\""
  {
    Tag(xml, "  ", "testsuite", "  <testsuite");
    assert "  <testsuite name=\"" == "  <testsuite" + " " + "name" + "=\"";
    Attribute(xml, "  <testsuite", "name", "qemu-test", "  <testsuite name=\"", counts);
  }

  lemma SuiteLine(xml: string, results: seq<TestResult>, time: TimeText)
    ensures WithAttributes(WithTag(xml, "  ", "testsuite"), [("name", "qemu-test")] + CountTexts(results, time))
            + ">" + "\n"
         == xml + ("  <testsuite name=\"qemu-test\" tests=\""
                   + CountsText(Show(|results|), Show(Failures(results)), Show(Skips(results)), time))
  {
    SuiteTag(xml, CountTexts(results, time));
    CountsLine(xml + "  <testsuite name=\"" + "qemu-test", "\"", "\" tests=\"", results, time);
    SuiteOpening(xml, CountsText(Show(|results|), Show(Failures(results)), Show(Skips(results)), time));
  }

  lemma SuiteOpening(xml: string, counts: string)
    ensures xml + "  <testsuite name=\"" + "qemu-test" + ("\" tests=\"" + counts)
         == xml + ("  <testsuite name=\"qemu-test\" tests=\"" + counts)
  {
    var a, b, d := "  <testsuite name=\"", "qemu-test", "\" tests=\"";
    assert a + b + d == "  <testsuite name=\"qemu-test\" tests=\"";
    Regroup(xml, a, b, d + counts);
    Append(a + b, d, counts);
  }

  lemma HeaderIs(results: seq<TestResult>, time: TimeText)
    ensures WithHeader(results, time)
         == HeaderText(CountsText(Show(|results|), Show(Failures(results)), Show(Skips(results)), time))
  {
    DeclarationIs();
    var first := "<?xml version=\"1.0\" encoding=\"UTF-8\"?>\n";
    SuitesLine(first, results, time);
    var counts := CountsText(Show(|results|), Show(Failures(results)), Show(Skips(results)), time);
    SuiteLine(first + ("<testsuites tests=\"" + counts), results, time);
  }

  /** The report is the format strings of the writer, filled in, in order. */
  lemma DocumentIsText(results: seq<TestResult>, time: TimeText)
    ensures Document(results, time) == DocumentText(results, time)
  {
    HeaderIs(results, time);
    CasesAre(WithHeader(results, time), results);
    FooterIs(WithCases(WithHeader(results, time), results));
  }
}
