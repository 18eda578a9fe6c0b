/** The JUnit report writer: the document as a value, and the writer that appends it line by line. */
module Junit {
  import opened Escaping
  import opened Counting
  import opened Decimal

  datatype Outcome = Pass | Fail(message: string) | Skip(reason: string)

  predicate IsTimeChar(c: char) { '0' <= c <= '9' || c == '.' }

  /** A duration as printed with three decimals; how it is rounded is not modelled. */
  type TimeText = s: string | forall k :: 0 <= k < |s| ==> IsTimeChar(s[k]) witness "0.000"

  datatype TestResult = TestResult(title: string, properties: seq<(string, string)>, outcome: Outcome, time: TimeText)

  function Failures(results: seq<TestResult>): (n: nat)
    ensures n <= |results|
  {
    if results == [] then 0 else (if results[0].outcome.Fail? then 1 else 0) + Failures(results[1..])
  }

  function Skips(results: seq<TestResult>): (n: nat)
    ensures n <= |results|
  {
    if results == [] then 0 else (if results[0].outcome.Skip? then 1 else 0) + Skips(results[1..])
  }

  lemma {:induction false} FailuresAreCounted(results: seq<TestResult>)
    ensures Failures(results) == |Positions(results, (r: TestResult) => r.outcome.Fail?)|
  {
    if results != [] {
      PositionsStep(results, (r: TestResult) => r.outcome.Fail?);
      FailuresAreCounted(results[1..]);
    }
  }

  lemma {:induction false} SkipsAreCounted(results: seq<TestResult>)
    ensures Skips(results) == |Positions(results, (r: TestResult) => r.outcome.Skip?)|
  {
    if results != [] {
      PositionsStep(results, (r: TestResult) => r.outcome.Skip?);
      SkipsAreCounted(results[1..]);
    }
  }

  // The document, as what each part of the writer leaves in the buffer. The format strings of the
  // writer are split where a tag name or an attribute begins.

  /** A tag opened after `indent`. */
  function WithTag(xml: string, indent: string, name: string): string
  {
    xml + indent + "<" + name
  }

  /** An end tag on its own line. */
  function WithEnd(xml: string, indent: string, name: string): string
  {
    WithTag(xml, indent, "/" + name) + ">" + "\n"
  }

  /** Attributes with their already escaped texts, each after one blank. */
  function WithAttributes(xml: string, attributes: seq<(string, string)>): string
    decreases |attributes|
  {
    if attributes == [] then xml
    else WithAttributes(xml + " " + attributes[0].0 + "=\"" + attributes[0].1 + "\"", attributes[1..])
  }

  function CountTexts(results: seq<TestResult>, time: TimeText): seq<(string, string)>
  {
    [("tests", Show(|results|)), ("failures", Show(Failures(results))), ("skipped", Show(Skips(results))),
     ("time", time)]
  }

  function WithHeader(results: seq<TestResult>, time: TimeText): string
  {
    var xml := WithAttributes(WithTag("", "", "?xml"), [("version", "1.0"), ("encoding", "UTF-8")]) + "?>" + "\n";
    var xml := WithAttributes(WithTag(xml, "", "testsuites"), CountTexts(results, time)) + ">" + "\n";
    WithAttributes(WithTag(xml, "  ", "testsuite"), [("name", "qemu-test")] + CountTexts(results, time)) + ">" + "\n"
  }

  function WithOpening(xml: string, result: TestResult): string
  {
    WithAttributes(WithTag(xml, "    ", "testcase"),
                   [("name", XmlEscape(result.title)), ("classname", "qemu-test"), ("time", result.time)])
  }

  function WithProperty(xml: string, property: (string, string)): string
  {
    WithAttributes(WithTag(xml, "        ", "property"),
                   [("name", XmlEscape(property.0)), ("value", XmlEscape(property.1))]) + " />" + "\n"
  }

  function WithProperties(xml: string, properties: seq<(string, string)>): string
    decreases |properties|
  {
    if properties == [] then xml else WithProperties(WithProperty(xml, properties[0]), properties[1..])
  }

  function WithPropertiesBlock(xml: string, properties: seq<(string, string)>): string
  {
    if properties == [] then xml
    else
      WithEnd(WithProperties(WithTag(xml, "      ", "properties") + ">" + "\n", properties), "      ", "properties")
  }

  function WithOutcome(xml: string, outcome: Outcome): string
  {
    match outcome
    case Pass => xml
    case Fail(message) =>
      var start := WithAttributes(WithTag(xml, "      ", "failure"), [("message", XmlEscape(message))]) + ">";
      WithEnd(start + XmlEscape(message), "", "failure")
    case Skip(reason) =>
      WithAttributes(WithTag(xml, "      ", "skipped"), [("message", XmlEscape(reason))]) + " />" + "\n"
  }

  function WithCase(xml: string, result: TestResult): string
  {
    var start := WithOpening(xml, result);
    if result.outcome.Pass? && result.properties == [] then
      start + " />" + "\n"
    else
      var inner := WithPropertiesBlock(start + ">" + "\n", result.properties);
      WithEnd(WithOutcome(inner, result.outcome), "    ", "testcase")
  }

  function WithCases(xml: string, results: seq<TestResult>): string
    decreases |results|
  {
    if results == [] then xml else WithCases(WithCase(xml, results[0]), results[1..])
  }

  function WithFooter(xml: string): string
  {
    WithEnd(WithEnd(xml, "  ", "testsuite"), "", "testsuites")
  }

  function Document(results: seq<TestResult>, time: TimeText): string
  {
    WithFooter(WithCases(WithHeader(results, time), results))
  }

  /** The writer, appending to one buffer. */
  method FormatJunit(results: seq<TestResult>, totalTime: TimeText) returns (xml: string)
    ensures xml == Document(results, totalTime)
  {
    xml := WithHeader(results, totalTime);
    for i := 0 to |results|
      invariant WithCases(xml, results[i..]) == WithCases(WithHeader(results, totalTime), results)
    {
      assert results[i..][0] == results[i] && results[i..][1..] == results[i + 1..];
      xml := FormatCase(xml, results[i]);
    }
    xml := WithFooter(xml);
  }

  /** The body of the writer's outer loop. */
  method FormatCase(buffer: string, result: TestResult) returns (xml: string)
    ensures xml == WithCase(buffer, result)
  {
    xml := WithOpening(buffer, result);
    if result.outcome.Pass? && result.properties == [] {
      xml := xml + " />" + "\n";
    } else {
      xml := xml + ">" + "\n";
      var properties := result.properties;
      if properties != [] {
        xml := WithTag(xml, "      ", "properties") + ">" + "\n";
        ghost var before := xml;
        for i := 0 to |properties|
          invariant WithProperties(xml, properties[i..]) == WithProperties(before, properties)
        {
          assert properties[i..][0] == properties[i] && properties[i..][1..] == properties[i + 1..];
          xml := WithProperty(xml, properties[i]);
        }
        xml := WithEnd(xml, "      ", "properties");
      }
      xml := WithOutcome(xml, result.outcome);
      xml := WithEnd(xml, "    ", "testcase");
    }
  }
}
