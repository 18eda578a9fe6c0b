/** A reference XML scanner: text to events, and the printing it inverts. */
module XmlEvents {
  import opened Wrappers
  import opened Escaping

  type Attributes = seq<(string, string)>

  /** Character data is reported one character at a time. */
  datatype Event =
    | Declaration(attributes: Attributes)
    | Start(name: string, attributes: Attributes)
    | EmptyElement(name: string, attributes: Attributes)
    | End(name: string)
    | Character(c: char)

  predicate IsNameChar(c: char) { 'a' <= c <= 'z' }

  ghost predicate IsName(s: string) { s != "" && forall k :: 0 <= k < |s| ==> IsNameChar(s[k]) }

  // Scanning

  function NameLength(s: string): (n: nat)
    ensures n <= |s|
  {
    if s == "" || !IsNameChar(s[0]) then 0 else 1 + NameLength(s[1..])
  }

  /** Length of the text before the first double quote. */
  function QuotedLength(s: string): (n: nat)
    ensures n <= |s|
  {
    if s == "" || s[0] == '"' then 0 else 1 + QuotedLength(s[1..])
  }

  /** A quoted text, from just after its first quote: the decoded value and what follows the second quote. */
  function ScanValue(s: string): (r: Option<(string, string)>)
    ensures r.Some? ==> |r.value.1| < |s|
  {
    var m := QuotedLength(s);
    var value := Decode(s[..m]);
    if m == |s| || value.None? then None else Some((value.value, s[m + 1..]))
  }

  /** One attribute, including the blank in front of it. */
  function ScanAttribute(s: string): (r: Option<((string, string), string)>)
    ensures r.Some? ==> |r.value.1| < |s|
  {
    if s == "" || s[0] != ' ' then None
    else
      var n := NameLength(s[1..]);
      var afterName := s[1 + n..];
      if n == 0 || !("=\"" <= afterName) then None
      else
        var scanned := ScanValue(afterName[2..]);
        if scanned.None? then None else Some(((s[1..1 + n], scanned.value.0), scanned.value.1))
  }

  function ScanAttributes(s: string): (r: (Attributes, string))
    ensures |r.1| <= |s|
    decreases |s|
  {
    match ScanAttribute(s)
    case None => ([], s)
    case Some((attribute, rest)) =>
      var (others, end) := ScanAttributes(rest);
      ([attribute] + others, end)
  }

  /** A tag, from just after its '<'. */
  function ScanTag(s: string): (r: Option<(Event, string)>)
    ensures r.Some? ==> |r.value.1| <= |s|
  {
    if "/" <= s then
      var n := NameLength(s[1..]);
      if n == 0 || !(">" <= s[1 + n..]) then None else Some((End(s[1..1 + n]), s[2 + n..]))
    else if "?xml" <= s then
      var (attributes, rest) := ScanAttributes(s[4..]);
      if "?>" <= rest then Some((Declaration(attributes), rest[2..])) else None
    else
      var n := NameLength(s);
      var (attributes, rest) := ScanAttributes(s[n..]);
      if n == 0 then None
      else if ">" <= rest then Some((Start(s[..n], attributes), rest[1..]))
      else if " />" <= rest then Some((EmptyElement(s[..n], attributes), rest[3..]))
      else None
  }

  function Scan(s: string): Option<seq<Event>>
    decreases |s|
  {
    if s == "" then Some([])
    else
      var step :=
        if s[0] == '<' then ScanTag(s[1..])
        else if s[0] == '&' then
          if ReadEntity(s).Some? then Some((Character(ReadEntity(s).value.0), s[ReadEntity(s).value.1..])) else None
        else Some((Character(s[0]), s[1..]));
      match step
      case None => None
      case Some((event, rest)) =>
        match Scan(rest)
        case None => None
        case Some(events) => Some([event] + events)
  }

  // Printing

  // Every printer takes the text that follows, so that printing composes without regrouping.

  function PrintAttributes(attributes: Attributes, rest: string): string
  {
    if attributes == [] then rest
    else PrintAttribute(attributes[0], PrintAttributes(attributes[1..], rest))
  }

  function PrintAttribute(attribute: (string, string), rest: string): string
  {
    " " + (attribute.0 + ("=\"" + (OnePass(attribute.1) + ("\"" + rest))))
  }

  function PrintEvent(event: Event, rest: string): string
  {
    match event
    case Declaration(attributes) => "<" + ("?xml" + PrintAttributes(attributes, "?>" + rest))
    case Start(name, attributes) => "<" + (name + PrintAttributes(attributes, ">" + rest))
    case EmptyElement(name, attributes) => "<" + (name + PrintAttributes(attributes, " />" + rest))
    case End(name) => "<" + ("/" + (name + (">" + rest)))
    case Character(c) => Entity(c) + rest
  }

  function Print(events: seq<Event>, rest: string): string
  {
    if events == [] then rest else PrintEvent(events[0], Print(events[1..], rest))
  }

  ghost predicate HasNames(attributes: Attributes)
  {
    forall k :: 0 <= k < |attributes| ==> IsName(attributes[k].0)
  }

  ghost predicate IsPrintable(event: Event)
  {
    match event
    case Declaration(attributes) => HasNames(attributes)
    case Start(name, attributes) => IsName(name) && HasNames(attributes)
    case EmptyElement(name, attributes) => IsName(name) && HasNames(attributes)
    case End(name) => IsName(name)
    case Character(c) => true
  }

  ghost predicate ArePrintable(events: seq<Event>)
  {
    forall k :: 0 <= k < |events| ==> IsPrintable(events[k])
  }

  lemma {:induction false} NameLengthOf(name: string, rest: string)
    requires IsName(name) && (rest == "" || !IsNameChar(rest[0]))
    ensures NameLength(name + rest) == |name|
  {
    if |name| == 1 {
      assert (name + rest)[1..] == rest;
    } else {
      assert (name + rest)[1..] == name[1..] + rest;
      NameLengthOf(name[1..], rest);
    }
  }

  lemma {:induction false} QuotedLengthOf(value: string, rest: string)
    requires '"' !in value
    ensures QuotedLength(value + ("\"" + rest)) == |value|
  {
    var s := value + ("\"" + rest);
    if value == "" {
      assert s[0] == '"';
    } else {
      assert s[1..] == value[1..] + ("\"" + rest);
      QuotedLengthOf(value[1..], rest);
    }
  }

  lemma Halves(a: string, b: string)
    ensures (a + b)[..|a|] == a && (a + b)[|a|..] == b
  {
  }

  lemma ScanQuoted(text: string, value: string, rest: string)
    requires '"' !in text && Decode(text) == Some(value)
    ensures ScanValue(text + ("\"" + rest)) == Some((value, rest))
  {
    var s := text + ("\"" + rest);
    QuotedLengthOf(text, rest);
    Halves(text, "\"" + rest);
    Halves("\"", rest);
    SliceOfTail(s, |text|, 1);
  }

  lemma ScanValueOf(value: string, rest: string)
    ensures ScanValue(OnePass(value) + ("\"" + rest)) == Some((value, rest))
  {
    DecodeOfOnePass(value);
    DecodableIsClean(OnePass(value));
    ScanQuoted(OnePass(value), value, rest);
  }

  lemma ScanAttributeOf(attribute: (string, string), rest: string)
    requires IsName(attribute.0)
    ensures ScanAttribute(PrintAttribute(attribute, rest)) == Some((attribute, rest))
  {
    var (key, value) := attribute;
    var quoted := OnePass(value) + ("\"" + rest);
    ScanValueOf(value, rest);
    ScanNamed(key, quoted);
  }

  /** The name of an attribute, up to the quote that opens its value. */
  lemma ScanNamed(key: string, quoted: string)
    requires IsName(key) && ScanValue(quoted).Some?
    ensures ScanAttribute(" " + (key + ("=\"" + quoted)))
         == Some(((key, ScanValue(quoted).value.0), ScanValue(quoted).value.1))
  {
    var afterName := "=\"" + quoted;
    var s := " " + (key + afterName);
    NameLengthOf(key, afterName);
    Halves(" ", key + afterName);
    Halves(key, afterName);
    Halves("=\"", quoted);
    SliceOfTail(s, 1, |key|);
  }

  lemma SliceOfTail(s: string, k: nat, n: nat)
    requires k + n <= |s|
    ensures s[k..k + n] == s[k..][..n] && s[k + n..] == s[k..][n..]
  {
  }

  /** What follows the attributes of a tag. */
  predicate EndsTag(rest: string) { ">" <= rest || " />" <= rest || "?>" <= rest }

  lemma NoAttributeAtEnd(rest: string)
    requires EndsTag(rest)
    ensures rest != "" && !IsNameChar(rest[0]) && ScanAttribute(rest).None?
  {
    if rest[0] == ' ' {
      assert rest[1..][0] == '/';
    }
  }

  lemma {:induction false} ScanAttributesOf(attributes: Attributes, rest: string)
    requires HasNames(attributes) && EndsTag(rest)
    ensures var s := PrintAttributes(attributes, rest);
      ScanAttributes(s) == (attributes, rest) && s != "" && !IsNameChar(s[0])
  {
    NoAttributeAtEnd(rest);
    if attributes != [] {
      ScanAttributeOf(attributes[0], PrintAttributes(attributes[1..], rest));
      ScanAttributesOf(attributes[1..], rest);
      assert [attributes[0]] + attributes[1..] == attributes;
    }
  }

  lemma ScanTagOfOpening(name: string, attributes: Attributes, rest: string)
    requires IsName(name) && HasNames(attributes) && EndsTag(rest)
    ensures var s := name + PrintAttributes(attributes, rest);
      && !("/" <= s) && !("?xml" <= s)
      && NameLength(s) == |name| && s[..|name|] == name
      && ScanAttributes(s[|name|..]) == (attributes, rest)
  {
    var tail := PrintAttributes(attributes, rest);
    var s := name + tail;
    assert s[0] == name[0];
    ScanAttributesOf(attributes, rest);
    NameLengthOf(name, tail);
    Halves(name, tail);
  }

  lemma ScanTagOfEnd(name: string, rest: string)
    requires IsName(name)
    ensures ScanTag("/" + (name + (">" + rest))) == Some((End(name), rest))
  {
    var s := "/" + (name + (">" + rest));
    Halves("/", name + (">" + rest));
    Halves(name, ">" + rest);
    Halves(">", rest);
    NameLengthOf(name, ">" + rest);
    SliceOfTail(s, 1, |name|);
    SliceOfTail(s, 1 + |name|, 1);
  }

  lemma ScanTagOfDeclaration(attributes: Attributes, rest: string)
    requires HasNames(attributes)
    ensures ScanTag("?xml" + PrintAttributes(attributes, "?>" + rest)) == Some((Declaration(attributes), rest))
  {
    var tail := PrintAttributes(attributes, "?>" + rest);
    Halves("?xml", tail);
    Halves("?>", rest);
    ScanAttributesOf(attributes, "?>" + rest);
    assert ("?xml" + tail)[0] == '?';
  }

  lemma ScanTagOfStart(name: string, attributes: Attributes, rest: string)
    requires IsName(name) && HasNames(attributes)
    ensures ScanTag(name + PrintAttributes(attributes, ">" + rest)) == Some((Start(name, attributes), rest))
  {
    ScanTagOfOpening(name, attributes, ">" + rest);
    Halves(">", rest);
  }

  lemma ScanTagOfEmpty(name: string, attributes: Attributes, rest: string)
    requires IsName(name) && HasNames(attributes)
    ensures ScanTag(name + PrintAttributes(attributes, " />" + rest)) == Some((EmptyElement(name, attributes), rest))
  {
    ScanTagOfOpening(name, attributes, " />" + rest);
    Halves(" />", rest);
    assert (" />" + rest)[0] == ' ';
  }

  lemma ScanTagOfPrinted(event: Event, rest: string)
    requires IsPrintable(event) && !event.Character?
    ensures PrintEvent(event, rest) != "" && PrintEvent(event, rest)[0] == '<'
    ensures ScanTag(PrintEvent(event, rest)[1..]) == Some((event, rest))
  {
    var tag: string;
    match event {
      case Declaration(attributes) =>
        tag := "?xml" + PrintAttributes(attributes, "?>" + rest);
        ScanTagOfDeclaration(attributes, rest);
      case Start(name, attributes) =>
        tag := name + PrintAttributes(attributes, ">" + rest);
        ScanTagOfStart(name, attributes, rest);
      case EmptyElement(name, attributes) =>
        tag := name + PrintAttributes(attributes, " />" + rest);
        ScanTagOfEmpty(name, attributes, rest);
      case End(name) =>
        tag := "/" + (name + (">" + rest));
        ScanTagOfEnd(name, rest);
    }
    Halves("<", tag);
  }

  lemma ScanOfCharacter(c: char, rest: string)
    ensures Scan(Entity(c) + rest) == if Scan(rest).None? then None else Some([Character(c)] + Scan(rest).value)
  {
    if |Entity(c)| == 1 {
      assert (Entity(c) + rest)[0] == c && (Entity(c) + rest)[1..] == rest;
    } else {
      ReadEntityOf(c, rest);
    }
  }

  /** Scanning undoes printing, on every list of events with legal names. */
  lemma {:induction false} ScanOfPrinted(events: seq<Event>)
    requires ArePrintable(events)
    ensures Scan(Print(events, "")) == Some(events)
  {
    if events != [] {
      ScanOfPrinted(events[1..]);
      var rest := Print(events[1..], "");
      match events[0] {
        case Character(c) => ScanOfCharacter(c, rest);
        case _ => ScanTagOfPrinted(events[0], rest);
      }
      assert [events[0]] + events[1..] == events;
    }
  }

  lemma {:induction false} PrintOfConcat(a: seq<Event>, b: seq<Event>, rest: string)
    ensures Print(a + b, rest) == Print(a, Print(b, rest))
  {
    if a == [] {
      assert a + b == b;
    } else {
      assert (a + b)[1..] == a[1..] + b;
      PrintOfConcat(a[1..], b, rest);
    }
  }

  function Characters(s: string): (events: seq<Event>)
    ensures |events| == |s|
    ensures forall k :: 0 <= k < |s| ==> events[k] == Character(s[k])
  {
    if s == "" then [] else [Character(s[0])] + Characters(s[1..])
  }

  lemma {:induction false} PrintOfCharacters(s: string, rest: string)
    ensures Print(Characters(s), rest) == OnePass(s) + rest
    ensures ArePrintable(Characters(s))
  {
    if s != "" {
      PrintOfCharacters(s[1..], rest);
      assert Entity(s[0]) + (OnePass(s[1..]) + rest) == (Entity(s[0]) + OnePass(s[1..])) + rest;
    }
  }

  // Nesting

  /** The elements still open after the events, innermost first; None when an end tag does not match. */
  function OpenElements(open: seq<string>, events: seq<Event>): Option<seq<string>>
    decreases |events|
  {
    if events == [] then Some(open)
    else
      match events[0]
      case Start(name, _) => OpenElements([name] + open, events[1..])
      case End(name) => if open != [] && open[0] == name then OpenElements(open[1..], events[1..]) else None
      case _ => OpenElements(open, events[1..])
  }

  lemma {:induction false} OpenElementsOfConcat(open: seq<string>, a: seq<Event>, b: seq<Event>)
    ensures OpenElements(open, a + b)
         == if OpenElements(open, a).None? then None else OpenElements(OpenElements(open, a).value, b)
    decreases |a|
  {
    if a == [] {
      assert a + b == b;
    } else {
      assert (a + b)[1..] == a[1..] + b;
      match a[0] {
        case Start(name, _) => OpenElementsOfConcat([name] + open, a[1..], b);
        case End(name) =>
          if open != [] && open[0] == name {
            OpenElementsOfConcat(open[1..], a[1..], b);
          }
        case _ => OpenElementsOfConcat(open, a[1..], b);
      }
    }
  }

  /** Nested elements and other events: a start tag with a forest and its own end tag after it, and then a forest. */
  ghost predicate IsForest(events: seq<Event>)
    decreases |events|, 1
  {
    || events == []
    || (!events[0].Start? && !events[0].End? && IsForest(events[1..]))
    || exists k :: ClosesAt(events, k)
  }

  /** The first event opens an element, and event `k` closes it. */
  ghost predicate ClosesAt(events: seq<Event>, k: nat)
    decreases |events|, 0
  {
    && 0 < k < |events| && events[0].Start? && events[k] == End(events[0].name)
    && IsForest(events[1..k]) && IsForest(events[k + 1..])
  }

  lemma ElementKeepsOpen(open: seq<string>, events: seq<Event>, k: nat)
    requires 0 < k < |events| && events[0].Start? && events[k] == End(events[0].name)
    requires OpenElements([events[0].name] + open, events[1..k]) == Some([events[0].name] + open)
    ensures OpenElements(open, events) == OpenElements(open, events[k + 1..])
  {
    var inner := [events[0].name] + open;
    OpenElementsOfConcat(inner, events[1..k], events[k..]);
    assert events[1..] == events[1..k] + events[k..];
    assert events[k..][0] == events[k] && events[k..][1..] == events[k + 1..] && inner[1..] == open;
  }

  lemma {:induction false} ForestKeepsOpen(open: seq<string>, events: seq<Event>)
    requires IsForest(events)
    ensures OpenElements(open, events) == Some(open)
    decreases |events|
  {
    if events != [] && events[0].Start? {
      var k: nat :| ClosesAt(events, k);
      ForestKeepsOpen([events[0].name] + open, events[1..k]);
      ForestKeepsOpen(open, events[k + 1..]);
      ElementKeepsOpen(open, events, k);
    } else if events != [] {
      ForestKeepsOpen(open, events[1..]);
    }
  }

  /** An end tag after a forest, and what follows it. */
  ghost predicate EndsAt(name: string, events: seq<Event>, k: nat)
  {
    k < |events| && events[k] == End(name) && IsForest(events[..k])
  }

  lemma EndAfterElement(name: string, events: seq<Event>, i: nat, j: nat)
    requires events != [] && events[0].Start? && EndsAt(events[0].name, events[1..], i)
    requires EndsAt(name, events[1..][i + 1..], j)
    ensures EndsAt(name, events, i + 2 + j) && events[i + 2 + j + 1..] == events[1..][i + 1..][j + 1..]
  {
    var k, rest := i + 2 + j, events[1..][i + 1..];
    var before := events[..k];
    assert rest == events[i + 2..];
    assert before[1..i + 1] == events[1..][..i] && before[i + 2..] == rest[..j];
    assert ClosesAt(before, i + 1);
  }

  lemma EndAfterLeaf(name: string, events: seq<Event>, i: nat)
    requires events != [] && !events[0].Start? && !events[0].End? && EndsAt(name, events[1..], i)
    ensures EndsAt(name, events, i + 1) && events[i + 2..] == events[1..][i + 1..]
  {
    assert events[..i + 1][1..] == events[1..][..i];
  }

  lemma EndIsHere(name: string, open: seq<string>, events: seq<Event>, left: seq<string>)
    requires events != [] && events[0].End? && OpenElements([name] + open, events) == Some(left)
    ensures EndsAt(name, events, 0) && OpenElements(open, events[0 + 1..]) == Some(left)
  {
    assert ([name] + open)[1..] == open && events[..0] == [];
  }

  /** An element that is closed by the end is closed after a forest. */
  lemma {:induction false} EndIsFound(name: string, open: seq<string>, events: seq<Event>, left: seq<string>)
    returns (k: nat)
    requires OpenElements([name] + open, events) == Some(left) && |left| <= |open|
    ensures EndsAt(name, events, k) && OpenElements(open, events[k + 1..]) == Some(left)
    decreases |events|
  {
    if events[0].End? {
      EndIsHere(name, open, events, left);
      k := 0;
    } else if events[0].Start? {
      var i := EndIsFound(events[0].name, [name] + open, events[1..], left);
      var j := EndIsFound(name, open, events[1..][i + 1..], left);
      EndAfterElement(name, events, i, j);
      k := i + 2 + j;
    } else {
      var i := EndIsFound(name, open, events[1..], left);
      EndAfterLeaf(name, events, i);
      k := i + 1;
    }
  }

  lemma {:induction false} ForestOfNoneOpen(events: seq<Event>)
    requires OpenElements([], events) == Some([])
    ensures IsForest(events)
    decreases |events|
  {
    if events != [] && events[0].Start? {
      var i := EndIsFound(events[0].name, [], events[1..], []);
      assert events[1..][i + 1..] == events[i + 2..] && events[1..i + 1] == events[1..][..i];
      ForestOfNoneOpen(events[i + 2..]);
      assert ClosesAt(events, i + 1);
    } else if events != [] {
      ForestOfNoneOpen(events[1..]);
    }
  }

  /** The scan over open elements ends with none open exactly when the events form a forest. */
  lemma NoneOpenIsForest(events: seq<Event>)
    ensures OpenElements([], events) == Some([]) <==> IsForest(events)
  {
    if IsForest(events) {
      ForestKeepsOpen([], events);
    }
    if OpenElements([], events) == Some([]) {
      ForestOfNoneOpen(events);
    }
  }

  lemma {:induction false} CharactersKeepOpen(open: seq<string>, s: string)
    ensures OpenElements(open, Characters(s)) == Some(open)
  {
    if s != "" {
      CharactersKeepOpen(open, s[1..]);
    }
  }
}
