/** `xml_escape`: five replacements in sequence, and the entity decoder that undoes them. */
module Escaping {
  import opened Wrappers

  /** `str::replace` of one character by a text. */
  function Replace(s: string, c: char, text: string): string
  {
    if s == "" then "" else (if s[0] == c then text else [s[0]]) + Replace(s[1..], c, text)
  }

  function XmlEscape(s: string): string
  {
    var amp := Replace(s, '&', "&amp;");
    EscapeQuotes(EscapeBrackets(amp))
  }

  function EscapeBrackets(s: string): string { Replace(Replace(s, '<', "&lt;"), '>', "&gt;") }

  function EscapeQuotes(s: string): string { Replace(Replace(s, '"', "&quot;"), '\'', "&apos;") }

  /** One character at a time: what the five passes amount to. */
  function Entity(c: char): string
  {
    if c == '&' then "&amp;"
    else if c == '<' then "&lt;"
    else if c == '>' then "&gt;"
    else if c == '"' then "&quot;"
    else if c == '\'' then "&apos;"
    else [c]
  }

  function OnePass(s: string): string
  {
    if s == "" then "" else Entity(s[0]) + OnePass(s[1..])
  }

  lemma {:induction false} ReplaceOfConcat(a: string, b: string, c: char, text: string)
    ensures Replace(a + b, c, text) == Replace(a, c, text) + Replace(b, c, text)
  {
    if a == "" {
      assert a + b == b;
    } else {
      assert (a + b)[1..] == a[1..] + b;
      ReplaceOfConcat(a[1..], b, c, text);
      assert (a + b)[0] == a[0];
    }
  }

  lemma {:induction false} ReplaceOfAbsent(s: string, c: char, text: string)
    requires c !in s
    ensures Replace(s, c, text) == s
  {
    if s != "" {
      ReplaceOfAbsent(s[1..], c, text);
    }
  }

  lemma EscapeOfConcat(a: string, b: string)
    ensures EscapeQuotes(EscapeBrackets(a + b)) == EscapeQuotes(EscapeBrackets(a)) + EscapeQuotes(EscapeBrackets(b))
  {
    ReplaceOfConcat(a, b, '<', "&lt;");
    var a1, b1 := Replace(a, '<', "&lt;"), Replace(b, '<', "&lt;");
    ReplaceOfConcat(a1, b1, '>', "&gt;");
    var a2, b2 := Replace(a1, '>', "&gt;"), Replace(b1, '>', "&gt;");
    ReplaceOfConcat(a2, b2, '"', "&quot;");
    ReplaceOfConcat(Replace(a2, '"', "&quot;"), Replace(b2, '"', "&quot;"), '\'', "&apos;");
  }

  predicate IsPlain(s: string) { '<' !in s && '>' !in s && '"' !in s && '\'' !in s }

  lemma EscapeOfPlain(s: string)
    requires IsPlain(s)
    ensures EscapeBrackets(s) == s && EscapeQuotes(s) == s
  {
    ReplaceOfAbsent(s, '<', "&lt;");
    ReplaceOfAbsent(s, '>', "&gt;");
    ReplaceOfAbsent(s, '"', "&quot;");
    ReplaceOfAbsent(s, '\'', "&apos;");
  }

  lemma ReplaceOfOne(c: char, text: string)
    ensures Replace([c], c, text) == text
  {
    assert [c][1..] == "";
  }

  lemma ReplacedOnce(c: char, text: string, d: char, other: string)
    requires d !in text
    ensures Replace(Replace([c], c, text), d, other) == text
  {
    ReplaceOfOne(c, text);
    ReplaceOfAbsent(text, d, other);
  }

  lemma EscapeOfLess()
    ensures EscapeBrackets("<") == "&lt;" && EscapeQuotes("&lt;") == "&lt;"
  {
    ReplacedOnce('<', "&lt;", '>', "&gt;");
    EscapeOfPlain("&lt;");
  }

  lemma EscapeOfGreater()
    ensures EscapeBrackets(">") == "&gt;" && EscapeQuotes("&gt;") == "&gt;"
  {
    ReplaceOfAbsent(">", '<', "&lt;");
    ReplaceOfOne('>', "&gt;");
    EscapeOfPlain("&gt;");
  }

  lemma EscapeOfQuote()
    ensures EscapeBrackets("\"") == "\"" && EscapeQuotes("\"") == "&quot;"
  {
    ReplaceOfAbsent("\"", '<', "&lt;");
    ReplaceOfAbsent("\"", '>', "&gt;");
    ReplacedOnce('"', "&quot;", '\'', "&apos;");
  }

  lemma EscapeOfApostrophe()
    ensures EscapeBrackets("'") == "'" && EscapeQuotes("'") == "&apos;"
  {
    ReplaceOfAbsent("'", '<', "&lt;");
    ReplaceOfAbsent("'", '>', "&gt;");
    ReplaceOfAbsent("'", '"', "&quot;");
    ReplaceOfOne('\'', "&apos;");
  }

  lemma EscapeOfChar(c: char)
    ensures EscapeQuotes(EscapeBrackets(if c == '&' then "&amp;" else [c])) == Entity(c)
  {
    if c == '&' {
      EscapeOfPlain("&amp;");
    } else if c == '<' {
      EscapeOfLess();
    } else if c == '>' {
      EscapeOfGreater();
    } else if c == '"' {
      EscapeOfQuote();
    } else if c == '\'' {
      EscapeOfApostrophe();
    } else {
      EscapeOfPlain([c]);
    }
  }

  /** The five passes never interfere: together they are one substitution per character. */
  lemma {:induction false} EscapeIsOnePass(s: string)
    ensures XmlEscape(s) == OnePass(s)
  {
    if s != "" {
      EscapeIsOnePass(s[1..]);
      EscapeOfChar(s[0]);
      EscapeOfConcat(if s[0] == '&' then "&amp;" else [s[0]], Replace(s[1..], '&', "&amp;"));
    }
  }

  lemma EscapeOfOne(c: char)
    ensures XmlEscape([c]) == Entity(c)
  {
    EscapeIsOnePass([c]);
    assert [c][1..] == "" && Entity(c) + "" == Entity(c);
  }

  /** The five reserved characters have their predefined entities, and every other one stays. */
  lemma PredefinedEntities(c: char)
    ensures XmlEscape("&") == "&amp;" && XmlEscape("<") == "&lt;" && XmlEscape(">") == "&gt;"
    ensures XmlEscape("\"") == "&quot;" && XmlEscape("'") == "&apos;"
    ensures c !in "&<>\"'" ==> XmlEscape([c]) == [c]
  {
    EscapeOfOne('&');
    EscapeOfOne('<');
    EscapeOfOne('>');
    EscapeOfOne('"');
    EscapeOfOne('\'');
    EscapeOfOne(c);
  }

  /** An entity reference at the start of `s`: the character it stands for and its length. */
  function ReadEntity(s: string): Option<(char, nat)>
  {
    if "&amp;" <= s then Some(('&', 5))
    else if "&lt;" <= s then Some(('<', 4))
    else if "&gt;" <= s then Some(('>', 4))
    else if "&quot;" <= s then Some(('"', 6))
    else if "&apos;" <= s then Some(('\'', 6))
    else None
  }

  /** Entity-level decoding; text with raw markup characters or an unknown reference is refused. */
  function Decode(s: string): Option<string>
    decreases |s|
  {
    if s == "" then Some("")
    else if s[0] == '&' then
      match ReadEntity(s)
      case None => None
      case Some((c, n)) =>
        match Decode(s[n..])
        case None => None
        case Some(rest) => Some([c] + rest)
    else if !IsPlain([s[0]]) then None
    else
      match Decode(s[1..])
      case None => None
      case Some(rest) => Some([s[0]] + rest)
  }

  lemma ReadEntityOf(c: char, rest: string)
    requires Entity(c) != [c] || c == '&'
    ensures ReadEntity(Entity(c) + rest) == Some((c, |Entity(c)|))
    ensures (Entity(c) + rest)[0] == '&' && (Entity(c) + rest)[|Entity(c)|..] == rest
  {
    var s := Entity(c) + rest;
    assert s[..|Entity(c)|] == Entity(c);
    assert s[1] == Entity(c)[1] && s[2] == Entity(c)[2];
  }

  lemma DecodeOfEntity(c: char, rest: string)
    ensures Decode(Entity(c) + rest) == if Decode(rest).None? then None else Some([c] + Decode(rest).value)
  {
    if Entity(c) == [c] && c != '&' {
      assert ([c] + rest)[0] == c && ([c] + rest)[1..] == rest;
    } else {
      ReadEntityOf(c, rest);
    }
  }

  lemma {:induction false} DecodeOfOnePass(s: string)
    ensures Decode(OnePass(s)) == Some(s)
  {
    if s != "" {
      DecodeOfOnePass(s[1..]);
      DecodeOfEntity(s[0], OnePass(s[1..]));
      assert [s[0]] + s[1..] == s;
    }
  }

  /** Decoding restores the input, whatever it was. */
  lemma DecodeOfEscape(s: string)
    ensures Decode(XmlEscape(s)) == Some(s)
  {
    EscapeIsOnePass(s);
    DecodeOfOnePass(s);
  }

  ghost predicate StartsEntities(s: string)
  {
    forall k :: 0 <= k < |s| && s[k] == '&' ==> ReadEntity(s[k..]).Some?
  }

  lemma StartsEntitiesExtends(s: string, n: nat)
    requires 1 <= n <= |s| && StartsEntities(s[n..])
    requires s[0] == '&' ==> ReadEntity(s).Some?
    requires forall k :: 1 <= k < n ==> s[k] != '&'
    ensures StartsEntities(s)
  {
    forall k | 0 <= k < |s| && s[k] == '&' ensures ReadEntity(s[k..]).Some? {
      if k == 0 {
        assert s[0..] == s;
      } else {
        assert s[n..][k - n] == '&' && s[n..][k - n..] == s[k..];
      }
    }
  }

  /** Anything that decodes has no raw markup character, and every '&' in it starts a predefined entity. */
  lemma {:induction false} DecodableIsClean(s: string)
    requires Decode(s).Some?
    ensures IsPlain(s) && StartsEntities(s)
    decreases |s|
  {
    if s != "" {
      var n := if s[0] == '&' then ReadEntity(s).value.1 else 1;
      DecodableIsClean(s[n..]);
      HeadIsClean(s);
      StartsEntitiesExtends(s, n);
      assert s == s[..n] + s[n..];
    }
  }

  lemma ReadEntityInverts(s: string)
    requires ReadEntity(s).Some?
    ensures var (c, n) := ReadEntity(s).value; Entity(c) <= s && n == |Entity(c)| > 1
  {
  }

  lemma EntityIsClean(c: char)
    requires |Entity(c)| > 1
    ensures IsPlain(Entity(c)) && forall k :: 1 <= k < |Entity(c)| ==> Entity(c)[k] != '&'
  {
  }

  lemma HeadIsClean(s: string)
    requires Decode(s).Some? && s != ""
    ensures var n := if s[0] == '&' then ReadEntity(s).value.1 else 1;
      n <= |s| && IsPlain(s[..n]) && forall k :: 1 <= k < n ==> s[k] != '&'
  {
    if s[0] == '&' {
      ReadEntityInverts(s);
      var c := ReadEntity(s).value.0;
      EntityIsClean(c);
      assert s[..|Entity(c)|] == Entity(c);
      assert forall k :: 0 <= k < |Entity(c)| ==> s[k] == Entity(c)[k];
    } else {
      assert s[..1] == [s[0]];
    }
  }

  lemma EscapeIsClean(s: string)
    ensures IsPlain(XmlEscape(s)) && StartsEntities(XmlEscape(s))
  {
    DecodeOfEscape(s);
    DecodableIsClean(XmlEscape(s));
  }

  // Replacing '&' last instead of first would escape the entities just produced.

  function AmpersandLast(s: string): string
  {
    Replace(EscapeQuotes(EscapeBrackets(s)), '&', "&amp;")
  }

  lemma EscapeOfLongerChar(c: char)
    ensures IsPlain(EscapeQuotes(EscapeBrackets([c])))
    ensures |EscapeQuotes(EscapeBrackets([c]))| >= 1
    ensures EscapeQuotes(EscapeBrackets([c])) == [c] <==> IsPlain([c])
  {
    if IsPlain([c]) {
      EscapeOfPlain([c]);
    } else {
      EscapeOfChar(c);
      EntityIsClean(c);
    }
  }

  lemma {:induction false} QuotingIsVisible(s: string)
    ensures var t := EscapeQuotes(EscapeBrackets(s)); IsPlain(t) && |t| >= |s| && (t == s <==> IsPlain(s))
  {
    if s == "" {
      EscapeOfPlain("");
    } else {
      var head, tail := [s[0]], s[1..];
      assert s == head + tail;
      EscapeOfConcat(head, tail);
      QuotingIsVisible(tail);
      EscapeOfLongerChar(s[0]);
      ConcatIsVisible(EscapeQuotes(EscapeBrackets(head)), EscapeQuotes(EscapeBrackets(tail)), head, tail);
    }
  }

  lemma ConcatIsVisible(a: string, b: string, head: string, tail: string)
    requires |a| >= |head| && |b| >= |tail|
    ensures a + b == head + tail <==> a == head && b == tail
  {
    if a + b == head + tail {
      assert |a + b| == |head + tail|;
      assert a == (a + b)[..|a|] && head == (head + tail)[..|head|];
      assert b == (a + b)[|a|..] && tail == (head + tail)[|head|..];
    }
  }

  lemma {:induction false} OnePassOfPlain(s: string)
    requires IsPlain(s)
    ensures OnePass(s) == Replace(s, '&', "&amp;")
  {
    if s != "" {
      OnePassOfPlain(s[1..]);
    }
  }

  /** The order matters: with '&' last, decoding restores exactly the texts that need no other entity. */
  lemma AmpersandMustBeFirst(s: string)
    ensures Decode(AmpersandLast(s)) == Some(s) <==> IsPlain(s)
  {
    var t := EscapeQuotes(EscapeBrackets(s));
    QuotingIsVisible(s);
    OnePassOfPlain(t);
    DecodeOfOnePass(t);
  }
}
