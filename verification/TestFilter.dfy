/** `TEST_FILTER`: parsing, composing, displaying and applying a selection filter. */
module TestFilter {
  import opened Wrappers
  import opened Text
  import opened FilterToken

  datatype Filter = Filter(includes: seq<string>, excludes: seq<string>) {

    /** `skip` says whether the test carries a skip annotation. */
    predicate Matches(caption: string, skip: bool)
    {
      if exists k :: 0 <= k < |excludes| && Contains(caption, excludes[k]) then false
      else if includes != [] then exists k :: 0 <= k < |includes| && Contains(caption, includes[k])
      else !skip
    }

    /** The one-line description printed when a filter selects nothing. */
    function Display(): string
    {
      (if includes != [] then "include: " + Join(includes, "|") + (if excludes != [] then ", " else "") else "")
      + (if excludes != [] then "exclude: " + Join(excludes, "|") else "")
    }
  }

  // Parsing

  predicate IsExclusion(token: string) { token != "" && token[0] == '-' }

  function TokenValue(token: string): string
  {
    if IsExclusion(token) then token[1..] else token
  }

  predicate IsWellFormed(token: string) { IsToken(TokenValue(token)) }

  /** The values of the tokens on one side, in order. */
  function Side(tokens: seq<string>, excluded: bool): (values: seq<string>)
    ensures |values| <= |tokens|
  {
    if tokens == [] then []
    else
      var last := tokens[|tokens| - 1];
      Side(tokens[..|tokens| - 1], excluded) + if IsExclusion(last) == excluded then [TokenValue(last)] else []
  }

  /** The first token that breaks the grammar, if there is one. */
  function FirstMalformed(tokens: seq<string>): Option<string>
  {
    if tokens == [] then None
    else if !IsWellFormed(tokens[0]) then Some(tokens[0])
    else FirstMalformed(tokens[1..])
  }

  lemma {:induction false} NoneMalformed(tokens: seq<string>)
    ensures FirstMalformed(tokens).None? <==> forall k :: 0 <= k < |tokens| ==> IsWellFormed(tokens[k])
  {
    if tokens != [] {
      NoneMalformed(tokens[1..]);
      assert forall k :: 1 <= k < |tokens| ==> tokens[k] == tokens[1..][k - 1];
    }
  }

  lemma {:induction false} FirstMalformedAt(tokens: seq<string>, i: nat)
    requires i < |tokens| && !IsWellFormed(tokens[i])
    requires forall j :: 0 <= j < i ==> IsWellFormed(tokens[j])
    ensures FirstMalformed(tokens) == Some(tokens[i])
  {
    if i > 0 {
      FirstMalformedAt(tokens[1..], i - 1);
    }
  }

  function ParsedTokens(tokens: seq<string>): Result<Filter, string>
  {
    match FirstMalformed(tokens)
    case Some(bad) => Err(bad)
    case None => Ok(Filter(Side(tokens, false), Side(tokens, true)))
  }

  function Parsed(raw: string): Result<Filter, string>
  {
    ParsedTokens(Split(raw, ','))
  }

  /** One more token. */
  lemma SideOfNext(tokens: seq<string>, i: nat, excluded: bool)
    requires i < |tokens|
    ensures Side(tokens[..i + 1], excluded)
         == Side(tokens[..i], excluded) + if IsExclusion(tokens[i]) == excluded then [TokenValue(tokens[i])] else []
  {
    assert tokens[..i + 1][..i] == tokens[..i];
  }

  method Parse(raw: string) returns (r: Result<Filter, string>)
    ensures r == Parsed(raw)
  {
    var includes: seq<string>, excludes: seq<string> := [], [];
    var tokens := Split(raw, ',');
    for i := 0 to |tokens|
      invariant includes == Side(tokens[..i], false) && excludes == Side(tokens[..i], true)
      invariant forall k :: 0 <= k < i ==> IsWellFormed(tokens[k])
    {
      var token := tokens[i];
      var value := if token != "" && token[0] == '-' then token[1..] else token;
      assert value == TokenValue(token);
      if !IsToken(value) {
        FirstMalformedAt(tokens, i);
        return Err(token);
      }
      SideOfNext(tokens, i, false);
      SideOfNext(tokens, i, true);
      if token != "" && token[0] == '-' {
        excludes := excludes + [value];
      } else {
        includes := includes + [value];
      }
    }
    assert tokens[..|tokens|] == tokens;
    NoneMalformed(tokens);
    return Ok(Filter(includes, excludes));
  }

  // Composition

  lemma {:induction false} SideOfConcat(a: seq<string>, b: seq<string>, excluded: bool)
    ensures Side(a + b, excluded) == Side(a, excluded) + Side(b, excluded)
  {
    if b == [] {
      assert a + b == a;
    } else {
      assert (a + b)[..|a + b| - 1] == a + b[..|b| - 1];
      SideOfConcat(a, b[..|b| - 1], excluded);
    }
  }

  lemma {:induction false} FirstMalformedOfConcat(a: seq<string>, b: seq<string>)
    ensures FirstMalformed(a + b) == if FirstMalformed(a).Some? then FirstMalformed(a) else FirstMalformed(b)
  {
    if a == [] {
      assert a + b == b;
    } else {
      assert (a + b)[1..] == a[1..] + b;
      FirstMalformedOfConcat(a[1..], b);
    }
  }

  /** Filters concatenate side by side; the left error is reported first. */
  function Composed(a: Result<Filter, string>, b: Result<Filter, string>): Result<Filter, string>
  {
    if a.Err? then a
    else if b.Err? then b
    else Ok(Filter(a.value.includes + b.value.includes, a.value.excludes + b.value.excludes))
  }

  /** Gluing two filters with a comma: accepted exactly when both are, and then both lists are concatenated. */
  lemma ParsedOfGlued(a: string, b: string)
    ensures Parsed(a + "," + b) == Composed(Parsed(a), Parsed(b))
  {
    var s, t := Split(a, ','), Split(b, ',');
    SplitOfGlued(a, ',', b);
    FirstMalformedOfConcat(s, t);
    SideOfConcat(s, t, false);
    SideOfConcat(s, t, true);
  }

  ghost predicate MentionsAny(caption: string, values: seq<string>)
  {
    exists k :: 0 <= k < |values| && Contains(caption, values[k])
  }

  lemma MentionsAnyOfConcat(caption: string, a: seq<string>, b: seq<string>)
    ensures MentionsAny(caption, a + b) <==> MentionsAny(caption, a) || MentionsAny(caption, b)
  {
    if MentionsAny(caption, a) {
      var k :| 0 <= k < |a| && Contains(caption, a[k]);
      assert (a + b)[k] == a[k];
    }
    if MentionsAny(caption, b) {
      var k :| 0 <= k < |b| && Contains(caption, b[k]);
      assert (a + b)[|a| + k] == b[k];
    }
  }

  /** A text without a comma: a token is included, a token after '-' is excluded, and anything else is malformed. */
  lemma ParsedOfSingle(token: string)
    requires ',' !in token
    ensures Parsed(token) == if IsToken(token) then Ok(Filter([token], []))
                             else if "-" <= token && IsToken(token[1..]) then Ok(Filter([], [token[1..]]))
                             else Err(token)
  {
    SplitOfUnseparated(token, ',');
    if IsToken(token) {
      TokenShape(token);
      SidesOfIncludes([token]);
    } else {
      NoneMalformed([token]);
      if IsWellFormed(token) {
        assert IsExclusion(token) && Exclusions([token[1..]]) == [token];
        SidesOfExclusions([token[1..]]);
      } else {
        FirstMalformedAt([token], 0);
      }
    }
  }

  /** Prefixing a user filter with one include token, as the migration job of the CI action does. */
  lemma PrefixedFilterSelects(prefix: string, user: string, caption: string, skip: bool)
    requires IsToken(prefix)
    ensures Parsed(prefix + "," + user).Ok? <==> Parsed(user).Ok?
    ensures Parsed(user).Ok? ==>
              (Parsed(prefix + "," + user).value.Matches(caption, skip)
               <==> !MentionsAny(caption, Parsed(user).value.excludes)
                    && (Contains(caption, prefix) || MentionsAny(caption, Parsed(user).value.includes)))
  {
    TokenShape(prefix);
    ParsedOfSingle(prefix);
    ParsedOfGlued(prefix, user);
    if Parsed(user).Ok? {
      var f := Parsed(user).value;
      MentionsAnyOfConcat(caption, [prefix], f.includes);
      assert MentionsAny(caption, [prefix]) <==> Contains(caption, prefix) by {
        assert [prefix][0] == prefix;
      }
      assert [] + f.excludes == f.excludes;
    }
  }

  // Parsed filters

  ghost predicate AllTokens(values: seq<string>)
  {
    forall k :: 0 <= k < |values| ==> IsToken(values[k])
  }

  ghost predicate IsParsed(f: Filter)
  {
    (f.includes != [] || f.excludes != []) && AllTokens(f.includes) && AllTokens(f.excludes)
  }

  lemma {:induction false} SidesAreTokens(tokens: seq<string>)
    requires forall k :: 0 <= k < |tokens| ==> IsWellFormed(tokens[k])
    ensures AllTokens(Side(tokens, false)) && AllTokens(Side(tokens, true))
    ensures |Side(tokens, false)| + |Side(tokens, true)| == |tokens|
  {
    if tokens != [] {
      SidesAreTokens(tokens[..|tokens| - 1]);
    }
  }

  function Exclusions(values: seq<string>): seq<string>
  {
    seq(|values|, k requires 0 <= k < |values| => "-" + values[k])
  }

  /** A filter written back as comma-joined tokens. */
  function Rendered(f: Filter): string
  {
    Join(f.includes + Exclusions(f.excludes), ",")
  }

  lemma {:induction false} SidesOfIncludes(values: seq<string>)
    requires AllTokens(values)
    ensures Side(values, false) == values && Side(values, true) == []
    ensures FirstMalformed(values).None?
  {
    forall k | 0 <= k < |values| ensures IsWellFormed(values[k]) && !IsExclusion(values[k]) {
      TokenShape(values[k]);
    }
    NoneMalformed(values);
    if values != [] {
      var last := values[|values| - 1];
      SidesOfIncludes(values[..|values| - 1]);
      assert values[..|values| - 1] + [last] == values;
    }
  }

  lemma ExclusionValue(value: string)
    ensures IsExclusion("-" + value) && TokenValue("-" + value) == value
  {
    assert ("-" + value)[1..] == value;
  }

  lemma ExclusionsAreWellFormed(values: seq<string>)
    requires AllTokens(values)
    ensures FirstMalformed(Exclusions(values)).None?
  {
    forall k | 0 <= k < |values| ensures IsWellFormed(Exclusions(values)[k]) {
      ExclusionValue(values[k]);
    }
    NoneMalformed(Exclusions(values));
  }

  lemma {:induction false} SidesOfExclusions(values: seq<string>)
    ensures Side(Exclusions(values), true) == values && Side(Exclusions(values), false) == []
  {
    if values != [] {
      var init, last := values[..|values| - 1], values[|values| - 1];
      SidesOfExclusions(init);
      ExclusionValue(last);
      assert Exclusions(values)[..|values| - 1] == Exclusions(init);
      assert init + [last] == values;
    }
  }

  lemma SplitOfRendered(f: Filter)
    requires IsParsed(f)
    ensures Split(Rendered(f), ',') == f.includes + Exclusions(f.excludes)
  {
    var tokens := f.includes + Exclusions(f.excludes);
    forall k | 0 <= k < |tokens| ensures ',' !in tokens[k] {
      TokenShape(if k < |f.includes| then f.includes[k] else f.excludes[k - |f.includes|]);
    }
    SplitInvertsJoin(tokens, ',');
    assert [','] == ",";
  }

  /** What the parser accepts are the filters made of tokens, and rendering inverts it on all of them. */
  lemma RenderedParses(f: Filter)
    requires IsParsed(f)
    ensures Parsed(Rendered(f)) == Ok(f)
  {
    SplitOfRendered(f);
    ParsedTokensOfFilter(f);
  }

  lemma ParsedTokensOfFilter(f: Filter)
    requires AllTokens(f.includes) && AllTokens(f.excludes)
    ensures ParsedTokens(f.includes + Exclusions(f.excludes)) == Ok(f)
  {
    SidesOfIncludes(f.includes);
    SidesOfExclusions(f.excludes);
    ExclusionsAreWellFormed(f.excludes);
    SideOfConcat(f.includes, Exclusions(f.excludes), false);
    SideOfConcat(f.includes, Exclusions(f.excludes), true);
    FirstMalformedOfConcat(f.includes, Exclusions(f.excludes));
    assert f.includes + [] == f.includes && [] + f.excludes == f.excludes;
  }

  lemma ParsedIsParsed(raw: string)
    requires Parsed(raw).Ok?
    ensures IsParsed(Parsed(raw).value)
    ensures Parsed(Rendered(Parsed(raw).value)) == Parsed(raw)
  {
    NoneMalformed(Split(raw, ','));
    SidesAreTokens(Split(raw, ','));
    RenderedParses(Parsed(raw).value);
  }

  /** Every include token comes before every exclusion. */
  ghost predicate ExclusionsLast(tokens: seq<string>)
  {
    forall i, j :: 0 <= i < j < |tokens| && IsExclusion(tokens[i]) ==> IsExclusion(tokens[j])
  }

  lemma SortedSidesAreLast(includes: seq<string>, excludes: seq<string>)
    requires AllTokens(includes)
    ensures ExclusionsLast(includes + Exclusions(excludes))
  {
    forall k | 0 <= k < |includes| ensures !IsExclusion(includes[k]) {
      TokenShape(includes[k]);
    }
  }

  lemma ExclusionsExtend(excludes: seq<string>, last: string)
    requires IsExclusion(last)
    ensures Exclusions(excludes + [TokenValue(last)]) == Exclusions(excludes) + [last]
  {
    assert "-" + TokenValue(last) == last;
  }

  lemma ExclusionBefore(includes: seq<string>, excludes: seq<string>, last: string)
    requires excludes != []
    ensures var tokens := includes + Exclusions(excludes) + [last];
      |includes| < |tokens| - 1 && IsExclusion(tokens[|includes|]) && tokens[|tokens| - 1] == last
  {
  }

  lemma NoExclusionBefore(includes: seq<string>, excludes: seq<string>, last: string)
    requires ExclusionsLast(includes + Exclusions(excludes) + [last]) && !IsExclusion(last)
    ensures excludes == [] && includes + Exclusions(excludes) == includes
  {
    if excludes != [] {
      assert false by { ExclusionBefore(includes, excludes, last); }
    }
  }

  lemma RebuildStep(includes: seq<string>, excludes: seq<string>, last: string)
    requires ExclusionsLast(includes + Exclusions(excludes) + [last])
    ensures includes + Exclusions(excludes) + [last]
         == if IsExclusion(last) then includes + Exclusions(excludes + [TokenValue(last)])
            else includes + [TokenValue(last)] + Exclusions(excludes)
  {
    if IsExclusion(last) {
      ExclusionsExtend(excludes, last);
    } else {
      NoExclusionBefore(includes, excludes, last);
    }
  }

  /** The two sides put one after the other are the tokens again. */
  lemma {:induction false} SidesRebuild(tokens: seq<string>)
    requires ExclusionsLast(tokens)
    ensures Side(tokens, false) + Exclusions(Side(tokens, true)) == tokens
  {
    if tokens != [] {
      var n := |tokens| - 1;
      assert tokens == tokens[..n] + [tokens[n]] && tokens[..n + 1] == tokens;
      SidesRebuild(tokens[..n]);
      RebuildStep(Side(tokens[..n], false), Side(tokens[..n], true), tokens[n]);
      SideOfNext(tokens, n, false);
      SideOfNext(tokens, n, true);
    }
  }

  /** An accepted text is written back unchanged exactly when its exclusions come last. */
  lemma RenderedIsRaw(raw: string)
    requires Parsed(raw).Ok?
    ensures Rendered(Parsed(raw).value) == raw <==> ExclusionsLast(Split(raw, ','))
  {
    var tokens, f := Split(raw, ','), Parsed(raw).value;
    JoinOfSplit(raw, ',');
    assert [','] == ",";
    ParsedIsParsed(raw);
    if ExclusionsLast(tokens) {
      SidesRebuild(tokens);
    }
    if Rendered(f) == raw {
      SplitOfRendered(f);
      SortedSidesAreLast(f.includes, f.excludes);
    }
  }

  // Display

  function StripPrefix(s: string, prefix: string): string
  {
    if prefix <= s then s[|prefix|..] else s
  }

  /** The text of the display in its three cases, with the values joined by bars. */
  lemma DisplayIs(includes: seq<string>, excludes: seq<string>)
    requires includes != [] && excludes != []
    ensures Filter(includes, []).Display() == "include: " + Join(includes, "|")
    ensures Filter([], excludes).Display() == "exclude: " + Join(excludes, "|")
    ensures Filter(includes, excludes).Display()
         == Filter(includes, []).Display() + ", " + Filter([], excludes).Display()
  {
    var inc, exc := "include: " + Join(includes, "|"), "exclude: " + Join(excludes, "|");
    assert inc + "" == inc && "" + exc == exc;
    assert Filter(includes, []).Display() == inc && Filter([], excludes).Display() == exc;
    assert inc + ", " + exc == "include: " + Join(includes, "|") + ", " + exc;
  }

  /** Reads a displayed filter back. */
  function Undisplay(s: string): Filter
  {
    var halves := Split(s, ',');
    if |halves| == 2 then
      Filter(Split(StripPrefix(halves[0], "include: "), '|'), Split(StripPrefix(halves[1], " exclude: "), '|'))
    else if "include: " <= s then
      Filter(Split(StripPrefix(s, "include: "), '|'), [])
    else
      Filter([], Split(StripPrefix(s, "exclude: "), '|'))
  }

  lemma BarsSplit(values: seq<string>)
    requires values != [] && AllTokens(values)
    ensures Split(Join(values, "|"), '|') == values
    ensures ',' !in Join(values, "|")
  {
    forall k | 0 <= k < |values| ensures '|' !in values[k] && ',' !in values[k] {
      TokenShape(values[k]);
    }
    SplitInvertsJoin(values, '|');
    assert ['|'] == "|";
    CommaFree(values);
  }

  lemma {:induction false} CommaFree(values: seq<string>)
    requires forall k :: 0 <= k < |values| ==> ',' !in values[k]
    ensures ',' !in Join(values, "|")
  {
    if |values| > 1 {
      CommaFree(values[1..]);
    }
  }

  lemma StripPrefixOf(prefix: string, s: string)
    ensures StripPrefix(prefix + s, prefix) == s
  {
  }

  lemma SplitHalves(left: string, right: string)
    requires ',' !in left && ',' !in right
    ensures Split(left + "," + right, ',') == [left, right]
  {
    SplitOfGlued(left, ',', right);
    SplitOfUnseparated(left, ',');
    SplitOfUnseparated(right, ',');
  }

  lemma UndisplayBoth(inc: string, exc: string)
    requires ',' !in inc && ',' !in exc
    ensures Undisplay("include: " + inc + ", " + "exclude: " + exc) == Filter(Split(inc, '|'), Split(exc, '|'))
  {
    var left, right := "include: " + inc, " exclude: " + exc;
    assert left + ", " + "exclude: " + exc == left + "," + right;
    SplitHalves(left, right);
    StripPrefixOf("include: ", inc);
    StripPrefixOf(" exclude: ", exc);
  }

  lemma UndisplayOne(inc: string)
    requires ',' !in inc
    ensures Undisplay("include: " + inc) == Filter(Split(inc, '|'), [])
    ensures Undisplay("exclude: " + inc) == Filter([], Split(inc, '|'))
  {
    SplitOfUnseparated("include: " + inc, ',');
    SplitOfUnseparated("exclude: " + inc, ',');
    StripPrefixOf("include: ", inc);
    StripPrefixOf("exclude: ", inc);
    assert ("exclude: " + inc)[0] == 'e';
  }

  lemma UndisplayOfDisplay(f: Filter)
    requires IsParsed(f)
    ensures Undisplay(f.Display()) == f
  {
    var inc, exc := Join(f.includes, "|"), Join(f.excludes, "|");
    if f.excludes == [] {
      BarsSplit(f.includes);
      UndisplayOne(inc);
      assert f.Display() == "include: " + inc;
    } else if f.includes == [] {
      BarsSplit(f.excludes);
      UndisplayOne(exc);
      assert f.Display() == "exclude: " + exc;
    } else {
      BarsSplit(f.includes);
      BarsSplit(f.excludes);
      UndisplayBoth(inc, exc);
      assert f.Display() == "include: " + inc + ", " + "exclude: " + exc;
    }
  }

  /** Two different parsed filters never display alike. */
  lemma DisplayIsInjective(f: Filter, g: Filter)
    requires IsParsed(f) && IsParsed(g)
    ensures f.Display() == g.Display() <==> f == g
  {
    UndisplayOfDisplay(f);
    UndisplayOfDisplay(g);
  }
}
