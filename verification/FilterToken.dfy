/** The token grammar of `TEST_FILTER`, as a regular expression and as a scanning automaton. */
module FilterToken {
  import opened Regex
  import opened Text

  const LOWER_ALNUM: set<char> := set c: char | 'a' <= c <= 'z' || '0' <= c <= '9'

  predicate IsLowerAlnum(c: char)
    ensures IsLowerAlnum(c) <==> c in LOWER_ALNUM
  {
    'a' <= c <= 'z' || '0' <= c <= '9'
  }

  // ^[a-z0-9]+(_[a-z0-9]+)*(=[a-z0-9]+(_[a-z0-9]+)*)?$

  const RUN: Re := Plus(OneOf(LOWER_ALNUM))
  const MORE_RUNS: Re := Star(Seq(OneOf({'_'}), RUN))
  const WORD: Re := Seq(RUN, MORE_RUNS)
  const OPTIONAL_VALUE: Re := Optional(Seq(OneOf({'='}), WORD))
  const TOKEN: Re := Seq(WORD, OPTIONAL_VALUE)

  /** `Key*` scans the part before '=', `Value*` the part after it; `*Start` needs a letter or digit next. */
  datatype State = KeyStart | InKey | ValueStart | InValue | Reject

  function Next(q: State, c: char): State
  {
    if IsLowerAlnum(c) then
      match q
      case KeyStart => InKey
      case InKey => InKey
      case ValueStart => InValue
      case InValue => InValue
      case Reject => Reject
    else if c == '_' then
      if q == InKey then KeyStart else if q == InValue then ValueStart else Reject
    else if c == '=' && q == InKey then ValueStart
    else Reject
  }

  function Scan(q: State, s: string): State
    decreases |s|
  {
    if s == "" then q else Scan(Next(q, s[0]), s[1..])
  }

  predicate IsToken(s: string)
  {
    Scan(KeyStart, s) in {InKey, InValue}
  }

  /** What the automaton still expects in each state. */
  function Expected(q: State): Re
  {
    match q
    case KeyStart => TOKEN
    case InKey => Seq(Seq(Star(OneOf(LOWER_ALNUM)), MORE_RUNS), OPTIONAL_VALUE)
    case ValueStart => WORD
    case InValue => Seq(Star(OneOf(LOWER_ALNUM)), MORE_RUNS)
    case Reject => Nothing
  }

  lemma NextIsDerivative(q: State, c: char)
    ensures Derivative(Expected(q), c) == Expected(Next(q, c))
  {
    var cls := OneOf(LOWER_ALNUM);
    assert Derivative(cls, c) == if IsLowerAlnum(c) then Empty else Nothing;
    assert Derivative(Star(cls), c) == if IsLowerAlnum(c) then Star(cls) else Nothing;
    assert Derivative(RUN, c) == if IsLowerAlnum(c) then Star(cls) else Nothing;
    assert Derivative(OneOf({'_'}), c) == if c == '_' then Empty else Nothing;
    assert Derivative(OneOf({'='}), c) == if c == '=' then Empty else Nothing;
    assert Derivative(Seq(OneOf({'_'}), RUN), c) == if c == '_' then RUN else Nothing;
    assert Derivative(MORE_RUNS, c) == if c == '_' then WORD else Nothing;
    assert Derivative(WORD, c) == if IsLowerAlnum(c) then Seq(Star(cls), MORE_RUNS) else Nothing;
    assert Derivative(Seq(OneOf({'='}), WORD), c) == if c == '=' then WORD else Nothing;
    assert Derivative(OPTIONAL_VALUE, c) == if c == '=' then WORD else Nothing;
  }

  lemma {:induction false} ScanDenotes(q: State, s: string)
    ensures Scan(q, s) in {InKey, InValue} <==> Denotes(Expected(q), s)
    decreases |s|
  {
    if s == "" {
      assert !Nullable(RUN) && !Nullable(WORD) && Nullable(OPTIONAL_VALUE);
      assert Nullable(Expected(q)) <==> q in {InKey, InValue};
    } else {
      NextIsDerivative(q, s[0]);
      ScanDenotes(Next(q, s[0]), s[1..]);
      DerivativeDenotes(Expected(q), s[0], s[1..]);
      assert [s[0]] + s[1..] == s;
    }
  }

  /** The scan accepts exactly the language of the documented pattern, for every string. */
  lemma IsTokenDenotesPattern(s: string)
    ensures IsToken(s) <==> Denotes(TOKEN, s)
  {
    ScanDenotes(KeyStart, s);
  }

  predicate IsTokenChar(c: char) { IsLowerAlnum(c) || c == '_' || c == '=' }

  lemma {:induction false} ScanRejects(s: string)
    ensures Scan(Reject, s) == Reject
  {
    if s != "" {
      ScanRejects(s[1..]);
    }
  }

  lemma {:induction false} AcceptedCharacters(q: State, s: string)
    requires Scan(q, s) != Reject
    ensures forall k :: 0 <= k < |s| ==> IsTokenChar(s[k])
    decreases |s|
  {
    if s != "" {
      ScanRejects(s[1..]);
      AcceptedCharacters(Next(q, s[0]), s[1..]);
      assert s == [s[0]] + s[1..];
    }
  }

  /** A token is non-empty, and holds none of the characters that the filter syntax or its display reserve. */
  lemma TokenShape(s: string)
    requires IsToken(s)
    ensures s != "" && IsLowerAlnum(s[0])
    ensures ',' !in s && '|' !in s && '-' !in s && ' ' !in s && ':' !in s
  {
    AcceptedCharacters(KeyStart, s);
    ScanRejects(s[1..]);
  }

  // Tokens as words of runs

  predicate IsRun(s: string) { s != "" && forall k :: 0 <= k < |s| ==> IsLowerAlnum(s[k]) }

  /** Runs of letters and digits, separated by underscores. */
  ghost predicate IsWord(s: string)
  {
    forall k :: 0 <= k < |Split(s, '_')| ==> IsRun(Split(s, '_')[k])
  }

  /** What may follow the characters of a word already read; `started` says that its last run is not empty. */
  ghost predicate EndsWord(started: bool, s: string)
  {
    var runs := Split(s, '_');
    && (forall k :: 0 <= k < |runs[0]| ==> IsLowerAlnum(runs[0][k]))
    && (started || runs[0] != "")
    && forall k :: 1 <= k < |runs| ==> IsRun(runs[k])
  }

  ghost predicate EndsToken(started: bool, s: string)
  {
    var halves := Split(s, '=');
    |halves| <= 2 && EndsWord(started, halves[0]) && (|halves| == 2 ==> EndsWord(false, halves[1]))
  }

  lemma EndsWordStep(started: bool, s: string)
    requires s != ""
    ensures EndsWord(started, s)
       <==> if s[0] == '_' then started && EndsWord(false, s[1..]) else IsLowerAlnum(s[0]) && EndsWord(true, s[1..])
  {
    var runs, rest := Split(s, '_'), Split(s[1..], '_');
    if s[0] == '_' {
      assert runs[0] == "" && runs[1] == rest[0];
      assert forall k :: 1 <= k < |runs| ==> runs[k] == rest[k - 1];
      assert forall k :: 0 <= k < |rest| ==> rest[k] == runs[k + 1];
    } else {
      assert runs[0] == [s[0]] + rest[0] && forall k :: 0 <= k < |runs[0]| - 1 ==> rest[0][k] == runs[0][k + 1];
      assert forall k :: 1 <= k < |runs[0]| ==> runs[0][k] == rest[0][k - 1];
      assert runs[0][0] == s[0] && forall k :: 1 <= k < |runs| ==> runs[k] == rest[k];
    }
  }

  lemma {:induction false} WordsHoldNoEquals(started: bool, s: string)
    requires EndsWord(started, s)
    ensures '=' !in s
    decreases |s|
  {
    if s != "" {
      EndsWordStep(started, s);
      WordsHoldNoEquals(s[0] != '_', s[1..]);
    }
  }

  /** After the equals sign the rest is one word. */
  lemma OneHalfLeft(s: string)
    ensures |Split(s, '=')| == 1 && EndsWord(false, Split(s, '=')[0]) <==> EndsWord(false, s)
  {
    if EndsWord(false, s) {
      WordsHoldNoEquals(false, s);
      SplitOfUnseparated(s, '=');
    }
    JoinOfSplit(s, '=');
  }

  lemma EndsTokenStep(started: bool, s: string)
    requires s != ""
    ensures EndsToken(started, s)
       <==> if s[0] == '=' then started && EndsWord(false, s[1..])
            else if s[0] == '_' then started && EndsToken(false, s[1..])
            else IsLowerAlnum(s[0]) && EndsToken(true, s[1..])
  {
    var halves, rest := Split(s, '='), Split(s[1..], '=');
    if s[0] == '=' {
      OneHalfLeft(s[1..]);
      SplitOfUnseparated("", '_');
      assert halves == [""] + rest;
    } else {
      assert halves[0][1..] == rest[0];
      EndsWordStep(started, halves[0]);
    }
  }

  lemma {:induction false} ScanEnds(q: State, s: string)
    requires q != Reject
    ensures Scan(q, s) in {InKey, InValue}
       <==> if q in {KeyStart, InKey} then EndsToken(q == InKey, s) else EndsWord(q == InValue, s)
    decreases |s|
  {
    if s == "" {
      SplitOfUnseparated(s, '=');
      SplitOfUnseparated(s, '_');
    } else {
      EndsTokenStep(q == InKey, s);
      EndsWordStep(q == InValue, s);
      if Next(q, s[0]) == Reject {
        ScanRejects(s[1..]);
      } else {
        ScanEnds(Next(q, s[0]), s[1..]);
      }
    }
  }

  /** A token is a word, or two words around one equals sign. */
  lemma TokenIsWords(s: string)
    ensures IsToken(s) <==> |Split(s, '=')| <= 2 && forall k :: 0 <= k < |Split(s, '=')| ==> IsWord(Split(s, '=')[k])
  {
    ScanEnds(KeyStart, s);
    forall part: string ensures IsWord(part) <==> EndsWord(false, part) {
      var runs := Split(part, '_');
      assert EndsWord(false, part) ==> IsRun(runs[0]);
    }
  }
}
