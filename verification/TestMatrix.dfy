/** `#[test_fn(...)]`: how annotations expand into test combinations. */
module TestMatrix {
  import opened Wrappers
  import opened Decimal

  /** An attribute value: a string literal or any other Rust expression. */
  datatype Expr = StringLiteral(text: string) | OtherExpr(tokens: string)

  datatype ParamSpec = ParamSpec(name: string, values: seq<Expr>, optional: bool)

  /** One parameter of a combination; no value only for an optional parameter. */
  datatype Choice = Choice(name: string, value: Option<Expr>, optional: bool)

  // Numbers with one digit per parameter, the first parameter most significant

  function Radix(spec: ParamSpec): nat
  {
    |spec.values| + if spec.optional then 1 else 0
  }

  function Size(specs: seq<ParamSpec>): nat
  {
    if specs == [] then 1 else Size(specs[..|specs| - 1]) * Radix(specs[|specs| - 1])
  }

  ghost predicate AreDigits(specs: seq<ParamSpec>, digits: seq<nat>)
  {
    |digits| == |specs| && forall k :: 0 <= k < |specs| ==> digits[k] < Radix(specs[k])
  }

  lemma ProductGrows(a: nat, b: nat, r: nat)
    requires a <= b
    ensures a * r <= b * r
  {
  }

  lemma DivisionIsUnique(q: nat, d: nat, q': nat, d': nat, r: nat)
    requires d < r && d' < r && q * r + d == q' * r + d'
    ensures q == q' && d == d'
  {
    if q < q' {
      ProductGrows(q + 1, q', r);
    } else if q' < q {
      ProductGrows(q' + 1, q, r);
    }
  }

  lemma DivMod(q: nat, d: nat, r: nat)
    requires d < r
    ensures (q * r + d) / r == q && (q * r + d) % r == d
  {
    var x: nat := q * r + d;
    assert x == (x / r) * r + x % r;
    DivisionIsUnique(q, d, x / r, x % r, r);
  }

  lemma QuotientFits(i: nat, q: nat, r: nat)
    requires i < q * r
    ensures r > 0 && i / r < q && i == (i / r) * r + i % r
  {
    assert r > 0;
    if q <= i / r {
      ProductGrows(q, i / r, r);
    }
  }

  lemma SumFits(i: nat, d: nat, q: nat, r: nat)
    requires i < q && d < r
    ensures i * r + d < q * r
  {
    ProductGrows(i + 1, q, r);
  }

  function DigitsAt(specs: seq<ParamSpec>, i: nat): (digits: seq<nat>)
    requires i < Size(specs)
    ensures AreDigits(specs, digits)
  {
    if specs == [] then []
    else
      var n, r := |specs| - 1, Radix(specs[|specs| - 1]);
      QuotientFits(i, Size(specs[..n]), r);
      DigitsAt(specs[..n], i / r) + [i % r]
  }

  function IndexOf(specs: seq<ParamSpec>, digits: seq<nat>): (i: nat)
    requires AreDigits(specs, digits)
    ensures i < Size(specs)
  {
    if specs == [] then 0
    else
      var n, r := |specs| - 1, Radix(specs[|specs| - 1]);
      SumFits(IndexOf(specs[..n], digits[..n]), digits[n], Size(specs[..n]), r);
      IndexOf(specs[..n], digits[..n]) * r + digits[n]
  }

  lemma {:induction false} IndexOfDigits(specs: seq<ParamSpec>, i: nat)
    requires i < Size(specs)
    ensures IndexOf(specs, DigitsAt(specs, i)) == i
  {
    if specs != [] {
      var n, r := |specs| - 1, Radix(specs[|specs| - 1]);
      QuotientFits(i, Size(specs[..n]), r);
      IndexOfDigits(specs[..n], i / r);
      assert DigitsAt(specs, i)[..n] == DigitsAt(specs[..n], i / r);
    }
  }

  /** Appending one digit. */
  lemma DigitsExtend(specs: seq<ParamSpec>, q: nat, d: nat)
    requires specs != [] && q < Size(specs[..|specs| - 1]) && d < Radix(specs[|specs| - 1])
    ensures q * Radix(specs[|specs| - 1]) + d < Size(specs)
    ensures DigitsAt(specs, q * Radix(specs[|specs| - 1]) + d) == DigitsAt(specs[..|specs| - 1], q) + [d]
  {
    SumFits(q, d, Size(specs[..|specs| - 1]), Radix(specs[|specs| - 1]));
    DivMod(q, d, Radix(specs[|specs| - 1]));
  }

  lemma {:induction false} DigitsOfIndex(specs: seq<ParamSpec>, digits: seq<nat>)
    requires AreDigits(specs, digits)
    ensures DigitsAt(specs, IndexOf(specs, digits)) == digits
  {
    if specs != [] {
      var n := |specs| - 1;
      DigitsExtend(specs, IndexOf(specs[..n], digits[..n]), digits[n]);
      DigitsOfIndex(specs[..n], digits[..n]);
      assert digits == digits[..n] + [digits[n]];
    }
  }

  ghost predicate DifferFirstAt(a: seq<nat>, b: seq<nat>, k: nat)
  {
    k < |a| == |b| && a[..k] == b[..k] && a[k] < b[k]
  }

  ghost predicate LexicographicallyLess(a: seq<nat>, b: seq<nat>)
  {
    exists k :: DifferFirstAt(a, b, k)
  }

  /** Combinations are numbered in lexicographic order of their digits. */
  lemma {:induction false} NumberingIsLexicographic(specs: seq<ParamSpec>, i: nat, j: nat)
    requires i < Size(specs) && j < Size(specs)
    ensures i < j <==> LexicographicallyLess(DigitsAt(specs, i), DigitsAt(specs, j))
  {
    if i < j {
      var k := LaterIsGreater(specs, i, j);
    } else if j < i {
      var k := LaterIsGreater(specs, j, i);
      forall m ensures !DifferFirstAt(DigitsAt(specs, i), DigitsAt(specs, j), m) {
        OrderIsStrict(DigitsAt(specs, j), DigitsAt(specs, i), k, m);
      }
    }
  }

  lemma OrderIsStrict(a: seq<nat>, b: seq<nat>, k: nat, m: nat)
    requires DifferFirstAt(a, b, k)
    ensures !DifferFirstAt(b, a, m)
  {
    if k < m < |a| {
      assert a[..m][k] == a[k] && b[..m][k] == b[k];
    } else if m < k {
      assert a[..k][m] == a[m] && b[..k][m] == b[m];
    }
  }

  /** Peeling off the last digit. */
  lemma LastDigit(specs: seq<ParamSpec>, i: nat) returns (q: nat, d: nat)
    requires specs != [] && i < Size(specs)
    ensures q < Size(specs[..|specs| - 1]) && d < Radix(specs[|specs| - 1])
    ensures i == q * Radix(specs[|specs| - 1]) + d
    ensures DigitsAt(specs, i) == DigitsAt(specs[..|specs| - 1], q) + [d]
  {
    var r := Radix(specs[|specs| - 1]);
    QuotientFits(i, Size(specs[..|specs| - 1]), r);
    q, d := i / r, i % r;
  }

  lemma {:induction false} LaterIsGreater(specs: seq<ParamSpec>, i: nat, j: nat) returns (k: nat)
    requires i < j < Size(specs)
    ensures DifferFirstAt(DigitsAt(specs, i), DigitsAt(specs, j), k)
  {
    var init, r := specs[..|specs| - 1], Radix(specs[|specs| - 1]);
    var q, d := LastDigit(specs, i);
    var q', d' := LastDigit(specs, j);
    QuotientsOrdered(q, d, q', d', r);
    if q < q' {
      k := LaterIsGreater(init, q, q');
      DifferenceExtends(DigitsAt(init, q), DigitsAt(init, q'), k, d, d');
    } else {
      k := |specs| - 1;
    }
  }

  lemma DifferenceExtends(a: seq<nat>, b: seq<nat>, k: nat, x: nat, y: nat)
    requires DifferFirstAt(a, b, k)
    ensures DifferFirstAt(a + [x], b + [y], k)
  {
    assert (a + [x])[..k] == a[..k] && (b + [y])[..k] == b[..k];
  }

  lemma QuotientsOrdered(q: nat, d: nat, q': nat, d': nat, r: nat)
    requires d < r && d' < r && q * r + d < q' * r + d'
    ensures q < q' || (q == q' && d < d')
  {
    if q' < q {
      ProductGrows(q' + 1, q, r);
    }
  }

  // Combinations

  function ChoiceAt(spec: ParamSpec, digit: nat): Choice
    requires digit < Radix(spec)
  {
    if !spec.optional then Choice(spec.name, Some(spec.values[digit]), false)
    else if digit == 0 then Choice(spec.name, None, true)
    else Choice(spec.name, Some(spec.values[digit - 1]), true)
  }

  /** The choices of one parameter in order: None first if it is optional, then the values. */
  ghost function Choices(spec: ParamSpec): seq<Choice>
  {
    (if spec.optional then [Choice(spec.name, None, true)] else [])
    + seq(|spec.values|, m requires 0 <= m < |spec.values| => Choice(spec.name, Some(spec.values[m]), spec.optional))
  }

  lemma DigitsNumberChoices(spec: ParamSpec)
    ensures |Choices(spec)| == Radix(spec)
    ensures forall d :: 0 <= d < Radix(spec) ==> ChoiceAt(spec, d) == Choices(spec)[d]
  {
  }

  /** The combination with the given digits: parameter by parameter, in the order of the specs. */
  function ComboOf(specs: seq<ParamSpec>, digits: seq<nat>): (combo: seq<Choice>)
    requires AreDigits(specs, digits)
  {
    seq(|specs|, k requires 0 <= k < |specs| => ChoiceAt(specs[k], digits[k]))
  }

  function ComboAt(specs: seq<ParamSpec>, i: nat): seq<Choice>
    requires i < Size(specs)
  {
    ComboOf(specs, DigitsAt(specs, i))
  }

  lemma ComboExtends(specs: seq<ParamSpec>, k: nat, j: nat, d: nat)
    requires k < |specs| && j < Size(specs[..k]) && d < Radix(specs[k])
    ensures j * Radix(specs[k]) + d < Size(specs[..k + 1])
    ensures ComboAt(specs[..k + 1], j * Radix(specs[k]) + d) == ComboAt(specs[..k], j) + [ChoiceAt(specs[k], d)]
  {
    assert specs[..k + 1][..k] == specs[..k];
    DigitsExtend(specs[..k + 1], j, d);
  }

  ghost predicate IsProduct(specs: seq<ParamSpec>, combos: seq<seq<Choice>>)
  {
    |combos| == Size(specs) && forall i :: 0 <= i < |combos| ==> combos[i] == ComboAt(specs, i)
  }

  /** All extensions of one combination by one more parameter. */
  ghost function Row(combo: seq<Choice>, spec: ParamSpec): seq<seq<Choice>>
  {
    seq(Radix(spec), d requires 0 <= d < Radix(spec) => combo + [ChoiceAt(spec, d)])
  }

  /** The body of the middle loop: extensions are pushed onto the new result. */
  method ExtendCombo(newResult: seq<seq<Choice>>, combo: seq<Choice>, spec: ParamSpec)
    returns (extended: seq<seq<Choice>>)
    ensures extended == newResult + Row(combo, spec)
  {
    extended := newResult;
    if spec.optional {
      extended := extended + [combo + [Choice(spec.name, None, true)]];
    }
    ghost var o := Radix(spec) - |spec.values|;
    for m := 0 to |spec.values|
      invariant extended == newResult + Row(combo, spec)[..o + m]
    {
      extended := extended + [combo + [Choice(spec.name, Some(spec.values[m]), spec.optional)]];
    }
  }

  ghost predicate IsPartialProduct(specs: seq<ParamSpec>, k: nat, combos: seq<seq<Choice>>, j: nat)
    requires k < |specs| && j <= Size(specs[..k])
  {
    |combos| == j * Radix(specs[k]) <= Size(specs[..k + 1])
    && forall i :: 0 <= i < |combos| ==> combos[i] == ComboAt(specs[..k + 1], i)
  }

  method CartesianProduct(specs: seq<ParamSpec>) returns (result: seq<seq<Choice>>)
    ensures IsProduct(specs, result)
  {
    result := [[]];
    for k := 0 to |specs|
      invariant IsProduct(specs[..k], result)
    {
      SizeExtends(specs, k);
      var newResult: seq<seq<Choice>> := [];
      for j := 0 to |result|
        invariant IsPartialProduct(specs, k, newResult, j)
      {
        PartialProductExtends(specs, k, newResult, j);
        newResult := ExtendCombo(newResult, result[j], specs[k]);
      }
      result := newResult;
    }
    assert specs[..|specs|] == specs;
  }

  lemma SizeExtends(specs: seq<ParamSpec>, k: nat)
    requires k < |specs|
    ensures Size(specs[..k + 1]) == Size(specs[..k]) * Radix(specs[k])
  {
    assert specs[..k + 1][..k] == specs[..k];
  }

  lemma PartialProductExtends(specs: seq<ParamSpec>, k: nat, combos: seq<seq<Choice>>, j: nat)
    requires k < |specs| && j < Size(specs[..k]) && IsPartialProduct(specs, k, combos, j)
    ensures IsPartialProduct(specs, k, combos + Row(ComboAt(specs[..k], j), specs[k]), j + 1)
  {
    var r := Radix(specs[k]);
    var longer := combos + Row(ComboAt(specs[..k], j), specs[k]);
    SizeExtends(specs, k);
    ProductGrows(j + 1, Size(specs[..k]), r);
    forall i | |combos| <= i < |longer| ensures longer[i] == ComboAt(specs[..k + 1], i) {
      ComboExtends(specs, k, j, i - |combos|);
    }
  }

  // Stacked annotations

  /** Combinations of all annotations before number `a`. */
  function Offset(sets: seq<seq<ParamSpec>>, a: nat): nat
    requires a <= |sets|
  {
    if a == 0 then 0 else Offset(sets, a - 1) + Size(sets[a - 1])
  }

  /** The combinations of the first `n` annotations, annotation by annotation. */
  ghost predicate IsExpansion(sets: seq<seq<ParamSpec>>, n: nat, all: seq<seq<Choice>>)
    requires n <= |sets|
  {
    |all| == Offset(sets, n)
    && forall a, i :: 0 <= a < n && 0 <= i < Size(sets[a]) ==> IsNumbered(sets, all, a, i)
  }

  ghost predicate IsNumbered(sets: seq<seq<ParamSpec>>, all: seq<seq<Choice>>, a: nat, i: nat)
    requires a < |sets| && i < Size(sets[a])
  {
    Offset(sets, a) + i < |all| && all[Offset(sets, a) + i] == ComboAt(sets[a], i)
  }

  lemma ExpansionExtends(sets: seq<seq<ParamSpec>>, n: nat, all: seq<seq<Choice>>, combos: seq<seq<Choice>>)
    requires n < |sets| && IsExpansion(sets, n, all) && IsProduct(sets[n], combos)
    ensures IsExpansion(sets, n + 1, all + combos)
  {
    forall a, i | 0 <= a < n + 1 && 0 <= i < Size(sets[a]) ensures IsNumbered(sets, all + combos, a, i) {
      if a < n {
        assert IsNumbered(sets, all, a, i);
      } else {
        assert (all + combos)[Offset(sets, n) + i] == combos[i];
      }
    }
  }

  method ExpandAll(sets: seq<seq<ParamSpec>>) returns (all: seq<seq<Choice>>)
    ensures IsExpansion(sets, |sets|, all)
  {
    all := [];
    for n := 0 to |sets|
      invariant IsExpansion(sets, n, all)
    {
      var combos: seq<seq<Choice>> := [[]];
      if sets[n] != [] {
        combos := CartesianProduct(sets[n]);
      }
      ExpansionExtends(sets, n, all, combos);
      all := all + combos;
    }
  }

  lemma {:induction false} OffsetOfTail(sets: seq<seq<ParamSpec>>, a: nat)
    requires a < |sets|
    ensures Offset(sets, a + 1) == Size(sets[0]) + Offset(sets[1..], a)
  {
    if a > 0 {
      OffsetOfTail(sets, a - 1);
    }
  }

  /** The product of the first annotation comes first, and then the expansion of the others. */
  lemma ExpansionOfFirst(sets: seq<seq<ParamSpec>>, all: seq<seq<Choice>>)
    requires sets != [] && IsExpansion(sets, |sets|, all)
    ensures |all| >= Size(sets[0]) && IsProduct(sets[0], all[..Size(sets[0])])
    ensures IsExpansion(sets[1..], |sets| - 1, all[Size(sets[0])..])
  {
    var first, rest := sets[0], sets[1..];
    OffsetOfTail(sets, |sets| - 1);
    forall i | 0 <= i < Size(first) ensures all[i] == ComboAt(first, i) {
      assert IsNumbered(sets, all, 0, i);
    }
    forall a, i | 0 <= a < |rest| && 0 <= i < Size(rest[a]) ensures IsNumbered(rest, all[Size(first)..], a, i) {
      assert IsNumbered(sets, all, a + 1, i);
      OffsetOfTail(sets, a);
    }
  }

  ghost predicate IsAt(sets: seq<seq<ParamSpec>>, n: nat, a: nat, digits: seq<nat>)
  {
    a < |sets| && AreDigits(sets[a], digits) && n == Offset(sets, a) + IndexOf(sets[a], digits)
  }

  lemma {:induction false} OffsetGrows(sets: seq<seq<ParamSpec>>, a: nat, b: nat)
    requires a < b <= |sets|
    ensures Offset(sets, a) + Size(sets[a]) <= Offset(sets, b)
  {
    if a + 1 < b {
      OffsetGrows(sets, a, b - 1);
    }
  }

  lemma {:induction false} Locate(sets: seq<seq<ParamSpec>>, n: nat, m: nat) returns (a: nat, digits: seq<nat>)
    requires m <= |sets| && n < Offset(sets, m)
    ensures IsAt(sets, n, a, digits)
  {
    if n < Offset(sets, m - 1) {
      a, digits := Locate(sets, n, m - 1);
    } else {
      a, digits := m - 1, DigitsAt(sets[m - 1], n - Offset(sets, m - 1));
      IndexOfDigits(sets[a], n - Offset(sets, a));
    }
  }

  lemma LocationIsUnique(sets: seq<seq<ParamSpec>>, n: nat, a: nat, digits: seq<nat>, b: nat, others: seq<nat>)
    requires IsAt(sets, n, a, digits) && IsAt(sets, n, b, others)
    ensures a == b && digits == others
  {
    if a < b {
      OffsetGrows(sets, a, b);
    } else if b < a {
      OffsetGrows(sets, b, a);
    } else {
      DigitsOfIndex(sets[a], digits);
      DigitsOfIndex(sets[a], others);
    }
  }

  /** Every generated number stands for exactly one annotation and one choice of value positions in it. */
  lemma NumberDecodesUniquely(sets: seq<seq<ParamSpec>>, n: nat) returns (a: nat, digits: seq<nat>)
    requires n < Offset(sets, |sets|)
    ensures IsAt(sets, n, a, digits)
    ensures forall b: nat, others :: IsAt(sets, n, b, others) ==> b == a && others == digits
  {
    a, digits := Locate(sets, n, |sets|);
    forall b: nat, others | IsAt(sets, n, b, others) ensures b == a && others == digits {
      LocationIsUnique(sets, n, a, digits, b, others);
    }
  }

  // The skip annotation

  predicate IsSkipLiteral(spec: ParamSpec) { spec.values != [] && spec.values[0].StringLiteral? }

  ghost predicate HasLegalSkips(specs: seq<ParamSpec>)
  {
    forall k :: 0 <= k < |specs| && specs[k].name == "skip" ==> IsSkipLiteral(specs[k])
  }

  function Parameters(specs: seq<ParamSpec>): seq<ParamSpec>
  {
    if specs == [] then []
    else Parameters(specs[..|specs| - 1]) + if specs[|specs| - 1].name == "skip" then [] else [specs[|specs| - 1]]
  }

  /** The last skip reason in the list. */
  function SkipReason(specs: seq<ParamSpec>): Option<string>
  {
    if specs == [] then None
    else
      var last := specs[|specs| - 1];
      if last.name == "skip" && IsSkipLiteral(last) then Some(last.values[0].text) else SkipReason(specs[..|specs| - 1])
  }

  /** The last spec named "skip" gives the reason `t`. */
  ghost predicate IsLastSkip(specs: seq<ParamSpec>, k: nat, t: string)
  {
    && k < |specs| && specs[k].name == "skip" && IsSkipLiteral(specs[k]) && specs[k].values[0].text == t
    && forall j :: k < j < |specs| ==> specs[j].name != "skip"
  }

  /** The reason is that of the last spec named "skip", and there is none only without such a spec. */
  ghost predicate IsReason(specs: seq<ParamSpec>, reason: Option<string>)
  {
    match reason
    case None => forall k :: 0 <= k < |specs| ==> specs[k].name != "skip"
    case Some(t) => exists k: nat :: IsLastSkip(specs, k, t)
  }

  lemma {:induction false} SkipReasonIs(specs: seq<ParamSpec>)
    requires HasLegalSkips(specs)
    ensures IsReason(specs, SkipReason(specs))
  {
    if specs != [] {
      var init, last := specs[..|specs| - 1], specs[|specs| - 1];
      SkipReasonIs(init);
      if last.name == "skip" {
        assert IsLastSkip(specs, |specs| - 1, last.values[0].text);
      } else if SkipReason(init).Some? {
        var k: nat :| IsLastSkip(init, k, SkipReason(init).value);
        assert IsLastSkip(specs, k, SkipReason(init).value);
      }
    }
  }

  /** Increasing positions of exactly the specs that are not named "skip". */
  ghost predicate ArePositions(specs: seq<ParamSpec>, at: seq<nat>)
  {
    && (forall j, k :: 0 <= j < k < |at| ==> at[j] < at[k])
    && (forall k :: 0 <= k < |at| ==> at[k] < |specs| && specs[at[k]].name != "skip")
    && forall i: nat :: i < |specs| && specs[i].name != "skip" ==> i in at
  }

  lemma PositionsExtend(specs: seq<ParamSpec>, last: ParamSpec, at: seq<nat>)
    requires ArePositions(specs, at)
    ensures ArePositions(specs + [last], at + if last.name == "skip" then [] else [|specs|])
  {
    var longer := at + if last.name == "skip" then [] else [|specs|];
    assert forall k :: 0 <= k < |at| ==> (specs + [last])[at[k]] == specs[at[k]];
    forall i: nat | i < |specs + [last]| && (specs + [last])[i].name != "skip" ensures i in longer {
      if i < |specs| {
        assert i in at;
      } else {
        assert longer[|at|] == i;
      }
    }
  }

  lemma {:induction false} ParametersKeepOrder(specs: seq<ParamSpec>) returns (at: seq<nat>)
    ensures ArePositions(specs, at) && |Parameters(specs)| == |at|
    ensures forall k :: 0 <= k < |at| ==> Parameters(specs)[k] == specs[at[k]]
  {
    at := [];
    if specs != [] {
      var init, last := specs[..|specs| - 1], specs[|specs| - 1];
      at := ParametersKeepOrder(init);
      assert specs == init + [last];
      PositionsExtend(init, last, at);
      at := at + if last.name == "skip" then [] else [|init|];
    }
  }

  /** Separates the skip annotation from the parameters; an Err is the panic of the macro. */
  method ExtractSkip(specs: seq<ParamSpec>) returns (r: Result<(seq<ParamSpec>, Option<string>), string>)
    ensures r.Ok? <==> HasLegalSkips(specs)
    ensures r.Ok? ==> r.value == (Parameters(specs), SkipReason(specs)) && IsReason(specs, r.value.1)
  {
    var remaining: seq<ParamSpec> := [];
    var skipReason: Option<string> := None;
    for i := 0 to |specs|
      invariant forall k :: 0 <= k < i && specs[k].name == "skip" ==> IsSkipLiteral(specs[k])
      invariant remaining == Parameters(specs[..i]) && skipReason == SkipReason(specs[..i])
    {
      var spec := specs[i];
      assert specs[..i + 1][..i] == specs[..i];
      if spec.name == "skip" {
        if spec.values != [] && spec.values[0].StringLiteral? {
          skipReason := Some(spec.values[0].text);
        } else {
          return Err("skip value must be a string literal");
        }
      } else {
        remaining := remaining + [spec];
      }
    }
    assert specs[..|specs|] == specs;
    SkipReasonIs(specs);
    return Ok((remaining, skipReason));
  }

  // The whole expansion

  /** One registered test: the generated function, the name shown, its parameters and its skip reason. */
  datatype Generated = Generated(fnName: string, name: string, combo: seq<Choice>, skip: Option<string>)

  function ParameterSets(annotations: seq<seq<ParamSpec>>): (sets: seq<seq<ParamSpec>>)
    ensures |sets| == |annotations| && forall k :: 0 <= k < |sets| ==> sets[k] == Parameters(annotations[k])
  {
    seq(|annotations|, k requires 0 <= k < |annotations| => Parameters(annotations[k]))
  }

  /** A reason in any annotation skips the tests of all of them; the last annotation with a reason wins. */
  function SharedSkip(annotations: seq<seq<ParamSpec>>): Option<string>
  {
    if annotations == [] then None
    else
      var last := SkipReason(annotations[|annotations| - 1]);
      if last.Some? then last else SharedSkip(annotations[..|annotations| - 1])
  }

  /** The last annotation with a reason gives `t`. */
  ghost predicate IsLastReason(annotations: seq<seq<ParamSpec>>, a: nat, t: string)
  {
    && a < |annotations| && IsReason(annotations[a], Some(t))
    && forall b :: a < b < |annotations| ==> IsReason(annotations[b], None)
  }

  ghost predicate IsSharedReason(annotations: seq<seq<ParamSpec>>, reason: Option<string>)
  {
    match reason
    case None => forall a :: 0 <= a < |annotations| ==> IsReason(annotations[a], None)
    case Some(t) => exists a: nat :: IsLastReason(annotations, a, t)
  }

  lemma {:induction false} SharedSkipIs(annotations: seq<seq<ParamSpec>>)
    requires forall a :: 0 <= a < |annotations| ==> HasLegalSkips(annotations[a])
    ensures IsSharedReason(annotations, SharedSkip(annotations))
  {
    if annotations != [] {
      var n := |annotations| - 1;
      SharedSkipIs(annotations[..n]);
      SkipReasonIs(annotations[n]);
      if SkipReason(annotations[n]).Some? {
        assert IsLastReason(annotations, n, SkipReason(annotations[n]).value);
      } else if SharedSkip(annotations[..n]).Some? {
        var t := SharedSkip(annotations[..n]).value;
        var a: nat :| IsLastReason(annotations[..n], a, t);
        assert annotations[..n][a] == annotations[a];
        assert IsLastReason(annotations, a, t);
      }
    }
  }

  function FunctionName(name: string, all: seq<seq<Choice>>, k: nat): string
  {
    if |all| == 1 && all[0] == [] then name else name + "_" + Show(k)
  }

  lemma OneMoreAnnotation(annotations: seq<seq<ParamSpec>>, a: nat)
    requires a < |annotations|
    ensures ParameterSets(annotations[..a + 1]) == ParameterSets(annotations[..a]) + [Parameters(annotations[a])]
    ensures SharedSkip(annotations[..a + 1])
         == if SkipReason(annotations[a]).Some? then SkipReason(annotations[a]) else SharedSkip(annotations[..a])
  {
    assert annotations[..a + 1][..a] == annotations[..a];
  }

  /** The skip annotation is taken out of every attribute. */
  method ExtractAll(annotations: seq<seq<ParamSpec>>)
    returns (r: Result<(seq<seq<ParamSpec>>, Option<string>), string>)
    ensures r.Ok? <==> forall a :: 0 <= a < |annotations| ==> HasLegalSkips(annotations[a])
    ensures r.Ok? ==> r.value == (ParameterSets(annotations), SharedSkip(annotations))
  {
    var sets: seq<seq<ParamSpec>> := [];
    var skip: Option<string> := None;
    for a := 0 to |annotations|
      invariant sets == ParameterSets(annotations[..a]) && skip == SharedSkip(annotations[..a])
      invariant forall b :: 0 <= b < a ==> HasLegalSkips(annotations[b])
    {
      OneMoreAnnotation(annotations, a);
      var extracted := ExtractSkip(annotations[a]);
      if extracted.Err? {
        return Err(extracted.error);
      }
      var (specs, reason) := extracted.value;
      sets := sets + [specs];
      if reason.Some? {
        skip := reason;
      }
    }
    assert annotations[..|annotations|] == annotations;
    return Ok((sets, skip));
  }

  /** `annotations` holds the attribute being expanded, then the others stacked on the same function. */
  method ExpandTests(name: string, annotations: seq<seq<ParamSpec>>) returns (r: Result<seq<Generated>, string>)
    ensures r.Ok? <==> forall a :: 0 <= a < |annotations| ==> HasLegalSkips(annotations[a])
    ensures r.Ok? ==> IsSharedReason(annotations, SharedSkip(annotations))
    ensures r.Ok? ==>
      exists all :: IsExpansion(ParameterSets(annotations), |annotations|, all) && |r.value| == |all|
        && forall k :: 0 <= k < |all| ==>
             r.value[k] == Generated(FunctionName(name, all, k), name, all[k], SharedSkip(annotations))
  {
    var extracted := ExtractAll(annotations);
    if extracted.Err? {
      return Err(extracted.error);
    }
    var (sets, skip) := extracted.value;
    SharedSkipIs(annotations);
    var all := ExpandAll(sets);
    var tests: seq<Generated> := [];
    for k := 0 to |all|
      invariant |tests| == k
      invariant forall m :: 0 <= m < k ==> tests[m] == Generated(FunctionName(name, all, m), name, all[m], skip)
    {
      tests := tests + [Generated(FunctionName(name, all, k), name, all[k], skip)];
    }
    return Ok(tests);
  }

  /** Only a test that is not parameterised at all keeps its name; every other function ends in its number. */
  lemma FunctionNameIs(name: string, all: seq<seq<Choice>>, k: nat)
    requires k < |all|
    ensures FunctionName(name, all, k) == name <==> all == [[]]
    ensures all != [[]] ==> FunctionName(name, all, k) == name + "_" + Show(k)
  {
    assert |name + "_" + Show(k)| > |name|;
  }

  /** No two generated functions of one test share a name. */
  lemma FunctionNamesDiffer(name: string, all: seq<seq<Choice>>, k: nat, m: nat)
    requires k < m < |all|
    ensures FunctionName(name, all, k) != FunctionName(name, all, m)
  {
    ShowIsInjective(k, m);
    assert FunctionName(name, all, k)[|name| + 1..] == Show(k);
    assert FunctionName(name, all, m)[|name| + 1..] == Show(m);
  }
}
