/** Parameter bindings, reported properties and labels of generated tests. */
module TestLabel {
  import opened Wrappers
  import opened Text
  import opened TestMatrix

  type Properties = seq<(string, string)>

  // Bindings

  /** The value a `let` gives to a parameter: an expression, `Some(expression)` or `None`. */
  datatype Bound = Plain(expr: Expr) | Present(expr: Expr) | Absent

  function Find(combo: seq<Choice>, name: string): (choice: Option<Choice>)
    ensures choice.Some? ==> choice.value in combo && choice.value.name == name
    ensures choice.None? ==> forall c :: c in combo ==> c.name != name
  {
    if combo == [] then None
    else if combo[0].name == name then Some(combo[0])
    else Find(combo[1..], name)
  }

  /** None is a panic of the macro: no value for a parameter that is not optional. */
  function BoundValue(choice: Choice): Option<Bound>
  {
    if choice.optional then Some(if choice.value.Some? then Present(choice.value.value) else Absent)
    else if choice.value.Some? then Some(Plain(choice.value.value))
    else None
  }

  /** The bindings in parameter order; None when the macro panics on a missing attribute value. */
  function Bindings(params: seq<string>, combo: seq<Choice>): Option<seq<(string, Bound)>>
  {
    if params == [] then Some([])
    else
      var choice := Find(combo, params[0]);
      if choice.None? || BoundValue(choice.value).None? then None
      else
        match Bindings(params[1..], combo)
        case None => None
        case Some(others) => Some([(params[0], BoundValue(choice.value).value)] + others)
  }

  lemma {:induction false} FindIsFirst(combo: seq<Choice>, name: string, k: nat)
    requires k < |combo| && combo[k].name == name && forall j :: 0 <= j < k ==> combo[j].name != name
    ensures Find(combo, name) == Some(combo[k])
  {
    if k > 0 {
      FindIsFirst(combo[1..], name, k - 1);
    }
  }

  /** What a parameter is bound to: the value itself, or an option if the parameter is optional. */
  ghost predicate IsBoundTo(bound: Bound, choice: Choice)
  {
    match bound
    case Plain(expr) => !choice.optional && choice.value == Some(expr)
    case Present(expr) => choice.optional && choice.value == Some(expr)
    case Absent => choice.optional && choice.value == None
  }

  /** One binding for each parameter in order, to its value in the combination. */
  lemma {:induction false} BindingsAre(params: seq<string>, combo: seq<Choice>, k: nat)
    requires Bindings(params, combo).Some? && k < |params|
    ensures |Bindings(params, combo).value| == |params| && Bindings(params, combo).value[k].0 == params[k]
    ensures Find(combo, params[k]).Some?
    ensures IsBoundTo(Bindings(params, combo).value[k].1, Find(combo, params[k]).value)
  {
    if k > 0 {
      BindingsAre(params[1..], combo, k - 1);
    } else if |params| > 1 {
      BindingsAre(params[1..], combo, 0);
    } else {
      assert params[1..] == [];
    }
  }

  // Properties

  predicate IsVisible(choice: Choice) { !(choice.optional && choice.value.None?) }

  function Variable(bindings: seq<(string, Bound)>, name: string): Option<Bound>
  {
    if bindings == [] then None
    else if bindings[0].0 == name then Some(bindings[0].1)
    else Variable(bindings[1..], name)
  }

  /** What `format!` shows for one visible parameter, read from the variable of that name. */
  function Shown(bindings: seq<(string, Bound)>, choice: Choice, render: Expr -> string): Option<string>
  {
    match Variable(bindings, choice.name)
    case Some(Plain(expr)) => if choice.optional then None else Some(render(expr))
    case Some(Present(expr)) => if choice.optional then Some(render(expr)) else None
    case _ => None
  }

  /** The generated property function; None when it would not compile or would panic. */
  function EvaluatedProperties(bindings: seq<(string, Bound)>, combo: seq<Choice>,
                               render: Expr -> string): Option<Properties>
  {
    if combo == [] then Some([])
    else if !IsVisible(combo[0]) then EvaluatedProperties(bindings, combo[1..], render)
    else
      var shown := Shown(bindings, combo[0], render);
      var others := EvaluatedProperties(bindings, combo[1..], render);
      if shown.None? || others.None? then None else Some([(combo[0].name, shown.value)] + others.value)
  }

  /** The parameters of a combination that have a value, in order. */
  function VisibleValues(combo: seq<Choice>, render: Expr -> string): Properties
  {
    if combo == [] then []
    else
      (if combo[0].value.Some? then [(combo[0].name, render(combo[0].value.value))] else [])
      + VisibleValues(combo[1..], render)
  }

  lemma VisibleOfOne(choice: Choice, render: Expr -> string)
    ensures VisibleValues([choice], render)
         == match choice.value case None => [] case Some(expr) => [(choice.name, render(expr))]
  {
    assert [choice][1..] == [];
  }

  /** Values are listed in the order of the parameters. */
  lemma {:induction false} VisibleOfConcat(a: seq<Choice>, b: seq<Choice>, render: Expr -> string)
    ensures VisibleValues(a + b, render) == VisibleValues(a, render) + VisibleValues(b, render)
  {
    if a == [] {
      assert a + b == b;
    } else {
      VisibleOfConcat(a[1..], b, render);
      VisibleOfFirst(a, render);
      VisibleOfFirst(a + b, render);
      assert (a + b)[1..] == a[1..] + b && (a + b)[..1] == a[..1];
      var one, x, y := VisibleValues(a[..1], render), VisibleValues(a[1..], render), VisibleValues(b, render);
      assert one + (x + y) == (one + x) + y;
    }
  }

  lemma VisibleOfFirst(combo: seq<Choice>, render: Expr -> string)
    requires combo != []
    ensures VisibleValues(combo, render) == VisibleValues(combo[..1], render) + VisibleValues(combo[1..], render)
  {
    assert combo[..1] == [combo[0]];
    VisibleOfOne(combo[0], render);
  }

  ghost predicate HasDistinctNames(combo: seq<Choice>)
  {
    forall j, k :: 0 <= j < k < |combo| ==> combo[j].name != combo[k].name
  }

  ghost predicate IsWellFormed(combo: seq<Choice>)
  {
    forall c :: c in combo && c.value.None? ==> c.optional
  }

  ghost predicate IsNamed(combo: seq<Choice>, name: string)
  {
    exists k :: 0 <= k < |combo| && combo[k].name == name
  }

  lemma {:induction false} FindNamed(combo: seq<Choice>, name: string)
    ensures Find(combo, name).Some? <==> IsNamed(combo, name)
  {
    if k :| 0 <= k < |combo| && combo[k].name == name {
      assert combo[k] in combo;
    }
  }

  lemma {:induction false} FindOfMember(combo: seq<Choice>, k: nat)
    requires HasDistinctNames(combo) && k < |combo|
    ensures Find(combo, combo[k].name) == Some(combo[k])
  {
    if k > 0 {
      FindOfMember(combo[1..], k - 1);
    }
  }

  /** Every parameter finds its attribute value exactly when each parameter is named by the attribute. */
  lemma {:induction false} BindingsSucceed(params: seq<string>, combo: seq<Choice>)
    requires IsWellFormed(combo)
    ensures Bindings(params, combo).Some? <==> forall p :: p in params ==> IsNamed(combo, p)
  {
    if params != [] {
      BindingsSucceed(params[1..], combo);
      FindNamed(combo, params[0]);
      assert params == [params[0]] + params[1..];
    }
  }

  lemma {:induction false} VariableOfBindings(params: seq<string>, combo: seq<Choice>, name: string)
    requires Bindings(params, combo).Some?
    ensures name in params ==> Find(combo, name).Some? && BoundValue(Find(combo, name).value).Some?
    ensures Variable(Bindings(params, combo).value, name)
         == if name in params then BoundValue(Find(combo, name).value) else None
  {
    if params != [] {
      assert params == [params[0]] + params[1..];
      VariableOfBindings(params[1..], combo, name);
      var all := Bindings(params, combo).value;
      assert all[1..] == Bindings(params[1..], combo).value;
    }
  }

  /** Suffix by suffix, the generated property function shows what is bound. */
  lemma {:induction false} PropertiesOfSuffix(params: seq<string>, combo: seq<Choice>, k: nat, render: Expr -> string)
    requires k <= |combo| && IsWellFormed(combo) && HasDistinctNames(combo)
    requires Bindings(params, combo).Some? && forall c :: c in combo ==> c.name in params
    ensures EvaluatedProperties(Bindings(params, combo).value, combo[k..], render)
         == Some(VisibleValues(combo[k..], render))
    decreases |combo| - k
  {
    if k < |combo| {
      PropertiesOfSuffix(params, combo, k + 1, render);
      assert combo[k..][0] == combo[k] && combo[k..][1..] == combo[k + 1..];
      MemberIsShown(params, combo, k, render);
      var others := VisibleValues(combo[k + 1..], render);
      assert [] + others == others;
    }
  }

  /** A visible parameter is shown with its value. */
  lemma MemberIsShown(params: seq<string>, combo: seq<Choice>, k: nat, render: Expr -> string)
    requires k < |combo| && IsWellFormed(combo) && HasDistinctNames(combo) && combo[k].name in params
    requires Bindings(params, combo).Some?
    ensures IsVisible(combo[k]) <==> combo[k].value.Some?
    ensures IsVisible(combo[k]) ==>
              Shown(Bindings(params, combo).value, combo[k], render) == Some(render(combo[k].value.value))
  {
    assert combo[k] in combo;
    FindOfMember(combo, k);
    VariableOfBindings(params, combo, combo[k].name);
  }

  /**
   * With distinct names that are the parameters, nothing panics and the properties are the bound values minus the
   * Nones.
   */
  lemma BindingsAndPropertiesAgree(params: seq<string>, combo: seq<Choice>, render: Expr -> string)
    requires IsWellFormed(combo) && HasDistinctNames(combo)
    requires forall p :: p in params <==> IsNamed(combo, p)
    ensures Bindings(params, combo).Some?
    ensures EvaluatedProperties(Bindings(params, combo).value, combo, render) == Some(VisibleValues(combo, render))
  {
    BindingsSucceed(params, combo);
    forall c | c in combo ensures c.name in params {
      var k :| 0 <= k < |combo| && combo[k] == c;
      assert combo[k].name == c.name;
    }
    PropertiesOfSuffix(params, combo, 0, render);
    assert combo[0..] == combo;
  }

  // Labels

  function Pairs(properties: Properties): (pairs: seq<string>)
    ensures |pairs| == |properties|
  {
    seq(|properties|, k requires 0 <= k < |properties| => properties[k].0 + "=" + properties[k].1)
  }

  /** `TestEntry::label`. */
  function Label(name: string, properties: Properties): string
  {
    if properties == [] then name else name + "(" + Join(Pairs(properties), ", ") + ")"
  }

  /** Length of the text before the first `c`. */
  function Before(s: string, c: char): (n: nat)
    ensures n <= |s| && c !in s[..n] && (n < |s| ==> s[n] == c)
  {
    if s == "" || s[0] == c then 0
    else
      var n := 1 + Before(s[1..], c);
      assert s[..n] == [s[0]] + s[1..][..n - 1];
      n
  }

  function ReadPair(pair: string): (string, string)
  {
    var n := Before(pair, '=');
    (pair[..n], if n < |pair| then pair[n + 1..] else "")
  }

  /** Name and properties of a label. */
  function ReadLabel(s: string): (string, Properties)
  {
    var n := Before(s, '(');
    if n == |s| then (s, [])
    else
      var parts := Split(s[n + 1..|s| - if n + 1 < |s| then 1 else 0], ',');
      (s[..n], seq(|parts|, k requires 0 <= k < |parts| => ReadPair(Unpad(parts[k], k))))
  }

  predicate IsIdentifier(s: string) { '(' !in s && '=' !in s && ',' !in s }

  ghost predicate AreReadable(properties: Properties)
  {
    forall k :: 0 <= k < |properties| ==> IsIdentifier(properties[k].0) && ',' !in properties[k].1
  }

  lemma {:induction false} BeforeOf(a: string, c: char, b: string)
    requires c !in a
    ensures Before(a + [c] + b, c) == |a|
  {
    var s := a + [c] + b;
    if a != "" {
      assert s[1..] == a[1..] + [c] + b;
      BeforeOf(a[1..], c, b);
    }
  }

  lemma ReadPairOf(key: string, value: string)
    requires '=' !in key
    ensures ReadPair(key + "=" + value) == (key, value)
  {
    var pair := key + "=" + value;
    BeforeOf(key, '=', value);
    assert key + ['='] + value == pair;
    assert pair[..|key|] == key && pair[|key| + 1..] == value;
  }

  /** The parts between commas: every later part still has the blank of ", " in front. */
  function Unpad(part: string, k: nat): string
  {
    if k > 0 && part != "" then part[1..] else part
  }

  lemma SplitPairs(properties: Properties)
    requires properties != [] && AreReadable(properties)
    ensures var parts := Split(Join(Pairs(properties), ", "), ',');
      |parts| == |properties| && forall k :: 0 <= k < |parts| ==> ReadPair(Unpad(parts[k], k)) == properties[k]
  {
    var pairs := Pairs(properties);
    assert [','] + " " == ", ";
    SplitOfJoin(pairs, ',', " ");
    var parts := Split(Join(pairs, ", "), ',');
    forall k | 0 <= k < |parts| ensures ReadPair(Unpad(parts[k], k)) == properties[k] {
      if k > 0 {
        assert parts[k] == " " + pairs[k];
      }
      ReadPairOf(properties[k].0, properties[k].1);
    }
  }

  /** A label gives back the name and the properties when no value contains a comma. */
  lemma ReadLabelOfLabel(name: string, properties: Properties)
    requires '(' !in name && AreReadable(properties)
    ensures ReadLabel(Label(name, properties)) == (name, properties)
  {
    if properties != [] {
      var body := Join(Pairs(properties), ", ");
      var s := Label(name, properties);
      assert s == name + ['('] + (body + ")");
      BeforeOf(name, '(', body + ")");
      assert s[|name| + 1..|s| - 1] == body && s[..|name|] == name;
      SplitPairs(properties);
      assert ReadLabel(s).1 == properties;
    }
  }

  // Labels of one annotation

  ghost predicate RendersDistinctly(spec: ParamSpec, render: Expr -> string)
  {
    forall i, j :: 0 <= i < j < |spec.values| ==> render(spec.values[i]) != render(spec.values[j])
  }

  ghost predicate HasDistinctSpecs(specs: seq<ParamSpec>)
  {
    forall j, k :: 0 <= j < k < |specs| ==> specs[j].name != specs[k].name
  }

  lemma {:induction false} VisibleMembers(combo: seq<Choice>, render: Expr -> string, key: string, text: string)
    ensures (key, text) in VisibleValues(combo, render)
       <==> exists k :: 0 <= k < |combo| && combo[k].name == key && combo[k].value.Some?
                        && render(combo[k].value.value) == text
  {
    if combo != [] {
      VisibleMembers(combo[1..], render, key, text);
      if k :| 0 <= k < |combo[1..]| && combo[1..][k].name == key && combo[1..][k].value.Some?
              && render(combo[1..][k].value.value) == text
      {
        assert combo[k + 1] == combo[1..][k];
      }
      if k :| 0 < k < |combo| && combo[k].name == key && combo[k].value.Some? && render(combo[k].value.value) == text {
        assert combo[1..][k - 1] == combo[k];
      }
    }
  }

  /** The visible values determine every digit. */
  lemma EqualValuesEqualDigits(specs: seq<ParamSpec>, a: seq<nat>, b: seq<nat>, render: Expr -> string, k: nat)
    requires AreDigits(specs, a) && AreDigits(specs, b) && HasDistinctSpecs(specs) && k < |specs|
    requires RendersDistinctly(specs[k], render)
    requires VisibleValues(ComboOf(specs, a), render) == VisibleValues(ComboOf(specs, b), render)
    ensures a[k] == b[k]
  {
    var x, y := ComboOf(specs, a), ComboOf(specs, b);
    if x[k].value.Some? {
      VisibleMembers(x, render, specs[k].name, render(x[k].value.value));
      VisibleMembers(y, render, specs[k].name, render(x[k].value.value));
      assert y[k].value.Some? && render(y[k].value.value) == render(x[k].value.value);
    } else if y[k].value.Some? {
      VisibleMembers(x, render, specs[k].name, render(y[k].value.value));
      VisibleMembers(y, render, specs[k].name, render(y[k].value.value));
      assert false;
    }
  }

  // When two labels of one test coincide

  /** The separator in front of a later parameter, with the parameter's name. */
  function Glue(key: string): string { ", " + key + "=" }

  /** The names of the parameters after the one with the given name. */
  function LaterNames(specs: seq<ParamSpec>, name: string): set<string>
  {
    set j, k | 0 <= j < k < |specs| && specs[j].name == name :: specs[k].name
  }

  /** Parameters in their order, and no value that could be taken for the start of a later parameter. */
  ghost predicate IsUnambiguous(properties: Properties, specs: seq<ParamSpec>)
  {
    && (forall k :: 0 <= k < |properties| ==> IsIdentifier(properties[k].0))
    && (forall k :: 0 <= k < |properties| - 1 ==> properties[k + 1].0 in LaterNames(specs, properties[k].0))
    && forall k, n :: 0 <= k < |properties| && n in LaterNames(specs, properties[k].0) ==>
         !Contains(properties[k].1, Glue(n))
  }

  /** What follows the first value of a label body. */
  function Rest(properties: Properties): string
  {
    if properties == [] then "" else ", " + Join(Pairs(properties), ", ")
  }

  lemma BodyStarts(properties: Properties)
    requires properties != []
    ensures Join(Pairs(properties), ", ") == properties[0].0 + "=" + (properties[0].1 + Rest(properties[1..]))
  {
    var pair := properties[0].0 + "=" + properties[0].1;
    assert Pairs(properties)[0] == pair && Pairs(properties)[1..] == Pairs(properties[1..]);
    assert properties[0].0 + "=" + (properties[0].1 + Rest(properties[1..])) == pair + Rest(properties[1..]);
    if |properties| > 1 {
      assert Join(Pairs(properties), ", ") == pair + ", " + Join(Pairs(properties[1..]), ", ");
    }
  }

  lemma RestStarts(properties: Properties)
    requires properties != []
    ensures Rest(properties) == Glue(properties[0].0) + (properties[0].1 + Rest(properties[1..]))
  {
    BodyStarts(properties);
  }

  lemma SplitAtEquals(a: string, u: string, b: string, v: string)
    requires '=' !in a && '=' !in b && a + "=" + u == b + "=" + v
    ensures a == b && u == v
  {
    var s, t := a + ['='] + u, b + ['='] + v;
    BeforeOf(a, '=', u);
    BeforeOf(b, '=', v);
    assert s == t && s[|a| + 1..] == u && t[|b| + 1..] == v && s[..|a|] == a && t[..|b|] == b;
  }

  lemma LongerCoversGlue(value: string, glue: string, tail: string, longer: string, rest: string)
    requires value + (glue + tail) == longer + rest && |longer| >= |value| + |glue|
    ensures Contains(longer, glue)
  {
    var d := |longer| - |value| - |glue|;
    var whole := value + (glue + tail);
    assert longer == whole[..|longer|] == value + glue + tail[..d];
    ContainsMiddle(value, glue, tail[..d]);
  }

  lemma LongerEndsInGlue(value: string, glue: string, tail: string, longer: string, rest: string)
    requires value + (glue + tail) == longer + rest && |value| < |longer| < |value| + |glue|
    ensures rest != "" && rest[0] == glue[|longer| - |value|]
  {
    var whole := value + (glue + tail);
    assert rest == whole[|longer|..] && rest[0] == whole[|longer|];
  }

  /**
   * A longer value would reach into the next parameter: it contains its separator, or its own rest starts inside it.
   */
  lemma LongerValueIsAmbiguous(value: string, key: string, tail: string, longer: string, rest: string)
    requires value + (Glue(key) + tail) == longer + rest && |value| < |longer|
    requires IsIdentifier(key) && (rest == "" || rest[0] == ',')
    ensures Contains(longer, Glue(key))
  {
    if |longer| < |value| + |Glue(key)| {
      LongerEndsInGlue(value, Glue(key), tail, longer, rest);
      GlueHasOneComma(key, |longer| - |value|);
    } else {
      LongerCoversGlue(value, Glue(key), tail, longer, rest);
    }
  }

  lemma GlueHasOneComma(key: string, d: nat)
    requires IsIdentifier(key) && 1 <= d < |Glue(key)|
    ensures Glue(key)[d] != ','
  {
    assert Glue(key) == [',', ' '] + key + ['='];
  }

  lemma RestIsSeparated(properties: Properties)
    ensures Rest(properties) == "" <==> properties == []
    ensures Rest(properties) != "" ==> Rest(properties)[0] == ','
  {
  }

  lemma FirstValuesAgree(p: Properties, q: Properties, specs: seq<ParamSpec>)
    requires p != [] && q != [] && IsUnambiguous(p, specs) && IsUnambiguous(q, specs)
    requires p[0].0 == q[0].0 && p[0].1 + Rest(p[1..]) == q[0].1 + Rest(q[1..])
    ensures |p[0].1| >= |q[0].1|
  {
    if |p[0].1| < |q[0].1| {
      RestIsSeparated(p[1..]);
      RestIsSeparated(q[1..]);
      assert p[1..] != [] by {
        assert |p[0].1 + Rest(p[1..])| == |q[0].1 + Rest(q[1..])|;
      }
      RestStarts(p[1..]);
      var key, tail := p[1].0, p[1].1 + Rest(p[2..]);
      assert p[1..][1..] == p[2..];
      LongerValueIsAmbiguous(p[0].1, key, tail, q[0].1, Rest(q[1..]));
    }
  }

  lemma HeadsAgree(p: Properties, q: Properties, specs: seq<ParamSpec>)
    requires p != [] && q != [] && IsUnambiguous(p, specs) && IsUnambiguous(q, specs)
    requires Join(Pairs(p), ", ") == Join(Pairs(q), ", ")
    ensures p[0] == q[0] && Rest(p[1..]) == Rest(q[1..])
  {
    BodyStarts(p);
    BodyStarts(q);
    SplitAtEquals(p[0].0, p[0].1 + Rest(p[1..]), q[0].0, q[0].1 + Rest(q[1..]));
    FirstValuesAgree(p, q, specs);
    FirstValuesAgree(q, p, specs);
    SameLengthSplit(p[0].1, Rest(p[1..]), q[0].1, Rest(q[1..]));
  }

  lemma EqualRests(p: Properties, q: Properties)
    requires Rest(p) == Rest(q)
    ensures Join(Pairs(p), ", ") == Join(Pairs(q), ", ")
  {
    RestIsSeparated(p);
    RestIsSeparated(q);
    if p != [] {
      SameLengthSplit(", ", Join(Pairs(p), ", "), ", ", Join(Pairs(q), ", "));
    }
  }

  lemma UnambiguousTail(properties: Properties, specs: seq<ParamSpec>)
    requires properties != [] && IsUnambiguous(properties, specs)
    ensures IsUnambiguous(properties[1..], specs)
  {
    var tail := properties[1..];
    forall k | 0 <= k < |tail| - 1 ensures tail[k + 1].0 in LaterNames(specs, tail[k].0) {
      assert tail[k] == properties[k + 1] && tail[k + 1] == properties[k + 1 + 1];
    }
  }

  /** Unambiguous properties can be told from the text of a label. */
  lemma {:induction false} EqualBodiesEqualProperties(p: Properties, q: Properties, specs: seq<ParamSpec>)
    requires IsUnambiguous(p, specs) && IsUnambiguous(q, specs)
    requires Join(Pairs(p), ", ") == Join(Pairs(q), ", ")
    ensures p == q
  {
    EmptyBody(p);
    EmptyBody(q);
    if p != [] && q != [] {
      HeadsAgree(p, q, specs);
      EqualRests(p[1..], q[1..]);
      UnambiguousTail(p, specs);
      UnambiguousTail(q, specs);
      EqualBodiesEqualProperties(p[1..], q[1..], specs);
      assert p == [p[0]] + p[1..] && q == [q[0]] + q[1..];
    }
  }

  lemma EmptyBody(properties: Properties)
    ensures Join(Pairs(properties), ", ") == "" <==> properties == []
  {
    if properties != [] {
      BodyStarts(properties);
    }
  }

  lemma SameLengthSplit(a: string, u: string, b: string, v: string)
    requires |a| == |b| && a + u == b + v
    ensures a == b && u == v
  {
    assert a == (a + u)[..|a|] && b == (b + v)[..|b|];
    assert u == (a + u)[|a|..] && v == (b + v)[|b|..];
  }

  lemma EqualLabelsEqualProperties(name: string, p: Properties, q: Properties, specs: seq<ParamSpec>)
    requires IsUnambiguous(p, specs) && IsUnambiguous(q, specs)
    ensures Label(name, p) == Label(name, q) <==> p == q
  {
    if Label(name, p) == Label(name, q) {
      if p != [] && q != [] {
        var x, y := Join(Pairs(p), ", "), Join(Pairs(q), ", ");
        assert name + "(" + x + ")" == (name + "(") + (x + ")") && name + "(" + y + ")" == (name + "(") + (y + ")");
        SameLengthSplit(name + "(", x + ")", name + "(", y + ")");
        SameLengthSplit(x, ")", y, ")");
        EqualBodiesEqualProperties(p, q, specs);
      }
    }
  }

  /** No value of the annotation contains a separator followed by the name of a later parameter and "=". */
  ghost predicate HasUnambiguousValues(specs: seq<ParamSpec>, render: Expr -> string)
  {
    forall k, m, j :: 0 <= k < j < |specs| && 0 <= m < |specs[k].values| ==>
      !Contains(render(specs[k].values[m]), Glue(specs[j].name))
  }

  /** Distinct combinations of one annotation have distinct labels. */
  lemma LabelsDiffer(name: string, specs: seq<ParamSpec>, i: nat, j: nat, render: Expr -> string)
    requires i < Size(specs) && j < Size(specs) && i != j
    requires HasDistinctSpecs(specs) && HasUnambiguousValues(specs, render)
    requires forall k :: 0 <= k < |specs| ==> IsIdentifier(specs[k].name) && RendersDistinctly(specs[k], render)
    ensures Label(name, VisibleValues(ComboAt(specs, i), render))
         != Label(name, VisibleValues(ComboAt(specs, j), render))
  {
    var p, q := VisibleValues(ComboAt(specs, i), render), VisibleValues(ComboAt(specs, j), render);
    VisibleAreUnambiguous(specs, DigitsAt(specs, i), render);
    VisibleAreUnambiguous(specs, DigitsAt(specs, j), render);
    EqualLabelsEqualProperties(name, p, q, specs);
    if p == q {
      forall k | 0 <= k < |specs| ensures DigitsAt(specs, i)[k] == DigitsAt(specs, j)[k] {
        EqualValuesEqualDigits(specs, DigitsAt(specs, i), DigitsAt(specs, j), render, k);
      }
      assert DigitsAt(specs, i) == DigitsAt(specs, j);
      IndexOfDigits(specs, i);
      IndexOfDigits(specs, j);
    }
  }

  lemma VisibleAreUnambiguous(specs: seq<ParamSpec>, digits: seq<nat>, render: Expr -> string)
    requires AreDigits(specs, digits) && HasDistinctSpecs(specs) && HasUnambiguousValues(specs, render)
    requires forall k :: 0 <= k < |specs| ==> IsIdentifier(specs[k].name)
    ensures IsUnambiguous(VisibleValues(ComboOf(specs, digits), render), specs)
  {
    SuffixIsUnambiguous(specs, digits, 0, render);
    assert ComboOf(specs, digits)[0..] == ComboOf(specs, digits);
  }

  ghost predicate IsNamedFrom(specs: seq<ParamSpec>, k: nat, name: string)
  {
    exists j :: k <= j < |specs| && specs[j].name == name
  }

  lemma {:induction false} SuffixIsUnambiguous(specs: seq<ParamSpec>, digits: seq<nat>, k: nat, render: Expr -> string)
    requires AreDigits(specs, digits) && HasDistinctSpecs(specs) && HasUnambiguousValues(specs, render)
    requires k <= |specs| && forall j :: 0 <= j < |specs| ==> IsIdentifier(specs[j].name)
    ensures var visible := VisibleValues(ComboOf(specs, digits)[k..], render);
      IsUnambiguous(visible, specs) && (visible != [] ==> IsNamedFrom(specs, k, visible[0].0))
    decreases |specs| - k
  {
    var combo := ComboOf(specs, digits);
    if k < |specs| {
      assert combo[k..][0] == combo[k] && combo[k..][1..] == combo[k + 1..];
      SuffixIsUnambiguous(specs, digits, k + 1, render);
      var others := VisibleValues(combo[k + 1..], render);
      if combo[k].value.Some? {
        var m := if specs[k].optional then digits[k] - 1 else digits[k];
        assert combo[k].value.value == specs[k].values[m];
        UnambiguousExtends(specs, k, m, others, render);
      } else {
        assert [] + others == others;
      }
    }
  }

  /** The value of parameter `k` in front of those of later parameters. */
  lemma UnambiguousExtends(specs: seq<ParamSpec>, k: nat, m: nat, others: Properties, render: Expr -> string)
    requires HasDistinctSpecs(specs) && HasUnambiguousValues(specs, render)
    requires k < |specs| && m < |specs[k].values| && IsIdentifier(specs[k].name)
    requires IsUnambiguous(others, specs) && (others != [] ==> IsNamedFrom(specs, k + 1, others[0].0))
    ensures IsUnambiguous([(specs[k].name, render(specs[k].values[m]))] + others, specs)
    ensures IsNamedFrom(specs, k, specs[k].name)
  {
    var visible := [(specs[k].name, render(specs[k].values[m]))] + others;
    forall v, n | 0 <= v < |visible| && n in LaterNames(specs, visible[v].0) ensures !Contains(visible[v].1, Glue(n)) {
      if v > 0 {
        assert visible[v] == others[v - 1];
      }
    }
    forall v | 0 <= v < |visible| - 1 ensures visible[v + 1].0 in LaterNames(specs, visible[v].0) {
      if v > 0 {
        assert visible[v] == others[v - 1] && visible[v + 1] == others[v];
      } else {
        var j :| k + 1 <= j < |specs| && specs[j].name == others[0].0;
        assert visible[1] == others[0];
      }
    }
  }

  /** The names of the attribute are the parameters of the function, each given once. */
  ghost predicate NamesTheParameters(specs: seq<ParamSpec>, params: seq<string>)
  {
    HasDistinctSpecs(specs) && forall p :: p in params <==> exists k :: 0 <= k < |specs| && specs[k].name == p
  }

  /** In every combination all parameters are bound, and the reported properties are the bound values. */
  lemma CombinationAgrees(specs: seq<ParamSpec>, i: nat, params: seq<string>, render: Expr -> string)
    requires i < Size(specs) && NamesTheParameters(specs, params)
    ensures Bindings(params, ComboAt(specs, i)).Some?
    ensures EvaluatedProperties(Bindings(params, ComboAt(specs, i)).value, ComboAt(specs, i), render)
         == Some(VisibleValues(ComboAt(specs, i), render))
  {
    var combo := ComboAt(specs, i);
    forall p ensures p in params <==> IsNamed(combo, p) {
      if k :| 0 <= k < |specs| && specs[k].name == p {
        assert combo[k].name == p;
      }
      if k :| 0 <= k < |combo| && combo[k].name == p {
        assert specs[k].name == p;
      }
    }
    BindingsAndPropertiesAgree(params, combo, render);
  }

  lemma VisibleValuesOfTwo(combo: seq<Choice>, render: Expr -> string)
    requires |combo| == 2
    ensures VisibleValues(combo, render)
         == (if combo[0].value.Some? then [(combo[0].name, render(combo[0].value.value))] else [])
            + if combo[1].value.Some? then [(combo[1].name, render(combo[1].value.value))] else []
  {
    var second := if combo[1].value.Some? then [(combo[1].name, render(combo[1].value.value))] else [];
    assert combo[1..][0] == combo[1] && combo[1..][1..] == [];
    assert VisibleValues(combo[1..], render) == second + [] == second;
  }

  lemma LabelOfOne(name: string, a: string, v: string)
    ensures Label(name, [(a, v)]) == name + "(" + (a + "=" + v) + ")"
  {
    assert Pairs([(a, v)]) == [a + "=" + v];
  }

  lemma LabelOfTwo(name: string, a: string, u: string, n: string, w: string)
    ensures Label(name, [(a, u), (n, w)]) == name + "(" + (a + "=" + (u + Glue(n) + w)) + ")"
  {
    var pairs := Pairs([(a, u), (n, w)]);
    assert pairs == [a + "=" + u, n + "=" + w] && pairs[1..] == [n + "=" + w];
    assert Join(pairs[1..], ", ") == n + "=" + w;
    assert Join(pairs, ", ") == a + "=" + u + ", " + (n + "=" + w);
    assert a + "=" + u + ", " + (n + "=" + w) == a + "=" + (u + Glue(n) + w);
  }

  lemma OneAndTwoAgree(name: string, a: string, u: string, n: string, w: string, v: string)
    ensures Label(name, [(a, u), (n, w)]) == Label(name, [(a, v)]) <==> u + Glue(n) + w == v
  {
    LabelOfOne(name, a, v);
    LabelOfTwo(name, a, u, n, w);
    if Label(name, [(a, u), (n, w)]) == Label(name, [(a, v)]) {
      UnwrapLabels(name, a, u + Glue(n) + w, v);
    }
  }

  /** Exactly the values that contain a separator, a name and "=" can be read as two parameters. */
  lemma ValueReadsAsTwo(name: string, a: string, n: string, v: string)
    ensures (exists u, w :: Label(name, [(a, u), (n, w)]) == Label(name, [(a, v)])) <==> Contains(v, Glue(n))
  {
    if u, w :| Label(name, [(a, u), (n, w)]) == Label(name, [(a, v)]) {
      OneAndTwoAgree(name, a, u, n, w, v);
      ContainsMiddle(u, Glue(n), w);
    }
    if Contains(v, Glue(n)) {
      var u, w := SplitAround(v, Glue(n));
      OneAndTwoAgree(name, a, u, n, w, v);
    }
  }

  lemma UnwrapLabels(name: string, a: string, x: string, y: string)
    requires name + "(" + (a + "=" + x) + ")" == name + "(" + (a + "=" + y) + ")"
    ensures x == y
  {
    var head := name + "(" + a + "=";
    assert head + (x + ")") == name + "(" + (a + "=" + x) + ")";
    assert head + (y + ")") == name + "(" + (a + "=" + y) + ")";
    SameLengthSplit(head, x + ")", head, y + ")");
    SameLengthSplit(x, ")", y, ")");
  }

  /** The annotation `a = {x, y}, n = [z]`. */
  function TwoParameters(a: string, x: Expr, y: Expr, n: string, z: Expr): seq<ParamSpec>
  {
    [ParamSpec(a, [x, y], false), ParamSpec(n, [z], true)]
  }

  /**
   * Every value `u, n=w` makes two combinations of an annotation share a label: the one with that value and no `n`, and
   * the one with `u` and `n` set to `w`.
   */
  lemma GluedValueCollides(name: string, a: string, x: Expr, y: Expr, n: string, z: Expr, render: Expr -> string)
    requires render(y) == render(x) + Glue(n) + render(z)
    ensures var specs := TwoParameters(a, x, y, n, z);
      && AreDigits(specs, [0, 1]) && AreDigits(specs, [1, 0])
      && Label(name, VisibleValues(ComboOf(specs, [0, 1]), render))
         == Label(name, VisibleValues(ComboOf(specs, [1, 0]), render))
  {
    var specs := TwoParameters(a, x, y, n, z);
    VisibleValuesOfTwo(ComboOf(specs, [0, 1]), render);
    VisibleValuesOfTwo(ComboOf(specs, [1, 0]), render);
    assert VisibleValues(ComboOf(specs, [0, 1]), render) == [(a, render(x)), (n, render(z))];
    assert VisibleValues(ComboOf(specs, [1, 0]), render) == [(a, render(y))];
    LabelOfOne(name, a, render(y));
    LabelOfTwo(name, a, render(x), n, render(z));
  }

  /** For example, `a = {1, 1, b=2}, b = [2]` written with tokens. */
  lemma CommasCollide(tokens: Expr -> string)
    requires forall s :: tokens(OtherExpr(s)) == s
    ensures var specs := TwoParameters("a", OtherExpr("1"), OtherExpr("1, b=2"), "b", OtherExpr("2"));
      && AreDigits(specs, [0, 1]) && AreDigits(specs, [1, 0])
      && Label("t", VisibleValues(ComboOf(specs, [0, 1]), tokens))
         == Label("t", VisibleValues(ComboOf(specs, [1, 0]), tokens))
  {
    assert "1, b=2" == "1" + Glue("b") + "2";
    GluedValueCollides("t", "a", OtherExpr("1"), OtherExpr("1, b=2"), "b", OtherExpr("2"), tokens);
  }
}
