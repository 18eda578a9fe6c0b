/**
 * Regular expressions with their declarative meaning, and Brzozowski derivatives that
 * recognise the same language one character at a time.
 */
module Regex {

  datatype Re =
    | Nothing
    | Empty
    | OneOf(chars: set<char>)
    | Seq(first: Re, second: Re)
    | Either(left: Re, right: Re)
    | Star(body: Re)

  function Plus(r: Re): Re { Seq(r, Star(r)) }

  function Optional(r: Re): Re { Either(Empty, r) }

  /** The language of a regular expression, by splitting the string in all possible ways. */
  ghost predicate Denotes(r: Re, s: string)
    decreases |s|, r
  {
    match r
    case Nothing => false
    case Empty => s == ""
    case OneOf(chars) => |s| == 1 && s[0] in chars
    case Seq(a, b) => exists u, v :: u + v == s && Denotes(a, u) && Denotes(b, v)
    case Either(a, b) => Denotes(a, s) || Denotes(b, s)
    case Star(a) => s == "" || exists u, v :: u != "" && u + v == s && Denotes(a, u) && Denotes(Star(a), v)
  }

  predicate Nullable(r: Re)
    ensures Nullable(r) <==> Denotes(r, "")
  {
    match r
    case Nothing => false
    case Empty => true
    case OneOf(_) => false
    case Seq(a, b) =>
      assert "" + "" == "";
      Nullable(a) && Nullable(b)
    case Either(a, b) => Nullable(a) || Nullable(b)
    case Star(_) => true
  }

  // Smart constructors drop the neutral and absorbing elements, so that the derivatives of a
  // fixed expression stay within a small set of expressions.

  function MakeSeq(a: Re, b: Re): (r: Re)
    ensures forall s :: Denotes(r, s) <==> Denotes(Seq(a, b), s)
  {
    if a == Nothing then
      Nothing
    else if a == Empty then
      assert forall s :: Denotes(Seq(a, b), s) <==> Denotes(b, s) by {
        forall s ensures Denotes(Seq(a, b), s) <==> Denotes(b, s) {
          assert "" + s == s;
          if Denotes(Seq(a, b), s) {
            var u, v :| u + v == s && Denotes(a, u) && Denotes(b, v);
            assert v == s;
          }
        }
      }
      b
    else
      Seq(a, b)
  }

  function MakeEither(a: Re, b: Re): (r: Re)
    ensures forall s :: Denotes(r, s) <==> Denotes(a, s) || Denotes(b, s)
  {
    if a == Nothing then b else if b == Nothing then a else Either(a, b)
  }

  /** What remains to be matched after `c`. */
  function Derivative(r: Re, c: char): Re
  {
    match r
    case Nothing => Nothing
    case Empty => Nothing
    case OneOf(chars) => if c in chars then Empty else Nothing
    case Seq(a, b) =>
      var consumed := MakeSeq(Derivative(a, c), b);
      if Nullable(a) then MakeEither(consumed, Derivative(b, c)) else consumed
    case Either(a, b) => MakeEither(Derivative(a, c), Derivative(b, c))
    case Star(a) => MakeSeq(Derivative(a, c), r)
  }

  lemma {:induction false} DerivativeDenotes(r: Re, c: char, s: string)
    ensures Denotes(Derivative(r, c), s) <==> Denotes(r, [c] + s)
    decreases r, |s|
  {
    match r
    case Nothing =>
    case Empty =>
    case OneOf(chars) => assert ([c] + s)[0] == c;
    case Seq(a, b) => DerivativeOfSeq(a, b, c, s);
    case Either(a, b) =>
      DerivativeDenotes(a, c, s);
      DerivativeDenotes(b, c, s);
    case Star(a) => DerivativeOfStar(a, c, s);
  }

  lemma SeqIntro(a: Re, b: Re, u: string, v: string)
    requires Denotes(a, u) && Denotes(b, v)
    ensures Denotes(Seq(a, b), u + v)
  {
  }

  lemma StarIntro(a: Re, u: string, v: string)
    requires u != "" && Denotes(a, u) && Denotes(Star(a), v)
    ensures Denotes(Star(a), u + v)
  {
  }

  lemma ConsAssociates(c: char, u: string, v: string)
    ensures ([c] + u) + v == [c] + (u + v)
  {
  }

  lemma Uncons(u: string, v: string, c: char, s: string)
    requires u != "" && u + v == [c] + s
    ensures u == [c] + u[1..] && u[1..] + v == s
  {
    assert u[0] == (u + v)[0];
    assert (u + v)[1..] == u[1..] + v;
    assert ([c] + s)[1..] == s;
  }

  lemma {:induction false} DerivativeOfSeq(a: Re, b: Re, c: char, s: string)
    ensures Denotes(Seq(Derivative(a, c), b), s) || (Nullable(a) && Denotes(Derivative(b, c), s))
       <==> Denotes(Seq(a, b), [c] + s)
    decreases Seq(a, b), |s|, 1
  {
    DerivativeDenotes(b, c, s);
    if Denotes(Seq(a, b), [c] + s) {
      SeqConsumes(a, b, c, s);
    }
    if Nullable(a) && Denotes(b, [c] + s) {
      assert "" + ([c] + s) == [c] + s;
    }
    if Denotes(Seq(Derivative(a, c), b), s) {
      SeqProduces(a, b, c, s);
    }
  }

  lemma {:induction false} SeqProduces(a: Re, b: Re, c: char, s: string)
    requires Denotes(Seq(Derivative(a, c), b), s)
    ensures Denotes(Seq(a, b), [c] + s)
    decreases Seq(a, b), |s|, 0
  {
    var u, v :| u + v == s && Denotes(Derivative(a, c), u) && Denotes(b, v);
    DerivativeDenotes(a, c, u);
    SeqIntro(a, b, [c] + u, v);
    ConsAssociates(c, u, v);
  }

  lemma {:induction false} SeqConsumes(a: Re, b: Re, c: char, s: string)
    requires Denotes(Seq(a, b), [c] + s)
    ensures Denotes(Seq(Derivative(a, c), b), s) || (Nullable(a) && Denotes(b, [c] + s))
    decreases Seq(a, b), |s|, 0
  {
    var u, v :| u + v == [c] + s && Denotes(a, u) && Denotes(b, v);
    if u == "" {
      assert v == [c] + s;
    } else {
      Uncons(u, v, c, s);
      DerivativeDenotes(a, c, u[1..]);
    }
  }

  lemma {:induction false} DerivativeOfStar(a: Re, c: char, s: string)
    ensures Denotes(Seq(Derivative(a, c), Star(a)), s) <==> Denotes(Star(a), [c] + s)
    decreases Star(a), |s|, 1
  {
    if Denotes(Seq(Derivative(a, c), Star(a)), s) {
      StarProduces(a, c, s);
    }
    if Denotes(Star(a), [c] + s) {
      StarConsumes(a, c, s);
    }
  }

  lemma {:induction false} StarProduces(a: Re, c: char, s: string)
    requires Denotes(Seq(Derivative(a, c), Star(a)), s)
    ensures Denotes(Star(a), [c] + s)
    decreases Star(a), |s|, 0
  {
    var u, v :| u + v == s && Denotes(Derivative(a, c), u) && Denotes(Star(a), v);
    DerivativeDenotes(a, c, u);
    StarIntro(a, [c] + u, v);
    ConsAssociates(c, u, v);
  }

  lemma {:induction false} StarConsumes(a: Re, c: char, s: string)
    requires Denotes(Star(a), [c] + s)
    ensures Denotes(Seq(Derivative(a, c), Star(a)), s)
    decreases Star(a), |s|, 0
  {
    var u, v :| u != "" && u + v == [c] + s && Denotes(a, u) && Denotes(Star(a), v);
    Uncons(u, v, c, s);
    DerivativeDenotes(a, c, u[1..]);
  }
}
