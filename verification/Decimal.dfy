/** Decimal rendering of unsigned numbers (`{}` of a `usize`) and its inverse. */
module Decimal {

  function Digit(d: nat): (c: char)
    requires d < 10
    ensures '0' <= c <= '9'
  {
    '0' + d as char
  }

  function Show(n: nat): (s: string)
    ensures s != ""
    ensures forall k :: 0 <= k < |s| ==> '0' <= s[k] <= '9'
  {
    if n < 10 then [Digit(n)] else Show(n / 10) + [Digit(n % 10)]
  }

  /** No leading zeros. */
  lemma {:induction false} ShowIsCanonical(n: nat)
    ensures |Show(n)| > 1 ==> Show(n)[0] != '0'
    ensures n > 0 ==> Show(n)[0] != '0'
  {
    if n >= 10 {
      ShowIsCanonical(n / 10);
    }
  }

  function Read(s: string): nat
    requires forall k :: 0 <= k < |s| ==> '0' <= s[k] <= '9'
  {
    if s == "" then 0 else Read(s[..|s| - 1]) * 10 + (s[|s| - 1] - '0') as nat
  }

  lemma {:induction false} ReadOfShow(n: nat)
    ensures Read(Show(n)) == n
  {
    if n < 10 {
      assert Show(n)[..0] == "";
    } else {
      assert Show(n)[..|Show(n)| - 1] == Show(n / 10);
      ReadOfShow(n / 10);
    }
  }

  lemma ShowIsInjective(m: nat, n: nat)
    ensures Show(m) == Show(n) <==> m == n
  {
    ReadOfShow(m);
    ReadOfShow(n);
  }
}
