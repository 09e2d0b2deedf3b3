/** Facts about multiplication and division the solver does not find alone. */
module Arithmetic {

  lemma ExactDivision(n: nat, d: nat)
    requires d > 0
    ensures (n * d) / d == n && (n * d) % d == 0
  {
    DivisionIsUnique(n, (n * d) / d, (n * d) % d, d);
  }

  lemma DivisionIsUnique(n: nat, q: int, rest: nat, d: nat)
    requires n * d == q * d + rest && rest < d
    ensures n == q && rest == 0
  {
    assert (n - q) * d == rest;
    if n != q {
      Far(n - q, d);
    }
  }

  lemma Quotient(n: nat, q: nat, rest: nat, d: nat)
    requires d > 0 && n == q * d + rest && rest < d
    ensures n / d == q
  {
    var k := n / d - q;
    assert n == (n / d) * d + n % d;
    assert k * d == (n / d) * d - q * d;
    if k != 0 {
      Far(k, d);
    }
  }

  lemma Far(k: int, d: nat)
    requires k != 0
    ensures k * d >= d || k * d <= 0 - d
  {
    if k > 0 {
      AtLeastOne(k, d);
    } else {
      AtLeastOne(-k, d);
      assert -k * d == 0 - k * d;
    }
  }

  lemma AtLeastOne(n: nat, d: nat)
    requires n > 0
    ensures n * d >= d
  {
  }

  lemma Distributes(a: nat, b: nat, c: nat)
    ensures (a + b) * c == a * c + b * c
    ensures a * c <= (a + b) * c
  {
  }
}
