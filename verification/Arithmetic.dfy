/** Exact arithmetic shared by the numerical modules. Naming a product or a quotient keeps it out of nonlinear search. */
module Arithmetic {

  function Min(a: int, b: int): int { if a <= b then a else b }
  function Max(a: int, b: int): int { if a <= b then b else a }

  function Absolute(x: real): real { if x < 0.0 then -x else x }

  function Times(a: real, b: real): real { a * b }

  function Over(a: real, b: real): real
    requires b != 0.0
  {
    a / b
  }

  lemma Positive(a: real, b: real)
    requires a > 0.0 && b > 0.0
    ensures a * b > 0.0
  {
  }

  lemma Nonnegative(a: real, b: real)
    requires a >= 0.0 && b >= 0.0
    ensures a * b >= 0.0
  {
  }

  lemma NonzeroProduct(a: real, b: real)
    requires a != 0.0 && b != 0.0
    ensures a * b != 0.0
  {
  }

  lemma OverFacts(a: real, b: real)
    requires b != 0.0
    ensures Over(a, b) * b == a
    ensures a != 0.0 ==> Over(a, b) != 0.0
    ensures a > 0.0 && b > 0.0 ==> Over(a, b) > 0.0
  {
  }

  lemma OverOne(a: real)
    requires a != 0.0
    ensures Over(a, a) == 1.0
  {
  }

  lemma CancelRight(x: real, y: real, k: real)
    requires x * k == y * k && k != 0.0
    ensures x == y
  {
    assert (x - y) * k == 0.0;
    if x != y {
      NonzeroProduct(x - y, k);
      assert false;
    }
  }
}
