/** Facts about remainders that the solver does not find by itself. */
module Arithmetic {

  lemma MultipleIsZeroOrFar(m: nat, d: int)
    ensures d == 0 || m * d >= m || m * d <= -(m as int)
  {
  }

  lemma ResidueIsUnique(a: int, m: nat, q: int, r: int)
    requires m > 0 && a == m * q + r && 0 <= r < m
    ensures a % m == r
  {
    var d := a / m - q;
    assert m * d == r - a % m;
    MultipleIsZeroOrFar(m, d);
  }

  lemma SuccessorResidue(a: nat, m: nat)
    requires m > 1
    ensures (a % m + 1) % m == (a + 1) % m
  {
    var q, r := a / m, a % m;
    assert a + 1 == m * q + (r + 1);
    if r + 1 == m {
      assert a + 1 == m * (q + 1);
      ResidueIsUnique(a + 1, m, q + 1, 0);
      ResidueIsUnique(r + 1, m, 1, 0);
    } else {
      ResidueIsUnique(a + 1, m, q, r + 1);
      ResidueIsUnique(r + 1, m, 0, r + 1);
    }
  }
}
