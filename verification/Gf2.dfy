/**
 Polynomials over GF(2), written as sequences of coefficients with the highest power first, so that
 appending a coefficient b to p gives x*p + b. That is the order in which a CRC unit that is not
 reflected takes in its message.

 The generator is [true] + t, where t holds its d = |t| lower coefficients.
 */
module Gf2 {
  import opened Words

  type Poly = seq<bool>

  /** Sum of two polynomials written with the same number of coefficients. */
  function Add(a: Poly, b: Poly): Poly
    requires |a| == |b|
  {
    seq(|a|, i requires 0 <= i < |a| => a[i] != b[i])
  }

  function Scale(c: bool, p: Poly): Poly {
    if c then p else Zeros(|p|)
  }

  /** The coefficient of x^k; powers that are not written have coefficient 0. */
  predicate Coef(p: Poly, k: nat) {
    k < |p| && p[|p| - 1 - k]
  }

  /** Equality of polynomials, whatever zeros lead. */
  ghost predicate SamePoly(a: Poly, b: Poly) {
    forall k: nat :: Coef(a, k) == Coef(b, k)
  }

  /** Product, by (x*q + b) * g = x*(q*g) + b*g. */
  function Mul(q: Poly, g: Poly): (r: Poly)
    requires |g| > 0
    ensures |r| == |q| + |g| - 1
  {
    if q == [] then Zeros(|g| - 1)
    else
      var n := |q| - 1;
      Add(Mul(q[..n], g) + [false], Zeros(n) + Scale(q[n], g))
  }

  /** The parity of the products that meet in the coefficient of x^k, over the powers below n of q. */
  function Convolution(q: Poly, g: Poly, k: nat, n: nat): bool {
    if n == 0 then false
    else Convolution(q, g, k, n - 1) != (n - 1 <= k && Coef(q, n - 1) && Coef(g, k - (n - 1)))
  }

  ghost predicate Divides(g: Poly, p: Poly)
    requires |g| > 0
  {
    exists q: Poly :: SamePoly(Mul(q, g), p)
  }

  /** (x*r + b) mod ([true] + t), for a remainder r with |t| coefficients. */
  function ShiftIn(r: Poly, b: bool, t: Poly): (s: Poly)
    requires |r| == |t| > 0
    ensures |s| == |t|
  {
    Add(r[1..] + [b], Scale(r[0], t))
  }

  /** The remainder reached from r by taking in the coefficients of p. */
  function RemFrom(r: Poly, p: Poly, t: Poly): (s: Poly)
    requires |r| == |t| > 0
    ensures |s| == |t|
  {
    if p == [] then r else ShiftIn(RemFrom(r, p[..|p| - 1], t), p[|p| - 1], t)
  }

  function Rem(p: Poly, t: Poly): (s: Poly)
    requires |t| > 0
    ensures |s| == |t|
  {
    RemFrom(Zeros(|t|), p, t)
  }

  /** The quotient that long division writes down, with as many coefficients as p. */
  function Quot(p: Poly, t: Poly): (q: Poly)
    requires |t| > 0
    ensures |q| == |p|
  {
    if p == [] then [] else Quot(p[..|p| - 1], t) + [Rem(p[..|p| - 1], t)[0]]
  }

  // ------------------------------------------------------------------ one coefficient more

  lemma RemFromSnoc(r: Poly, p: Poly, b: bool, t: Poly)
    requires |r| == |t| > 0
    ensures RemFrom(r, p + [b], t) == ShiftIn(RemFrom(r, p, t), b, t)
  {
    assert (p + [b])[..|p|] == p;
  }

  lemma QuotSnoc(p: Poly, b: bool, t: Poly)
    requires |t| > 0
    ensures Quot(p + [b], t) == Quot(p, t) + [Rem(p, t)[0]]
  {
    assert (p + [b])[..|p|] == p;
  }

  lemma MulSnoc(q: Poly, b: bool, g: Poly)
    requires |g| > 0
    ensures Mul(q + [b], g) == Add(Mul(q, g) + [false], Zeros(|q|) + Scale(b, g))
  {
    assert (q + [b])[..|q|] == q;
  }

  lemma SplitLast(p: Poly)
    requires p != []
    ensures p == p[..|p| - 1] + [p[|p| - 1]]
  {
  }

  lemma ZerosSnoc(n: nat)
    ensures Zeros(n + 1) == Zeros(n) + [false]
  {
  }

  lemma AddSnoc(a: Poly, x: bool, b: Poly, y: bool)
    requires |a| == |b|
    ensures Add(a + [x], b + [y]) == Add(a, b) + [x != y]
  {
  }

  lemma ShiftInLinear(r: Poly, x: bool, s: Poly, y: bool, t: Poly)
    requires |r| == |s| == |t| > 0
    ensures ShiftIn(Add(r, s), x != y, t) == Add(ShiftIn(r, x, t), ShiftIn(s, y, t))
  {
  }

  lemma ShiftInNothing(t: Poly)
    requires |t| > 0
    ensures ShiftIn(Zeros(|t|), false, t) == Zeros(|t|)
  {
    var z := Zeros(|t|);
    assert z[1..] + [false] == z;
    assert Scale(z[0], t) == z;
    assert Add(z, z) == z;
  }

  lemma AddZeros(p: Poly)
    ensures Add(p, Zeros(|p|)) == p && Add(Zeros(|p|), p) == p && Add(p, p) == Zeros(|p|)
  {
  }

  // ------------------------------------------------------------------ what Mul computes

  lemma {:induction false} ConvolutionStep(q: Poly, b: bool, g: Poly, k: nat, n: nat)
    ensures Convolution(q + [b], g, k, n + 1)
         == ((b && Coef(g, k)) != (k > 0 && Convolution(q, g, k - 1, n)))
  {
    if n == 0 {
      assert Convolution(q + [b], g, k, 0) == false;
    } else {
      ConvolutionStep(q, b, g, k, n - 1);
      assert Coef(q + [b], n) == Coef(q, n - 1);
    }
  }

  lemma CoefOfAppend(p: Poly, b: bool, k: nat)
    ensures Coef(p + [b], k) == if k == 0 then b else Coef(p, k - 1)
  {
  }

  lemma CoefOfAdd(a: Poly, b: Poly, k: nat)
    requires |a| == |b|
    ensures Coef(Add(a, b), k) == (Coef(a, k) != Coef(b, k))
  {
  }

  lemma CoefOfScaled(n: nat, c: bool, p: Poly, k: nat)
    ensures Coef(Zeros(n) + Scale(c, p), k) == (c && Coef(p, k))
  {
  }

  /** Mul is polynomial multiplication: its coefficients are the convolution of those of its arguments. */
  lemma {:induction false} MulIsConvolution(q: Poly, g: Poly, k: nat)
    requires |g| > 0
    ensures Coef(Mul(q, g), k) == Convolution(q, g, k, |q|)
  {
    if q == [] {
      assert Mul(q, g) == Zeros(|g| - 1);
    } else {
      var n := |q| - 1;
      var m := Mul(q[..n], g);
      if k > 0 {
        MulIsConvolution(q[..n], g, k - 1);
      }
      ConvolutionStep(q[..n], q[n], g, k, n);
      SplitLast(q);
      MulSnoc(q[..n], q[n], g);
      CoefOfAppend(m, false, k);
      CoefOfScaled(n, q[n], g, k);
      CoefOfAdd(m + [false], Zeros(n) + Scale(q[n], g), k);
    }
  }

  // ------------------------------------------------------------------ linearity

  lemma {:induction false} RemFromLinear(r: Poly, s: Poly, a: Poly, b: Poly, t: Poly)
    requires |r| == |s| == |t| > 0 && |a| == |b|
    ensures RemFrom(Add(r, s), Add(a, b), t) == Add(RemFrom(r, a, t), RemFrom(s, b, t))
  {
    if a != [] {
      var a', x, b', y := a[..|a| - 1], a[|a| - 1], b[..|b| - 1], b[|b| - 1];
      RemFromLinear(r, s, a', b', t);
      SplitLast(a);
      SplitLast(b);
      AddSnoc(a', x, b', y);
      RemFromSnoc(Add(r, s), Add(a', b'), x != y, t);
      ShiftInLinear(RemFrom(r, a', t), x, RemFrom(s, b', t), y, t);
    }
  }

  lemma {:induction false} RemFromConcat(r: Poly, a: Poly, b: Poly, t: Poly)
    requires |r| == |t| > 0
    ensures RemFrom(r, a + b, t) == RemFrom(RemFrom(r, a, t), b, t)
  {
    if b == [] {
      assert a + b == a;
    } else {
      var b', y := b[..|b| - 1], b[|b| - 1];
      RemFromConcat(r, a, b', t);
      SplitLast(b);
      assert a + b == (a + b') + [y];
      RemFromSnoc(r, a + b', y, t);
    }
  }

  lemma {:induction false} RemFromZeros(n: nat, t: Poly)
    requires |t| > 0
    ensures RemFrom(Zeros(|t|), Zeros(n), t) == Zeros(|t|)
  {
    if n == 0 {
      assert Zeros(0) == [];
    } else {
      RemFromZeros(n - 1, t);
      ZerosSnoc(n - 1);
      RemFromSnoc(Zeros(|t|), Zeros(n - 1), false, t);
      ShiftInNothing(t);
    }
  }

  lemma RemLinear(a: Poly, b: Poly, t: Poly)
    requires |t| > 0 && |a| == |b|
    ensures Rem(Add(a, b), t) == Add(Rem(a, t), Rem(b, t))
  {
    AddZeros(Zeros(|t|));
    RemFromLinear(Zeros(|t|), Zeros(|t|), a, b, t);
  }

  lemma RemLeadingZeros(n: nat, p: Poly, t: Poly)
    requires |t| > 0
    ensures Rem(Zeros(n) + p, t) == Rem(p, t)
  {
    RemFromConcat(Zeros(|t|), Zeros(n), p, t);
    RemFromZeros(n, t);
  }

  /** A polynomial of degree below d is its own remainder. */
  lemma {:induction false} RemShort(p: Poly, t: Poly)
    requires |t| > 0 && |p| <= |t|
    ensures Rem(p, t) == Zeros(|t| - |p|) + p
  {
    if p != [] {
      RemShort(p[..|p| - 1], t);
    }
  }

  // ------------------------------------------------------------------ long division

  /** One step of long division: what the quotient digit r[0] takes away is what ShiftIn leaves. */
  lemma DivisionStep(r: Poly, b: bool, t: Poly)
    requires |r| == |t| > 0
    ensures r + [b] == Add(Scale(r[0], [true] + t), [false] + ShiftIn(r, b, t))
  {
    var rhs := Add(Scale(r[0], [true] + t), [false] + ShiftIn(r, b, t));
    forall i | 0 < i <= |t| ensures (r + [b])[i] == rhs[i] {
      assert (r + [b])[i] == (r[1..] + [b])[i - 1];
      assert rhs[i] == (Scale(r[0], t)[i - 1] != ShiftIn(r, b, t)[i - 1]);
    }
  }

  lemma AddPadded(n: nat, a: Poly, b: Poly)
    requires |a| == |b|
    ensures Zeros(n) + Add(a, b) == Add(Zeros(n) + a, Zeros(n) + b)
  {
  }

  lemma AddAssociates(a: Poly, b: Poly, c: Poly)
    requires |a| == |b| == |c|
    ensures Add(a, Add(b, c)) == Add(Add(a, b), c)
  {
  }

  lemma DivisionAdvance(m: Poly, n: nat, r: Poly, b: bool, t: Poly)
    requires |r| == |t| > 0 && |m| == n + |t|
    ensures Add(m, Zeros(n) + r) + [b]
         == Add(Add(m + [false], Zeros(n) + Scale(r[0], [true] + t)), Zeros(n + 1) + ShiftIn(r, b, t))
  {
    var x, y := Scale(r[0], [true] + t), [false] + ShiftIn(r, b, t);
    assert Add(m, Zeros(n) + r) + [b] == Add(m + [false], Zeros(n) + (r + [b]));
    DivisionStep(r, b, t);
    AddPadded(n, x, y);
    AddAssociates(m + [false], Zeros(n) + x, Zeros(n) + y);
    assert Zeros(n) + y == Zeros(n + 1) + ShiftIn(r, b, t);
  }

  /** p = Quot(p) * G + Rem(p), written with |p| + d coefficients. */
  lemma {:induction false} Division(p: Poly, t: Poly)
    requires |t| > 0
    ensures Zeros(|t|) + p == Add(Mul(Quot(p, t), [true] + t), Zeros(|p|) + Rem(p, t))
  {
    if p == [] {
      AddZeros(Zeros(|t|));
      assert Zeros(|t|) + p == Zeros(|t|) == Zeros(0) + Zeros(|t|);
    } else {
      var p', b, g := p[..|p| - 1], p[|p| - 1], [true] + t;
      var q', r' := Quot(p', t), Rem(p', t);
      Division(p', t);
      SplitLast(p);
      assert Zeros(|t|) + p == (Zeros(|t|) + p') + [b];
      DivisionAdvance(Mul(q', g), |p'|, r', b, t);
      QuotSnoc(p', b, t);
      MulSnoc(q', r'[0], g);
      RemFromSnoc(Zeros(|t|), p', b, t);
    }
  }

  lemma {:induction false} RemOfProduct(q: Poly, t: Poly)
    requires |t| > 0
    ensures Rem(Mul(q, [true] + t), t) == Zeros(|t|)
  {
    var g, d := [true] + t, |t|;
    if q == [] {
      RemFromZeros(d, t);
    } else {
      var q', b := q[..|q| - 1], q[|q| - 1];
      var m := Mul(q', g);
      RemOfProduct(q', t);
      SplitLast(q);
      MulSnoc(q', b, g);
      RemFromSnoc(Zeros(d), m, false, t);
      ShiftInNothing(t);
      RemLeadingZeros(|q'|, Scale(b, g), t);
      RemOfScaledGenerator(b, t);
      RemLinear(m + [false], Zeros(|q'|) + Scale(b, g), t);
      AddZeros(Zeros(d));
    }
  }

  lemma RemFull(p: Poly, t: Poly)
    requires |p| == |t| > 0
    ensures Rem(p, t) == p
  {
    RemShort(p, t);
    assert Zeros(0) + p == p;
  }

  lemma ShiftInCancels(front: Poly, b: bool, t: Poly)
    requires |front| == |t| > 0 && front[0] && front[1..] + [b] == t
    ensures ShiftIn(front, b, t) == Zeros(|t|)
  {
    AddZeros(t);
  }

  lemma RemOfFront(front: Poly, b: bool, t: Poly)
    requires |front| == |t| > 0 && front[0] && front[1..] + [b] == t
    ensures Rem(front + [b], t) == Zeros(|t|)
  {
    RemFull(front, t);
    RemFromSnoc(Zeros(|t|), front, b, t);
    ShiftInCancels(front, b, t);
  }

  lemma RemOfGenerator(t: Poly)
    requires |t| > 0
    ensures Rem([true] + t, t) == Zeros(|t|)
  {
    var front, b := [true] + t[..|t| - 1], t[|t| - 1];
    assert front[1..] + [b] == t;
    RemOfFront(front, b, t);
    assert [true] + t == front + [b];
  }

  lemma RemOfScaledGenerator(c: bool, t: Poly)
    requires |t| > 0
    ensures Rem(Scale(c, [true] + t), t) == Zeros(|t|)
  {
    RemOfGenerator(t);
    RemFromZeros(|t| + 1, t);
  }

  lemma SamePolyIsPadding(a: Poly, b: Poly)
    requires |a| <= |b|
    ensures SamePoly(a, b) <==> b == Zeros(|b| - |a|) + a
  {
    var n := |b| - |a|;
    if SamePoly(a, b) {
      forall i | 0 <= i < |b| ensures b[i] == (Zeros(n) + a)[i] {
        assert Coef(a, |b| - 1 - i) == Coef(b, |b| - 1 - i);
      }
    }
  }

  lemma RemSamePoly(a: Poly, b: Poly, t: Poly)
    requires |t| > 0 && SamePoly(a, b)
    ensures Rem(a, t) == Rem(b, t)
  {
    if |a| <= |b| {
      SamePolyIsPadding(a, b);
      RemLeadingZeros(|b| - |a|, a, t);
    } else {
      SamePolyIsPadding(b, a);
      RemLeadingZeros(|a| - |b|, b, t);
    }
  }

  /** The remainder that the shift register computes is zero exactly for the multiples of G. */
  lemma RemainderDecidesDivisibility(p: Poly, t: Poly)
    requires |t| > 0
    ensures Rem(p, t) == Zeros(|t|) <==> Divides([true] + t, p)
  {
    var g := [true] + t;
    if Rem(p, t) == Zeros(|t|) {
      Division(p, t);
      var m := Mul(Quot(p, t), g);
      assert Zeros(|t|) + p == m;
      SamePolyIsPadding(p, m);
    }
    if q: Poly :| SamePoly(Mul(q, g), p) {
      RemOfProduct(q, t);
      RemSamePoly(Mul(q, g), p, t);
    }
  }

  // ------------------------------------------------------------------ multiplying by x is invertible

  /** With constant term 1, one zero shifted in loses nothing. */
  lemma ShiftInZeroInjective(r: Poly, t: Poly)
    requires |r| == |t| > 0 && t[|t| - 1]
    ensures ShiftIn(r, false, t) == Zeros(|t|) <==> r == Zeros(|t|)
  {
    var d := |t|;
    var s := ShiftIn(r, false, t);
    if s == Zeros(d) {
      assert s[d - 1] == r[0];
      forall i | 0 <= i < d ensures !r[i] {
        if i > 0 {
          assert !s[i - 1];
        }
      }
      assert r == Zeros(d);
    }
  }

  lemma OneMoreZero(r: Poly, n: nat, t: Poly)
    requires |r| == |t| > 0
    ensures RemFrom(r, Zeros(n + 1), t) == ShiftIn(RemFrom(r, Zeros(n), t), false, t)
  {
    ZerosSnoc(n);
    RemFromSnoc(r, Zeros(n), false, t);
  }

  lemma {:induction false} RemFromZerosInjective(r: Poly, n: nat, t: Poly)
    requires |r| == |t| > 0 && t[|t| - 1]
    ensures RemFrom(r, Zeros(n), t) == Zeros(|t|) <==> r == Zeros(|t|)
  {
    if n > 0 {
      RemFromZerosInjective(r, n - 1, t);
      OneMoreZero(r, n - 1, t);
      ShiftInZeroInjective(RemFrom(r, Zeros(n - 1), t), t);
    }
  }

  /** Trailing zeros (a power of x) do not matter to divisibility by a generator with constant term 1. */
  lemma RemTrailingZeros(p: Poly, n: nat, t: Poly)
    requires |t| > 0 && t[|t| - 1]
    ensures Rem(p + Zeros(n), t) == Zeros(|t|) <==> Rem(p, t) == Zeros(|t|)
  {
    RemFromConcat(Zeros(|t|), p, Zeros(n), t);
    RemFromZerosInjective(Rem(p, t), n, t);
  }
}
