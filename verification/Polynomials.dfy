/** Polynomials over a field as coefficient sequences, lowest degree first
    (pkg/base/polynomials/polynomial.go). */
module Polynomials {
  import opened Fields

  type Poly<S> = seq<S>

  /** The coefficient of degree i; zero past the end. */
  function Coeff<S(!new)>(F: Field<S>, p: Poly<S>, i: int): S {
    if 0 <= i < |p| then p[i] else F.zero
  }

  /** Same polynomial, whatever the trailing zeros. */
  ghost predicate PolyEqual<S(!new)>(F: Field<S>, p: Poly<S>, q: Poly<S>) {
    forall i: int :: Coeff(F, p, i) == Coeff(F, q, i)
  }

  /** d bounds the degree: no non-zero coefficient lies above it. */
  ghost predicate DegreeAtMost<S(!new)>(F: Field<S>, p: Poly<S>, d: int) {
    forall i: int :: i > d ==> Coeff(F, p, i) == F.zero
  }

  /** d is the degree; -1 for the zero polynomial. */
  ghost predicate IsDegree<S(!new)>(F: Field<S>, p: Poly<S>, d: int) {
    d >= -1 && DegreeAtMost(F, p, d) && (d >= 0 ==> Coeff(F, p, d) != F.zero)
  }

  /** The terms p_i * q_(k - i) with i below n. */
  ghost function Convolution<S(!new)>(F: Field<S>, p: Poly<S>, q: Poly<S>, k: int, n: nat): S {
    if n == 0 then F.zero
    else F.add(Convolution(F, p, q, k, n - 1), F.mul(Coeff(F, p, n - 1), Coeff(F, q, k - (n - 1))))
  }

  /** The coefficient of degree k of the product. */
  ghost function ProductCoeff<S(!new)>(F: Field<S>, p: Poly<S>, q: Poly<S>, k: int): S {
    Convolution(F, p, q, k, |p|)
  }

  // ----- Degree, Equal, Add, Neg, Mul

  method Degree<S(==, !new)>(F: Field<S>, p: Poly<S>) returns (d: int)
    ensures IsDegree(F, p, d)
    ensures d < |p|
  {
    d := |p| - 1;
    while d >= 0 && p[d] == F.zero
      invariant -1 <= d < |p| && DegreeAtMost(F, p, d)
    {
      d := d - 1;
    }
  }

  method Equal<S(==, !new)>(F: Field<S>, p: Poly<S>, q: Poly<S>) returns (b: bool)
    ensures b <==> PolyEqual(F, p, q)
  {
    var lo := if |p| < |q| then |p| else |q|;
    for i := 0 to lo
      invariant forall j :: 0 <= j < i ==> p[j] == q[j]
    {
      if p[i] != q[i] {
        assert Coeff(F, p, i) != Coeff(F, q, i);
        return false;
      }
    }
    var i := |p|;
    while i < |q|
      invariant |p| <= i && (i <= |q| || i == |p|)
      invariant forall j :: |p| <= j < i ==> q[j] == F.zero
    {
      if q[i] != F.zero {
        assert Coeff(F, p, i) != Coeff(F, q, i);
        return false;
      }
      i := i + 1;
    }
    i := |q|;
    while i < |p|
      invariant |q| <= i && (i <= |p| || i == |q|)
      invariant forall j :: |q| <= j < i ==> p[j] == F.zero
    {
      if p[i] != F.zero {
        assert Coeff(F, p, i) != Coeff(F, q, i);
        return false;
      }
      i := i + 1;
    }
    return true;
  }

  method Add<S(==, !new)>(F: Field<S>, p: Poly<S>, q: Poly<S>) returns (r: Poly<S>)
    requires F.Lawful()
    ensures |r| == if |p| < |q| then |q| else |p|
    ensures forall i: int :: Coeff(F, r, i) == F.add(Coeff(F, p, i), Coeff(F, q, i))
  {
    var n := if |p| < |q| then |q| else |p|;
    r := [];
    for i := 0 to n
      invariant |r| == i && forall j :: 0 <= j < i ==> r[j] == F.add(Coeff(F, p, j), Coeff(F, q, j))
    {
      var c;
      if i < |p| && i < |q| {
        c := F.add(p[i], q[i]);
      } else if i < |q| {
        F.ZeroAdd(q[i]);
        c := q[i];
      } else {
        assert F.AddZero(p[i]);
        c := p[i];
      }
      r := r + [c];
    }
    assert F.AddZero(F.zero);
  }

  /** Schoolbook multiplication computes the convolution. */
  method Mul<S(==, !new)>(F: Field<S>, p: Poly<S>, q: Poly<S>) returns (r: Poly<S>)
    requires F.Lawful() && |p| > 0 && |q| > 0
    ensures |r| == |p| + |q| - 1
    ensures forall k: int :: Coeff(F, r, k) == ProductCoeff(F, p, q, k)
  {
    var n := |p| + |q| - 1;
    var c := new S[n](_ => F.zero);
    for l := 0 to |p|
      invariant forall k :: 0 <= k < n ==> c[k] == Convolution(F, p, q, k, l)
    {
      AddShiftedRow(F, c, p, q, l);
    }
    r := c[..];
    forall k: int | !(0 <= k < n) ensures ProductCoeff(F, p, q, k) == F.zero {
      OutOfRange(F, p, q, k, |p|);
    }
  }

  /** Adds p[l] * x^l * q to the accumulator. */
  method AddShiftedRow<S(==, !new)>(F: Field<S>, c: array<S>, p: Poly<S>, q: Poly<S>, l: nat)
    requires F.Lawful() && l < |p| && c.Length == |p| + |q| - 1
    requires forall k :: 0 <= k < c.Length ==> c[k] == Convolution(F, p, q, k, l)
    modifies c
    ensures forall k :: 0 <= k < c.Length ==> c[k] == Convolution(F, p, q, k, l + 1)
  {
    for m := 0 to |q|
      invariant forall k :: 0 <= k < c.Length && l <= k < l + m ==> c[k] == Convolution(F, p, q, k, l + 1)
      invariant forall k :: 0 <= k < c.Length && !(l <= k < l + m) ==> c[k] == Convolution(F, p, q, k, l)
    {
      c[l + m] := F.add(c[l + m], F.mul(p[l], q[m]));
      assert c[l + m] == Convolution(F, p, q, l + m, l + 1);
    }
    forall k | 0 <= k < c.Length && !(l <= k < l + |q|)
      ensures c[k] == Convolution(F, p, q, k, l + 1)
    {
      F.MulZero(p[l]);
      assert F.AddZero(Convolution(F, p, q, k, l));
    }
  }

  lemma {:induction false} OutOfRange<S(!new)>(F: Field<S>, p: Poly<S>, q: Poly<S>, k: int, n: nat)
    requires F.Lawful() && n <= |p| && !(0 <= k < |p| + |q| - 1)
    ensures Convolution(F, p, q, k, n) == F.zero
  {
    if n > 0 {
      OutOfRange(F, p, q, k, n - 1);
      F.MulZero(Coeff(F, p, n - 1));
      assert F.AddZero(F.zero);
    }
  }

  // ----- algebra of convolutions

  /** The convolution is linear in its second argument. */
  lemma {:induction false} ConvolutionLinear<S(!new)>(F: Field<S>, p: Poly<S>, a: Poly<S>, b: Poly<S>, c: Poly<S>, k: int, n: nat)
    requires F.Lawful() && forall i: int :: Coeff(F, c, i) == F.add(Coeff(F, a, i), Coeff(F, b, i))
    ensures Convolution(F, p, c, k, n) == F.add(Convolution(F, p, a, k, n), Convolution(F, p, b, k, n))
  {
    if n == 0 {
      assert F.AddZero(F.zero);
    } else {
      ConvolutionLinear(F, p, a, b, c, k, n - 1);
      var x, i := Coeff(F, p, n - 1), k - (n - 1);
      assert F.Distrib(x, Coeff(F, a, i), Coeff(F, b, i));
      F.AddSwap4(Convolution(F, p, a, k, n - 1), Convolution(F, p, b, k, n - 1), F.mul(x, Coeff(F, a, i)), F.mul(x, Coeff(F, b, i)));
    }
  }

  /** A polynomial with the single coefficient c at degree s shifts and scales. */
  lemma {:induction false} ConvolutionMonomial<S(!new)>(F: Field<S>, p: Poly<S>, m: Poly<S>, s: nat, c: S, k: int, n: nat)
    requires F.Lawful() && forall i: int :: Coeff(F, m, i) == if i == s then c else F.zero
    ensures Convolution(F, p, m, k, n) == if 0 <= k - s < n then F.mul(Coeff(F, p, k - s), c) else F.zero
  {
    if n > 0 {
      ConvolutionMonomial(F, p, m, s, c, k, n - 1);
      F.MulZero(Coeff(F, p, n - 1));
      assert F.AddZero(Convolution(F, p, m, k, n - 1));
      F.ZeroAdd(F.mul(Coeff(F, p, n - 1), Coeff(F, m, k - (n - 1))));
    }
  }

  /** The convolution depends on coefficients only. */
  lemma {:induction false} ConvolutionCong<S(!new)>(F: Field<S>, p: Poly<S>, q: Poly<S>, r: Poly<S>, k: int, n: nat)
    requires PolyEqual(F, q, r)
    ensures Convolution(F, p, q, k, n) == Convolution(F, p, r, k, n)
  {
    if n > 0 {
      ConvolutionCong(F, p, q, r, k, n - 1);
    }
  }

  /** Above the degrees every term vanishes except the product of the leading coefficients. */
  lemma {:induction false} LeadingProduct<S(!new)>(F: Field<S>, p: Poly<S>, q: Poly<S>, d: nat, e: nat, n: nat)
    requires F.Lawful() && DegreeAtMost(F, p, d) && DegreeAtMost(F, q, e)
    ensures Convolution(F, p, q, d + e, n) == if n <= d then F.zero else F.mul(Coeff(F, p, d), Coeff(F, q, e))
  {
    if n > 0 {
      LeadingProduct(F, p, q, d, e, n - 1);
      var x, y := Coeff(F, p, n - 1), Coeff(F, q, d + e - (n - 1));
      F.MulZero(x);
      F.MulZero(y);
      assert F.AddZero(Convolution(F, p, q, d + e, n - 1));
      F.ZeroAdd(F.mul(x, y));
    }
  }

  // ----- long division

  /** p == q * quot + rem */
  ghost predicate DivisionIdentity<S(!new)>(F: Field<S>, p: Poly<S>, q: Poly<S>, quot: Poly<S>, rem: Poly<S>) {
    forall k: int :: Coeff(F, p, k) == F.add(ProductCoeff(F, q, quot, k), Coeff(F, rem, k))
  }

  /** Moving factor * x^s * q from the remainder to the quotient keeps the identity. */
  lemma DivisionStep<S(!new)>(F: Field<S>, p: Poly<S>, q: Poly<S>, quot: Poly<S>, rem: Poly<S>, quot': Poly<S>, rem': Poly<S>, s: nat, factor: S)
    requires F.Lawful() && DivisionIdentity(F, p, q, quot, rem) && Coeff(F, quot, s) == F.zero
    requires forall i: int :: Coeff(F, quot', i) == if i == s then factor else Coeff(F, quot, i)
    requires forall i: int :: Coeff(F, rem', i) == F.Sub(Coeff(F, rem, i), F.mul(Coeff(F, q, i - s), factor))
    ensures DivisionIdentity(F, p, q, quot', rem')
  {
    var m := seq(s + 1, i => if i == s then factor else F.zero);
    assert forall i: int :: Coeff(F, m, i) == if i == s then factor else F.zero;
    forall i: int ensures Coeff(F, quot', i) == F.add(Coeff(F, quot, i), Coeff(F, m, i)) {
      assert F.AddZero(Coeff(F, quot, i));
      F.ZeroAdd(Coeff(F, m, i));
    }
    forall k: int
      ensures Coeff(F, p, k) == F.add(ProductCoeff(F, q, quot', k), Coeff(F, rem', k))
    {
      ConvolutionLinear(F, q, quot, m, quot', k, |q|);
      ConvolutionMonomial(F, q, m, s, factor, k, |q|);
      var t := F.mul(Coeff(F, q, k - s), factor);
      F.MulZero(factor);
      assert ProductCoeff(F, q, m, k) == t;
      var X, r := ProductCoeff(F, q, quot, k), Coeff(F, rem, k);
      calc {
        F.add(F.add(X, t), F.Sub(r, t));
        { F.AddSwap4(X, t, r, F.neg(t)); }
        F.add(F.add(X, r), F.add(t, F.neg(t)));
        { assert F.AddNeg(t) && F.AddZero(F.add(X, r)); }
        F.add(X, r);
      }
    }
  }

  datatype Division<S> = Quotient(quot: Poly<S>, rem: Poly<S>) | DivisionByZero

  ghost predicate IsZeroPoly<S(!new)>(F: Field<S>, p: Poly<S>) {
    forall i: int :: Coeff(F, p, i) == F.zero
  }

  /** The remainder has smaller degree than q. */
  ghost predicate Reduced<S(!new)>(F: Field<S>, q: Poly<S>, rem: Poly<S>) {
    forall d :: IsDegree(F, q, d) ==> DegreeAtMost(F, rem, d - 1)
  }

  lemma DegreeUnique<S(!new)>(F: Field<S>, p: Poly<S>, d: int, e: int)
    requires IsDegree(F, p, d) && IsDegree(F, p, e)
    ensures d == e
  {
  }

  /** Cancels the leading term of rem, which has degree degR. */
  method CancelLeading<S(==, !new)>(F: Field<S>, rem: array<S>, q: Poly<S>, degQ: nat, degR: nat, factor: S)
    requires F.Lawful() && degQ < |q| && degQ <= degR < rem.Length && IsDegree(F, q, degQ)
    requires factor == F.mul(rem[degR], F.inv(q[degQ]))
    modifies rem
    ensures forall i: int :: Coeff(F, rem[..], i) == F.Sub(Coeff(F, old(rem[..]), i), F.mul(Coeff(F, q, i - (degR - degQ)), factor))
    ensures rem[degR] == F.zero
    ensures forall i :: degR < i < rem.Length ==> rem[i] == old(rem[i])
  {
    var shift := degR - degQ;
    for i := 0 to degQ + 1
      invariant forall j :: shift <= j < shift + i ==> rem[j] == F.Sub(old(rem[j]), F.mul(q[j - shift], factor))
      invariant forall j :: 0 <= j < rem.Length && !(shift <= j < shift + i) ==> rem[j] == old(rem[j])
    {
      rem[i + shift] := F.Sub(rem[i + shift], F.mul(q[i], factor));
    }
    forall i: int
      ensures Coeff(F, rem[..], i) == F.Sub(Coeff(F, old(rem[..]), i), F.mul(Coeff(F, q, i - shift), factor))
    {
      if !(shift <= i <= degR) {
        F.MulZero(factor);
        F.SubZero(Coeff(F, old(rem[..]), i));
        assert Coeff(F, q, i - shift) == F.zero;
      }
    }
    var lc, x := q[degQ], old(rem[degR]);
    assert F.MulComm(lc, factor) && F.MulAssoc(x, F.inv(lc), lc) && F.MulComm(F.inv(lc), lc) && F.MulInv(lc) && F.MulOne(x);
    F.SubSelf(x);
  }

  /** Polynomial long division. */
  method EuclideanDiv<S(==, !new)>(F: Field<S>, p: Poly<S>, q: Poly<S>) returns (r: Division<S>)
    requires F.Lawful() && |p| > 0 && |q| > 0
    ensures r.DivisionByZero? <==> IsZeroPoly(F, q)
    ensures r.Quotient? ==> DivisionIdentity(F, p, q, r.quot, r.rem) && Reduced(F, q, r.rem)
    ensures r.Quotient? ==> |r.quot| > 0 && (|r.quot| == 1 || r.quot[|r.quot| - 1] != F.zero)
  {
    var degQ := Degree(F, q);
    if degQ < 0 {
      return DivisionByZero;
    }
    assert Coeff(F, q, degQ) != F.zero;
    forall d | IsDegree(F, q, d) ensures d == degQ {
      DegreeUnique(F, q, d, degQ);
    }
    var degR := Degree(F, p);
    if degR < 0 {
      ZeroQuotient(F, p, q);
      assert PolyEqual(F, p, [F.zero]);
      return Quotient([F.zero], [F.zero]);
    }
    if degR < degQ {
      ZeroQuotient(F, p, q);
      return Quotient([F.zero], p);
    }

    var quot, rem := LongDivide(F, p, q, degQ, degR);
    return Quotient(quot, rem);
  }

  /** The division loop proper, for deg(p) >= deg(q). */
  method LongDivide<S(==, !new)>(F: Field<S>, p: Poly<S>, q: Poly<S>, degQ: nat, degP: nat) returns (quot: Poly<S>, rem: Poly<S>)
    requires F.Lawful() && IsDegree(F, q, degQ) && IsDegree(F, p, degP) && degQ < |q| && degQ <= degP < |p|
    ensures DivisionIdentity(F, p, q, quot, rem) && DegreeAtMost(F, rem, degQ - 1)
    ensures |quot| > 0 && (|quot| == 1 || quot[|quot| - 1] != F.zero)
  {
    var r := new S[|p|](i requires 0 <= i < |p| => p[i]);
    var c := new S[degP - degQ + 1](_ => F.zero);
    assert r[..] == p;
    StartDivision(F, p, q, c[..]);
    var degR: int := degP;
    while degR >= degQ
      invariant -1 <= degR < r.Length && degR - degQ < c.Length
      invariant DivisionIdentity(F, p, q, c[..], r[..])
      invariant IsDegree(F, r[..], degR)
      invariant forall i :: 0 <= i < c.Length && i <= degR - degQ ==> c[i] == F.zero
    {
      degR := DivisionRound(F, p, q, degQ, degR, c, r);
    }
    rem := if degR < 0 then [F.zero] else r[..degR + 1];
    quot := Trim(F, c[..]);
    SameDivision(F, p, q, c[..], r[..], quot, rem);
  }

  /** Drops trailing zero coefficients, keeping at least one. */
  method Trim<S(==, !new)>(F: Field<S>, c: Poly<S>) returns (t: Poly<S>)
    requires |c| > 0
    ensures PolyEqual(F, c, t) && |t| > 0 && (|t| == 1 || t[|t| - 1] != F.zero)
  {
    var n := |c|;
    while n > 1 && c[n - 1] == F.zero
      invariant 1 <= n <= |c|
      invariant forall i :: n <= i < |c| ==> c[i] == F.zero
    {
      n := n - 1;
    }
    return c[..n];
  }

  lemma SameDivision<S(!new)>(F: Field<S>, p: Poly<S>, q: Poly<S>, a: Poly<S>, r: Poly<S>, b: Poly<S>, s: Poly<S>)
    requires DivisionIdentity(F, p, q, a, r) && PolyEqual(F, a, b) && PolyEqual(F, r, s)
    ensures DivisionIdentity(F, p, q, b, s)
  {
    forall k: int ensures Coeff(F, p, k) == F.add(ProductCoeff(F, q, b, k), Coeff(F, s, k)) {
      ConvolutionCong(F, q, a, b, k, |q|);
    }
  }

  lemma ZeroQuotient<S(!new)>(F: Field<S>, p: Poly<S>, q: Poly<S>)
    requires F.Lawful()
    ensures DivisionIdentity(F, p, q, [F.zero], p)
  {
    StartDivision(F, p, q, [F.zero]);
  }

  lemma StartDivision<S(!new)>(F: Field<S>, p: Poly<S>, q: Poly<S>, z: Poly<S>)
    requires F.Lawful() && forall i :: 0 <= i < |z| ==> z[i] == F.zero
    ensures DivisionIdentity(F, p, q, z, p)
  {
    forall k: int ensures Coeff(F, p, k) == F.add(ProductCoeff(F, q, z, k), Coeff(F, p, k)) {
      ConvolutionMonomial(F, q, z, 0, F.zero, k, |q|);
      F.MulZero(Coeff(F, q, k));
      F.ZeroAdd(Coeff(F, p, k));
    }
  }

  /** One round of the division loop. */
  method DivisionRound<S(==, !new)>(F: Field<S>, ghost p: Poly<S>, q: Poly<S>, degQ: nat, degR: nat, quot: array<S>, rem: array<S>)
    returns (d: int)
    requires F.Lawful() && degQ < |q| && IsDegree(F, q, degQ) && quot != rem
    requires degQ <= degR < rem.Length && degR - degQ < quot.Length
    requires DivisionIdentity(F, p, q, quot[..], rem[..]) && IsDegree(F, rem[..], degR)
    requires forall i :: 0 <= i <= degR - degQ ==> quot[i] == F.zero
    modifies quot, rem
    ensures -1 <= d < degR
    ensures DivisionIdentity(F, p, q, quot[..], rem[..]) && IsDegree(F, rem[..], d)
    ensures forall i :: 0 <= i < quot.Length && i <= d - degQ ==> quot[i] == F.zero
  {
    ghost var Q, R := quot[..], rem[..];
    var factor := F.mul(rem[degR], F.inv(q[degQ]));
    var shift := degR - degQ;
    quot[shift] := factor;
    assert forall i: int :: Coeff(F, quot[..], i) == if i == shift then factor else Coeff(F, Q, i);
    CancelLeading(F, rem, q, degQ, degR, factor);
    DivisionStep(F, p, q, Q, R, quot[..], rem[..], shift, factor);
    assert DegreeAtMost(F, rem[..], degR) by {
      forall i: int | i > degR ensures Coeff(F, rem[..], i) == F.zero {
        assert Coeff(F, R, i) == F.zero;
      }
    }
    d := degR;
    while d >= 0 && rem[d] == F.zero
      invariant -1 <= d <= degR && DegreeAtMost(F, rem[..], d)
      invariant d == degR ==> rem[d] == F.zero
    {
      d := d - 1;
    }
  }

  // ----- uniqueness

  lemma {:induction false} DegreeExists<S(!new)>(F: Field<S>, p: Poly<S>, n: int) returns (d: int)
    requires -1 <= n && DegreeAtMost(F, p, n)
    ensures IsDegree(F, p, d)
    decreases n + 1
  {
    if n == -1 || Coeff(F, p, n) != F.zero {
      d := n;
    } else {
      d := DegreeExists(F, p, n - 1);
    }
  }

  /** The product of q and the difference of two quotients is a difference of remainders. */
  lemma DifferenceVanishes<S(!new)>(F: Field<S>, p: Poly<S>, q: Poly<S>, a: Poly<S>, r: Poly<S>, b: Poly<S>, s: Poly<S>, D: Poly<S>, k: int)
    requires F.Lawful() && DivisionIdentity(F, p, q, a, r) && DivisionIdentity(F, p, q, b, s)
    requires forall i: int :: Coeff(F, a, i) == F.add(Coeff(F, b, i), Coeff(F, D, i))
    requires Coeff(F, r, k) == F.zero && Coeff(F, s, k) == F.zero
    ensures ProductCoeff(F, q, D, k) == F.zero
  {
    ConvolutionLinear(F, q, b, D, a, k, |q|);
    var X, Y := ProductCoeff(F, q, b, k), ProductCoeff(F, q, D, k);
    assert F.AddZero(F.add(X, Y)) && F.AddZero(X) && F.AddComm(X, Y);
    F.ZeroAdd(X);
    F.AddCancel(Y, F.zero, X);
  }

  /** Quotient and remainder are determined up to Equal. */
  lemma DivisionUnique<S(!new)>(F: Field<S>, p: Poly<S>, q: Poly<S>, a: Poly<S>, r: Poly<S>, b: Poly<S>, s: Poly<S>, d: nat)
    requires F.Lawful() && IsDegree(F, q, d)
    requires DivisionIdentity(F, p, q, a, r) && DegreeAtMost(F, r, d - 1)
    requires DivisionIdentity(F, p, q, b, s) && DegreeAtMost(F, s, d - 1)
    ensures PolyEqual(F, a, b) && PolyEqual(F, r, s)
  {
    var n := if |a| < |b| then |b| else |a|;
    var D := seq(n, i requires 0 <= i < n => F.Sub(Coeff(F, a, i), Coeff(F, b, i)));
    forall i: int
      ensures Coeff(F, D, i) == F.Sub(Coeff(F, a, i), Coeff(F, b, i))
      ensures Coeff(F, a, i) == F.add(Coeff(F, b, i), Coeff(F, D, i))
    {
      F.SubSelf(F.zero);
      F.AddSub(Coeff(F, a, i), Coeff(F, b, i));
      assert F.AddComm(Coeff(F, D, i), Coeff(F, b, i));
    }
    var e := DegreeExists(F, D, n);
    if e >= 0 {
      DifferenceVanishes(F, p, q, a, r, b, s, D, d + e);
      LeadingProduct(F, q, D, d, e, |q|);
      F.NoZeroDivisors(Coeff(F, q, d), Coeff(F, D, e));
      assert false;
    }
    forall i: int ensures Coeff(F, a, i) == Coeff(F, b, i) {
      assert Coeff(F, D, i) == F.zero;
      F.SubIsZero(Coeff(F, a, i), Coeff(F, b, i));
    }
    forall k: int ensures Coeff(F, r, k) == Coeff(F, s, k) {
      ConvolutionCong(F, q, a, b, k, |q|);
      var X := ProductCoeff(F, q, a, k);
      assert F.AddComm(X, Coeff(F, r, k)) && F.AddComm(X, Coeff(F, s, k));
      F.AddCancel(Coeff(F, r, k), Coeff(F, s, k), X);
    }
  }
}
