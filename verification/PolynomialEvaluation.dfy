/** Evaluation is a ring homomorphism: what Add, Mul and EuclideanDiv compute, seen through Eval. */
module PolynomialEvaluation {
  import opened Fields
  import opened Modules
  import opened Polynomials
  import opened Lifting

  /** The value of p at t. */
  ghost function Val<S(!new)>(F: Field<S>, p: Poly<S>, t: S): S {
    CoefficientSum(FieldModule(F), p, t)
  }

  ghost function Tail<S(!new)>(p: Poly<S>): Poly<S> {
    if |p| == 0 then [] else p[1..]
  }

  lemma TailCoeff<S(!new)>(F: Field<S>, p: Poly<S>, i: int)
    requires i >= 0
    ensures Coeff(F, Tail(p), i) == Coeff(F, p, i + 1)
  {
  }

  lemma ValStep<S(!new)>(F: Field<S>, p: Poly<S>, t: S)
    requires F.Lawful()
    ensures Val(F, p, t) == F.add(F.mul(t, Val(F, Tail(p), t)), Coeff(F, p, 0))
  {
    FieldModuleLawful(F);
    if |p| == 0 {
      F.MulZero(t);
      assert F.AddZero(F.zero);
    } else {
      HornerStep(FieldModule(F), p, t);
    }
  }

  /** Coefficient by coefficient, r is p + c * q. */
  ghost predicate Combined<S(!new)>(F: Field<S>, r: Poly<S>, p: Poly<S>, c: S, q: Poly<S>) {
    forall i: int :: i >= 0 ==> Coeff(F, r, i) == F.add(Coeff(F, p, i), F.mul(c, Coeff(F, q, i)))
  }

  /** Evaluation is linear, whatever the lengths and trailing zeros. */
  lemma {:induction false} ValCombined<S(!new)>(F: Field<S>, r: Poly<S>, p: Poly<S>, c: S, q: Poly<S>, t: S)
    requires F.Lawful() && Combined(F, r, p, c, q)
    ensures Val(F, r, t) == F.add(Val(F, p, t), F.mul(c, Val(F, q, t)))
    decreases |r| + |p| + |q|
  {
    hide Val;
    if |r| + |p| + |q| == 0 {
      ValEmpty(F, t);
      F.MulZero(c);
      assert F.AddZero(F.zero);
    } else {
      forall i: int | i >= 0 ensures Coeff(F, Tail(r), i) == F.add(Coeff(F, Tail(p), i), F.mul(c, Coeff(F, Tail(q), i))) {
        TailCoeff(F, r, i);
        TailCoeff(F, p, i);
        TailCoeff(F, q, i);
      }
      ValCombined(F, Tail(r), Tail(p), c, Tail(q), t);
      ValStep(F, r, t);
      ValStep(F, p, t);
      ValStep(F, q, t);
      Regroup(F, t, Val(F, Tail(p), t), c, Val(F, Tail(q), t), Coeff(F, p, 0), Coeff(F, q, 0));
    }
  }

  lemma ValEmpty<S(!new)>(F: Field<S>, t: S)
    ensures Val(F, [], t) == F.zero
  {
  }

  /** t * (P + c * Q) + (p + c * q) == (t * P + p) + c * (t * Q + q) */
  lemma Regroup<S(!new)>(F: Field<S>, t: S, P: S, c: S, Q: S, p: S, q: S)
    requires F.Lawful()
    ensures F.add(F.mul(t, F.add(P, F.mul(c, Q))), F.add(p, F.mul(c, q))) == F.add(F.add(F.mul(t, P), p), F.mul(c, F.add(F.mul(t, Q), q)))
  {
    assert F.Distrib(t, P, F.mul(c, Q)) && F.Distrib(c, F.mul(t, Q), q);
    assert F.MulAssoc(t, c, Q) && F.MulComm(t, c) && F.MulAssoc(c, t, Q);
    F.AddSwap4(F.mul(t, P), F.mul(c, F.mul(t, Q)), p, F.mul(c, q));
  }

  /** Equal polynomials have equal values. */
  lemma ValEqual<S(!new)>(F: Field<S>, p: Poly<S>, q: Poly<S>, t: S)
    requires F.Lawful() && PolyEqual(F, p, q)
    ensures Val(F, p, t) == Val(F, q, t)
  {
    forall i: int | i >= 0 ensures Coeff(F, p, i) == F.add(Coeff(F, q, i), F.mul(F.one, Coeff(F, [], i))) {
      F.MulZero(F.one);
      assert F.AddZero(Coeff(F, q, i));
    }
    ValCombined(F, p, q, F.one, [], t);
    ValEmpty(F, t);
    F.MulZero(F.one);
    assert F.AddZero(Val(F, q, t));
  }

  /** The value of a sum is the sum of the values. */
  lemma ValAdd<S(!new)>(F: Field<S>, r: Poly<S>, p: Poly<S>, q: Poly<S>, t: S)
    requires F.Lawful() && forall i: int :: Coeff(F, r, i) == F.add(Coeff(F, p, i), Coeff(F, q, i))
    ensures Val(F, r, t) == F.add(Val(F, p, t), Val(F, q, t))
  {
    forall i: int | i >= 0 ensures Coeff(F, r, i) == F.add(Coeff(F, p, i), F.mul(F.one, Coeff(F, q, i))) {
      F.OneMul(Coeff(F, q, i));
    }
    ValCombined(F, r, p, F.one, q, t);
    F.OneMul(Val(F, q, t));
  }

  /** Splitting off the constant term of p in a product. */
  lemma {:induction false} ConvolutionHead<S(!new)>(F: Field<S>, p: Poly<S>, q: Poly<S>, k: int, n: nat)
    requires F.Lawful()
    ensures Convolution(F, p, q, k, n + 1) == F.add(F.mul(Coeff(F, p, 0), Coeff(F, q, k)), Convolution(F, Tail(p), q, k - 1, n))
  {
    var head := F.mul(Coeff(F, p, 0), Coeff(F, q, k));
    if n == 0 {
      F.ZeroAdd(head);
      assert F.AddZero(head);
      assert Convolution(F, p, q, k, 0) == F.zero;
    } else {
      ConvolutionHead(F, p, q, k, n - 1);
      TailCoeff(F, p, n - 1);
      assert F.AddAssoc(head, Convolution(F, Tail(p), q, k - 1, n - 1), F.mul(Coeff(F, p, n), Coeff(F, q, k - n)));
      assert k - 1 - (n - 1) == k - n;
    }
  }

  /** A polynomial with the coefficients of the product. */
  ghost function Product<S(!new)>(F: Field<S>, p: Poly<S>, q: Poly<S>): Poly<S> {
    seq(|p| + |q|, k => ProductCoeff(F, p, q, k))
  }

  lemma ProductCoeffs<S(!new)>(F: Field<S>, p: Poly<S>, q: Poly<S>, k: int)
    requires F.Lawful()
    ensures Coeff(F, Product(F, p, q), k) == ProductCoeff(F, p, q, k)
  {
    if !(0 <= k < |p| + |q|) {
      OutOfRange(F, p, q, k, |p|);
    }
  }

  /** The value of a product is the product of the values. */
  lemma {:induction false} ValMul<S(!new)>(F: Field<S>, r: Poly<S>, p: Poly<S>, q: Poly<S>, t: S)
    requires F.Lawful() && forall k: int :: k >= 0 ==> Coeff(F, r, k) == ProductCoeff(F, p, q, k)
    ensures Val(F, r, t) == F.mul(Val(F, p, t), Val(F, q, t))
    decreases |p|
  {
    hide Val, Product;
    if |p| == 0 {
      ValEmpty(F, t);
      F.MulZero(Val(F, q, t));
      forall i: int ensures Coeff(F, r, i) == Coeff(F, [], i) {
      }
      ValEqual(F, r, [], t);
    } else {
      var p', r' := Tail(p), Product(F, Tail(p), q);
      forall k: int | k >= 0 ensures Coeff(F, r', k) == ProductCoeff(F, p', q, k) {
        ProductCoeffs(F, p', q, k);
      }
      ValMul(F, r', p', q, t);
      var u := [F.zero] + r';
      forall k: int | k >= 0 ensures Coeff(F, r, k) == F.add(Coeff(F, u, k), F.mul(Coeff(F, p, 0), Coeff(F, q, k))) {
        ConvolutionHead(F, p, q, k, |p'|);
        ProductCoeffs(F, p', q, k - 1);
        OutOfRangeBelow(F, p', q, |p'|);
        assert Coeff(F, u, k) == ProductCoeff(F, p', q, k - 1);
        assert F.AddComm(F.mul(Coeff(F, p, 0), Coeff(F, q, k)), Coeff(F, u, k));
      }
      ValCombined(F, r, u, Coeff(F, p, 0), q, t);
      ValStep(F, u, t);
      assert Tail(u) == r';
      ValStep(F, p, t);
      assert F.AddZero(F.mul(t, Val(F, r', t)));
      F.DistribRight(F.mul(t, Val(F, p', t)), Coeff(F, p, 0), Val(F, q, t));
      assert F.MulAssoc(t, Val(F, p', t), Val(F, q, t));
    }
  }

  lemma OutOfRangeBelow<S(!new)>(F: Field<S>, p: Poly<S>, q: Poly<S>, n: nat)
    requires F.Lawful() && n <= |p|
    ensures Convolution(F, p, q, -1, n) == F.zero
  {
    OutOfRange(F, p, q, -1, n);
  }

  /** Division with remainder, at every point: p(t) == q(t) * quot(t) + rem(t). */
  lemma ValDivision<S(!new)>(F: Field<S>, p: Poly<S>, q: Poly<S>, quot: Poly<S>, rem: Poly<S>, t: S)
    requires F.Lawful() && DivisionIdentity(F, p, q, quot, rem)
    ensures Val(F, p, t) == F.add(F.mul(Val(F, q, t), Val(F, quot, t)), Val(F, rem, t))
  {
    hide Val, Product;
    var r := Product(F, q, quot);
    forall k: int ensures Coeff(F, r, k) == ProductCoeff(F, q, quot, k) {
      ProductCoeffs(F, q, quot, k);
    }
    ValMul(F, r, q, quot, t);
    ValAdd(F, p, r, rem, t);
  }
}
