/** Fields as records of operations.

    Every law is a named predicate over its operands, so that a proof brings in
    exactly the instances it mentions (`assert F.MulComm(x, y);`). */
module Fields {

  datatype Field<!S(!new)> = Field(
    zero: S,
    one: S,
    add: (S, S) -> S,
    mul: (S, S) -> S,
    neg: S -> S,
    inv: S -> S)
  {
    ghost predicate AddComm(x: S, y: S) { add(x, y) == add(y, x) }
    ghost predicate AddAssoc(x: S, y: S, z: S) { add(add(x, y), z) == add(x, add(y, z)) }
    ghost predicate AddZero(x: S) { add(x, zero) == x }
    ghost predicate AddNeg(x: S) { add(x, neg(x)) == zero }
    ghost predicate MulComm(x: S, y: S) { mul(x, y) == mul(y, x) }
    ghost predicate MulAssoc(x: S, y: S, z: S) { mul(mul(x, y), z) == mul(x, mul(y, z)) }
    ghost predicate MulOne(x: S) { mul(x, one) == x }
    ghost predicate MulInv(x: S) { x != zero ==> mul(x, inv(x)) == one }
    ghost predicate Distrib(x: S, y: S, z: S) { mul(x, add(y, z)) == add(mul(x, y), mul(x, z)) }

    /** The field axioms. */
    ghost predicate Lawful() {
      && one != zero
      && (forall x, y :: AddComm(x, y))
      && (forall x, y, z :: AddAssoc(x, y, z))
      && (forall x :: AddZero(x))
      && (forall x :: AddNeg(x))
      && (forall x, y :: MulComm(x, y))
      && (forall x, y, z :: MulAssoc(x, y, z))
      && (forall x :: MulOne(x))
      && (forall x :: MulInv(x))
      && (forall x, y, z :: Distrib(x, y, z))
    }

    function Sub(x: S, y: S): S { add(x, neg(y)) }

    lemma AddCancel(x: S, y: S, z: S)
      requires Lawful()
      requires add(x, z) == add(y, z)
      ensures x == y
    {
      assert AddAssoc(x, z, neg(z)) && AddAssoc(y, z, neg(z)) && AddNeg(z);
      assert AddZero(x) && AddZero(y);
    }

    lemma MulZero(x: S)
      requires Lawful()
      ensures mul(x, zero) == zero
      ensures mul(zero, x) == zero
    {
      assert AddZero(zero) && Distrib(x, zero, zero) && MulComm(x, zero);
      assert AddZero(mul(x, zero)) && AddComm(zero, mul(x, zero));
      AddCancel(mul(x, zero), zero, mul(x, zero));
    }

    lemma ZeroAdd(x: S)
      requires Lawful()
      ensures add(zero, x) == x
    {
      assert AddComm(zero, x) && AddZero(x);
    }

    lemma OneMul(x: S)
      requires Lawful()
      ensures mul(one, x) == x
    {
      assert MulComm(one, x) && MulOne(x);
    }

    /** The negation of y is the only element that cancels it. */
    lemma NegUnique(x: S, y: S)
      requires Lawful()
      requires add(x, y) == zero
      ensures x == neg(y)
    {
      assert AddNeg(y) && AddComm(y, neg(y));
      AddCancel(x, neg(y), y);
    }

    lemma NegZero()
      requires Lawful()
      ensures neg(zero) == zero
    {
      assert AddZero(zero);
      NegUnique(zero, zero);
    }

    lemma NegNeg(x: S)
      requires Lawful()
      ensures neg(neg(x)) == x
    {
      assert AddNeg(x);
      NegUnique(x, neg(x));
    }

    lemma NegMul(x: S, y: S)
      requires Lawful()
      ensures mul(neg(x), y) == neg(mul(x, y))
      ensures mul(x, neg(y)) == neg(mul(x, y))
    {
      assert AddNeg(x) && AddComm(x, neg(x)) && MulComm(neg(x), y) && MulComm(x, y);
      assert Distrib(y, neg(x), x);
      MulZero(y);
      NegUnique(mul(neg(x), y), mul(x, y));
      assert AddNeg(y) && AddComm(y, neg(y)) && Distrib(x, neg(y), y);
      MulZero(x);
      NegUnique(mul(x, neg(y)), mul(x, y));
    }

    lemma SubSelf(x: S)
      requires Lawful()
      ensures Sub(x, x) == zero
    {
      assert AddNeg(x);
    }

    lemma SubZero(x: S)
      requires Lawful()
      ensures Sub(x, zero) == x
    {
      NegZero();
      assert AddZero(x);
    }

    lemma SubIsZero(x: S, y: S)
      requires Lawful()
      ensures Sub(x, y) == zero <==> x == y
    {
      SubSelf(x);
      if Sub(x, y) == zero {
        NegUnique(x, neg(y));
        NegNeg(y);
      }
    }

    lemma SubMul(x: S, c: S, y: S)
      requires Lawful()
      ensures Sub(x, mul(c, y)) == add(x, mul(neg(c), y))
    {
      NegMul(c, y);
    }

    lemma AddSub(x: S, y: S)
      requires Lawful()
      ensures add(Sub(x, y), y) == x
    {
      assert AddAssoc(x, neg(y), y) && AddComm(neg(y), y) && AddNeg(y) && AddZero(x);
    }

    /** (a + b) + (c + d) == (a + c) + (b + d) */
    lemma AddSwap4(a: S, b: S, c: S, d: S)
      requires Lawful()
      ensures add(add(a, b), add(c, d)) == add(add(a, c), add(b, d))
    {
      calc {
        add(add(a, b), add(c, d));
        { assert AddAssoc(a, b, add(c, d)); }
        add(a, add(b, add(c, d)));
        { assert AddAssoc(b, c, d) && AddComm(b, c) && AddAssoc(c, b, d); }
        add(a, add(c, add(b, d)));
        { assert AddAssoc(a, c, add(b, d)); }
        add(add(a, c), add(b, d));
      }
    }

    lemma NegAdd(x: S, y: S)
      requires Lawful()
      ensures neg(add(x, y)) == add(neg(x), neg(y))
    {
      AddSwap4(neg(x), neg(y), x, y);
      assert AddComm(neg(x), x) && AddNeg(x) && AddComm(neg(y), y) && AddNeg(y) && AddZero(zero);
      NegUnique(add(neg(x), neg(y)), add(x, y));
    }

    lemma DistribRight(x: S, y: S, z: S)
      requires Lawful()
      ensures mul(add(x, y), z) == add(mul(x, z), mul(y, z))
    {
      assert MulComm(add(x, y), z) && Distrib(z, x, y) && MulComm(z, x) && MulComm(z, y);
    }

    /** A field has no zero divisors. */
    lemma NoZeroDivisors(x: S, y: S)
      requires Lawful()
      ensures mul(x, y) == zero <==> x == zero || y == zero
    {
      MulZero(x);
      MulZero(y);
      if x != zero && mul(x, y) == zero {
        assert MulInv(x) && MulComm(x, inv(x)) && MulAssoc(inv(x), x, y);
        OneMul(y);
        MulZero(inv(x));
      }
    }

    lemma InvNonZero(x: S)
      requires Lawful() && x != zero
      ensures inv(x) != zero
    {
      assert MulInv(x);
      NoZeroDivisors(x, inv(x));
    }
  }
}
