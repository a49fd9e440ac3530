/** The law of quadratic reciprocity and its second supplement, by counting lattice points. */
module Reciprocity {
  import opened NumberTheory
  import opened QuadraticResidues
  import opened Legendre

  // ----- Lattice points on either side of the diagonal

  /** How many of p, 2p, ..., mp lie below x. */
  ghost function Below(x: int, p: int, m: nat): nat {
    if m == 0 then 0 else Below(x, p, m - 1) + if p * m < x then 1 else 0
  }

  /** Lattice points (k, l) with k <= n, l <= m and p * l < q * k. */
  ghost function Points(q: int, p: int, n: nat, m: nat): nat {
    if n == 0 then 0 else Points(q, p, n - 1, m) + Below(q * n, p, m)
  }

  /** No lattice point of the rectangle lies on the diagonal. */
  ghost predicate NoTies(q: int, p: int, n: nat, m: nat) {
    forall k, l :: 1 <= k <= n && 1 <= l <= m ==> Apart(q, k, p, l)
  }

  ghost predicate Apart(q: int, k: int, p: int, l: int) {
    q * k != p * l
  }

  /** Growing the rectangle by one column of m points. */
  lemma {:induction false} AddColumn(p: int, q: int, m: nat, n: nat)
    requires n > 0 && NoTies(q, p, n, m)
    ensures Points(p, q, m, n) == Points(p, q, m, n - 1) + (m - Below(q * n, p, m))
  {
    if m > 0 {
      AddColumn(p, q, m - 1, n);
      assert Apart(q, n, p, m);
    }
  }

  /** The points below and above the diagonal make up the rectangle. */
  lemma {:induction false} RectangleSplits(p: int, q: int, n: nat, m: nat)
    requires NoTies(q, p, n, m)
    ensures Points(q, p, n, m) + Points(p, q, m, n) == n * m
  {
    if n == 0 {
      NoPoints(p, q, m);
    } else {
      RectangleSplits(p, q, n - 1, m);
      AddColumn(p, q, m, n);
      assert n * m == (n - 1) * m + m;
    }
  }

  lemma {:induction false} NoPoints(p: int, q: int, m: nat)
    ensures Points(p, q, m, 0) == 0
  {
    if m > 0 {
      NoPoints(p, q, m - 1);
    }
  }

  /** Counting multiples below x is dividing, when none hits x. */
  lemma {:induction false} BelowIsQuotient(x: int, p: int, m: nat)
    requires p > 0 && x >= 0 && !Divides(p, x)
    ensures Below(x, p, m) == if m < x / p then m else x / p
  {
    if m > 0 {
      BelowIsQuotient(x, p, m - 1);
      MultipleBelow(x, p, m);
    }
  }

  lemma MultipleBelow(x: int, p: int, m: nat)
    requires p > 0 && !Divides(p, x)
    ensures p * m < x <==> m <= x / p
  {
    var t, r := x / p, x % p;
    assert x == p * t + r && 0 < r < p;
    if m <= t {
      MulMono(m, t, p);
    } else {
      MulMono(t + 1, m, p);
      assert (t + 1) * p == p * t + p;
    }
    assert m * p == p * m && t * p == p * t;
  }

  lemma QuotientBound(q: int, k: int, p: int)
    requires p > 0 && q % 2 == 1 && q > 0 && 0 <= k && 2 * k < p
    ensures 0 <= q * k && 0 <= (q * k) / p <= Half(q)
  {
    var h := Half(q);
    MulMono(0, k, q);
    MulMono(2 * k, p - 1, q);
    DoubleProduct(q, k);
    DoubleProduct(p, h + 1);
    assert (p - 1) * q == p * q - q && p * (2 * (h + 1)) == p * q + p;
    assert 0 <= q * k < p * (h + 1);
    DivBelow(q * k, p, h + 1);
  }

  lemma DoubleProduct(a: int, b: int)
    ensures a * (2 * b) == 2 * (a * b) && 2 * b * a == 2 * (a * b)
  {
  }

  lemma DivBelow(x: int, p: int, b: int)
    requires p > 0 && 0 <= x < p * b
    ensures 0 <= x / p < b
  {
    var t := x / p;
    assert x == p * t + x % p;
    if t >= b {
      MulMono(b, t, p);
    }
  }

  lemma {:induction false} PointsAreQuotients(q: int, p: int, n: nat)
    requires Setup(q, p) && q > 0 && q % 2 == 1 && n <= Half(p)
    ensures Points(q, p, n, Half(q)) == Quotients(q, n, p)
  {
    if n > 0 {
      PointsAreQuotients(q, p, n - 1);
      if Divides(p, q * n) {
        EuclidLemma(p, q, n);
        UnitNotDivisible(n, p);
        assert false;
      }
      QuotientBound(q, n, p);
      MulMono(0, n, q);
      assert 0 * q == 0 && n * q == q * n;
      BelowIsQuotient(q * n, p, Half(q));
    }
  }

  // ----- The law

  lemma DistinctPrimes(p: int, q: int)
    requires IsOddPrime(p) && IsOddPrime(q) && p != q
    ensures Setup(q, p)
  {
    OddPrimes(p);
    if Divides(p, q) {
      DividesBound(p, q);
      assert false;
    }
  }

  lemma PrimesApart(p: int, q: int)
    requires IsOddPrime(p) && IsOddPrime(q) && p != q
    ensures Half(p) >= 0 && Half(q) >= 0 && NoTies(q, p, Half(p), Half(q))
  {
    DistinctPrimes(p, q);
    forall k, l | 1 <= k <= Half(p) && 1 <= l <= Half(q) ensures Apart(q, k, p, l) {
      if q * k == p * l {
        assert q * k == l * p;
        DividesIntro(p, q * k, l);
        EuclidLemma(p, q, k);
        UnitNotDivisible(k, p);
        assert false;
      }
    }
  }

  /** For an odd a the sign is given by the quotients alone. */
  lemma OddSign(a: int, p: int)
    requires Setup(a, p) && a % 2 == 1
    ensures Half(p) >= 1 && Leg(a, p) == Sign(Quotients(a, Half(p), p))
  {
    hide Leg, Mu, Quotients, Divides, Triangle;
    GaussLemma(a, p);
    ExponentParity(a, p);
    EvenTimes(a - 1, Triangle(Half(p)));
    SameParity(Mu(a, Half(p), p), Quotients(a, Half(p), p));
  }

  lemma EvenTimes(a: int, t: int)
    requires a % 2 == 0
    ensures (a * t) % 2 == 0
  {
    assert a * t == 2 * (a / 2 * t);
  }

  lemma SameParity(m: int, q: int)
    requires (m + q) % 2 == 0
    ensures Sign(m) == Sign(q)
  {
  }

  /** Quadratic reciprocity for distinct odd primes. */
  lemma QuadraticReciprocity(p: int, q: int)
    requires IsOddPrime(p) && IsOddPrime(q) && p != q
    ensures Leg(q, p) * Leg(p, q) == Sign(Half(p) * Half(q))
  {
    hide Leg, Quotients, Points, Divides, NoTies;
    DistinctPrimes(p, q);
    DistinctPrimes(q, p);
    OddPrimes(p);
    OddPrimes(q);
    OddSign(q, p);
    OddSign(p, q);
    PrimesApart(p, q);
    RectangleSplits(p, q, Half(p), Half(q));
    PointsAreQuotients(q, p, Half(p));
    PointsAreQuotients(p, q, Half(q));
    SignAdd(Quotients(q, Half(p), p), Quotients(p, Half(q), q));
  }

  // ----- The second supplement

  lemma {:induction false} NoQuotients(n: nat, p: int)
    requires p > 0 && 2 * n < p
    ensures Quotients(2, n, p) == 0
  {
    if n > 0 {
      NoQuotients(n - 1, p);
      DivModUnique(2 * n, p, 0, 2 * n);
    }
  }

  lemma {:induction false} TriangleParity(n: nat)
    ensures Triangle(n) % 2 == if n % 4 == 0 || n % 4 == 3 then 0 else 1
  {
    if n > 0 {
      TriangleParity(n - 1);
    }
  }

  /** The symbol of two depends on p modulo 8. */
  lemma LegTwo(p: int)
    requires IsOddPrime(p)
    ensures Leg(2, p) == if p % 8 == 1 || p % 8 == 7 then 1 else -1
  {
    hide Leg, Mu, Quotients, Triangle, Divides;
    OddPrimes(p);
    var h := Half(p);
    UnitNotDivisible(2, p);
    GaussLemma(2, p);
    ExponentParity(2, p);
    NoQuotients(h, p);
    TriangleParity(h);
    assert (2 - 1) * Triangle(h) == Triangle(h);
  }
}
