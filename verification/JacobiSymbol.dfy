/** The Jacobi symbol: its laws, and its computation by repeated reduction
    (pkg/base/nt/jacobi_purego.go). */
module JacobiSymbol {
  import opened NumberTheory
  import opened QuadraticResidues
  import opened Legendre
  import opened Reciprocity

  // ----- The symbol

  ghost predicate IsFactor(p: int, b: int) {
    Prime(p) && b > 0 && Divides(p, b)
  }

  lemma FactorExists(b: int)
    requires b >= 2
    ensures exists p :: IsFactor(p, b)
  {
    var p := PrimeFactor(b);
    assert IsFactor(p, b);
  }

  ghost function Factor(b: int): (p: int)
    requires b >= 2
    ensures IsFactor(p, b)
  {
    FactorExists(b);
    var p :| IsFactor(p, b);
    p
  }

  lemma FactorParts(p: int, b: int)
    requires IsFactor(p, b) && b % 2 == 1
    ensures IsOddPrime(p) && p % 2 == 1 && b == p * (b / p) && 0 < b / p < b && (b / p) % 2 == 1
  {
    var c := b / p;
    assert b == p * c;
    if c <= 0 {
      MulMono(c, 0, p);
    } else if c >= b {
      MulMono(2, p, c);
    }
    OddFactors(p, c);
  }

  lemma OddFactors(p: int, c: int)
    requires (p * c) % 2 == 1
    ensures p % 2 == 1 && c % 2 == 1
  {
    assert c * p == p * c;
    if p % 2 == 0 {
      EvenTimes(p, c);
    }
    if c % 2 == 0 {
      EvenTimes(c, p);
    }
  }

  /** The product of the Legendre symbols of a for the prime factors of b. */
  ghost function Jac(a: int, b: int): int
    requires b > 0 && b % 2 == 1
    decreases b
  {
    if b == 1 then 1
    else
      var p := Factor(b);
      FactorParts(p, b);
      Leg(a, p) * Jac(a, b / p)
  }

  lemma QuotientOfQuotient(b: int, p: int, q: int)
    requires p > 0 && q > 0 && Divides(p, b) && Divides(q, b / p)
    ensures Divides(q, b) && Divides(p, b / q) && b / p / q == b / q / p
  {
    var c := b / p / q;
    assert b / p == c * q && b == (b / p) * p;
    assert b == (c * p) * q by { assert (c * q) * p == (c * p) * q; }
    DivModUnique(b, q, c * p, 0);
    DivModUnique(c * p, p, c, 0);
  }

  lemma OtherFactor(b: int, p: int, q: int)
    requires b % 2 == 1 && IsFactor(p, b) && IsFactor(q, b) && p != q
    ensures b / q > 0 && IsFactor(p, b / q)
  {
    FactorParts(q, b);
    EuclidLemma(p, q, b / q);
    if Divides(p, q) {
      DividesBound(p, q);
    }
  }

  /** Any prime factor can be split off. */
  lemma {:induction false} JacFactor(a: int, b: int, p: int)
    requires b % 2 == 1 && IsFactor(p, b)
    ensures IsOddPrime(p) && 0 < b / p < b && (b / p) % 2 == 1 && Jac(a, b) == Leg(a, p) * Jac(a, b / p)
    decreases b
  {
    hide Leg, IsFactor, Divides, Prime;
    FactorParts(p, b);
    assert b > 1;
    var q := Factor(b);
    if q != p {
      FactorParts(q, b);
      OtherFactor(b, p, q);
      OtherFactor(b, q, p);
      SwapFactors(b, p, q);
      JacFactor(a, b / q, p);
      JacFactor(a, b / p, q);
      MulSwap(Leg(a, q), Leg(a, p), Jac(a, b / q / p));
    }
  }

  lemma SwapFactors(b: int, p: int, q: int)
    requires IsFactor(p, b) && IsFactor(q, b) && IsFactor(q, b / p)
    ensures b / p / q == b / q / p
  {
    QuotientOfQuotient(b, p, q);
  }

  lemma ProductFactor(p: int, b: int, c: int)
    requires IsFactor(p, b) && c > 0 && b % 2 == 1 && c % 2 == 1
    ensures b * c > 0 && (b * c) % 2 == 1 && IsFactor(p, b * c) && (b * c) / p == (b / p) * c
  {
    FactorParts(p, b);
    MulMono(1, c, b);
    assert c * b == b * c;
    OddTimes(b, c);
    DividesProduct(p, b, c);
    MulAssoc(p, b / p, c);
    assert b * c == ((b / p) * c) * p;
    DivModUnique(b * c, p, (b / p) * c, 0);
  }

  /** Multiplicative in the lower argument. */
  lemma {:induction false} JacLower(a: int, b: int, c: int)
    requires b > 0 && c > 0 && b % 2 == 1 && c % 2 == 1
    ensures b * c > 0 && (b * c) % 2 == 1 && Jac(a, b * c) == Jac(a, b) * Jac(a, c)
    decreases b
  {
    hide Leg, Divides, Prime, IsFactor;
    if b == 1 {
      assert b * c == c;
    } else {
      var p := Factor(b);
      FactorParts(p, b);
      ProductFactor(p, b, c);
      JacFactor(a, b * c, p);
      JacLower(a, b / p, c);
      MulAssoc(Leg(a, p), Jac(a, b / p), Jac(a, c));
    }
  }

  /** Multiplicative in the upper argument. */
  lemma {:induction false} JacUpper(a: int, a': int, b: int)
    requires b > 0 && b % 2 == 1
    ensures Jac(a * a', b) == Jac(a, b) * Jac(a', b)
    decreases b
  {
    hide Leg, Divides, Prime, IsFactor;
    if b > 1 {
      var p := Factor(b);
      FactorParts(p, b);
      JacUpper(a, a', b / p);
      LegMul(a, a', p);
      Shuffle4(Leg(a, p), Leg(a', p), Jac(a, b / p), Jac(a', b / p));
    }
  }

  /** Periodic in the upper argument. */
  lemma {:induction false} JacCong(a: int, a': int, b: int)
    requires b > 0 && b % 2 == 1 && Cong(a, a', b)
    ensures Jac(a, b) == Jac(a', b)
    decreases b
  {
    hide Leg, Divides, Prime, IsFactor, Cong;
    if b > 1 {
      var p := Factor(b);
      FactorParts(p, b);
      assert b == (b / p) * p;
      CongDivisor(a, a', b, p, b / p);
      CongDivisor(a, a', b, b / p, p);
      LegCong(a, a', p);
      JacCong(a, a', b / p);
    }
  }

  lemma JacZero(b: int)
    requires b > 0 && b % 2 == 1
    ensures Jac(0, b) == if b == 1 then 1 else 0
  {
    if b > 1 {
      var p := Factor(b);
      FactorParts(p, b);
      DividesIntro(p, 0, 0);
      LegRange(0, p);
    }
  }

  // ----- The supplements

  /** (-1)^((n^2 - 1) / 8), read off the low three bits of an odd n. */
  function Tab(n: int): int {
    match n % 8
    case 1 => 1
    case 7 => 1
    case 3 => -1
    case 5 => -1
    case _ => 0
  }

  lemma TabMul(m: int, n: int)
    requires m % 2 == 1 && n % 2 == 1
    ensures Tab(m * n) == Tab(m) * Tab(n)
  {
    ModEightMul(m, n);
    OddModEight(m);
    OddModEight(n);
  }

  lemma ModEightMul(m: int, n: int)
    ensures (m * n) % 8 == ((m % 8) * (n % 8)) % 8
  {
    CongMod(m, 8);
    CongMod(n, 8);
    CongMul(m, m % 8, n, n % 8, 8);
    CongIffMod(m * n, (m % 8) * (n % 8), 8);
  }

  lemma OddModEight(m: int)
    requires m % 2 == 1
    ensures m % 8 == 1 || m % 8 == 3 || m % 8 == 5 || m % 8 == 7
  {
    var s := m / 2 - 4 * (m / 8);
    assert m % 8 == 2 * s + 1;
  }

  lemma TabValues(b: int)
    requires b % 2 == 1
    ensures Tab(b) == if b % 8 == 1 || b % 8 == 7 then 1 else -1
  {
    OddModEight(b);
  }

  lemma {:induction false} JacTwo(b: int)
    requires b > 0 && b % 2 == 1
    ensures Jac(2, b) == Tab(b)
    decreases b
  {
    hide Leg, Divides, Prime, IsFactor, Tab;
    if b == 1 {
      TabValues(1);
    } else {
      var p := Factor(b);
      FactorParts(p, b);
      JacTwo(b / p);
      LegTwo(p);
      TabValues(p);
      TabMul(p, b / p);
    }
  }

  lemma HalfMul(m: int, n: int)
    requires m % 2 == 1 && n % 2 == 1
    ensures Half(m * n) % 2 == (Half(m) + Half(n)) % 2
  {
    var i, j := m / 2, n / 2;
    assert m == 2 * i + 1 && n == 2 * j + 1;
    OddProduct(i, j);
    HalfOf(m * n, 2 * (i * j) + i + j);
    HalfOf(m, i);
    HalfOf(n, j);
    EvenDifference(2 * (i * j) + i + j, i + j, i * j);
  }

  lemma OddProduct(i: int, j: int)
    ensures (2 * i + 1) * (2 * j + 1) == 2 * (2 * (i * j) + i + j) + 1
  {
    assert (2 * i) * (2 * j) == 4 * (i * j);
  }

  lemma HalfOf(x: int, h: int)
    requires x == 2 * h + 1
    ensures Half(x) == h
  {
  }

  lemma SignParity(m: int, n: int)
    requires m % 2 == n % 2
    ensures Sign(m) == Sign(n)
  {
  }

  lemma {:induction false} JacMinusOne(b: int)
    requires b > 0 && b % 2 == 1
    ensures Jac(-1, b) == Sign(Half(b))
    decreases b
  {
    hide Leg, Divides, Prime, IsFactor, Sign;
    if b == 1 {
      SignParity(Half(1), 0);
      SignZero();
    } else {
      var p := Factor(b);
      FactorParts(p, b);
      JacMinusOne(b / p);
      LegMinusOne(p);
      HalfMul(p, b / p);
      SignParity(Half(b), Half(p) + Half(b / p));
      SignAdd(Half(p), Half(b / p));
    }
  }

  lemma SignZero()
    ensures Sign(0) == 1
  {
  }

  // ----- Reciprocity

  /** The sign in the law of reciprocity. */
  function Swap(a: int, b: int): int { Sign(Half(a) * Half(b)) }

  lemma SwapMul(a: int, b: int, c: int)
    requires b % 2 == 1 && c % 2 == 1
    ensures Swap(a, b * c) == Swap(a, b) * Swap(a, c)
  {
    HalfMul(b, c);
    ScaleParity(Half(a), Half(b * c), Half(b) + Half(c));
    assert Half(a) * (Half(b) + Half(c)) == Half(a) * Half(b) + Half(a) * Half(c);
    SignParity(Half(a) * Half(b * c), Half(a) * Half(b) + Half(a) * Half(c));
    SignAdd(Half(a) * Half(b), Half(a) * Half(c));
  }

  lemma ScaleParity(x: int, m: int, n: int)
    requires m % 2 == n % 2
    ensures (x * m) % 2 == (x * n) % 2
  {
    CongIffMod(m, n, 2);
    CongScale(m, n, x, 2);
    CongIffMod(x * m, x * n, 2);
  }

  lemma SwapSym(a: int, b: int)
    ensures Swap(a, b) == Swap(b, a)
  {
    assert Half(a) * Half(b) == Half(b) * Half(a);
  }

  lemma SwapOne(a: int)
    ensures Swap(a, 1) == 1
  {
    assert Half(1) == 0;
  }

  /** The code's test on the second lowest bits computes this sign. */
  lemma SwapValue(a: int, b: int)
    requires a % 2 == 1 && b % 2 == 1
    ensures Swap(a, b) == if a % 4 == 3 && b % 4 == 3 then -1 else 1
  {
    var i, j := Half(a), Half(b);
    if a % 4 == 1 {
      EvenTimes(i, j);
    } else if b % 4 == 1 {
      EvenTimes(j, i);
      assert j * i == i * j;
    } else {
      OddTimes(i, j);
    }
  }

  lemma PrimeReciprocity(p: int, q: int)
    requires IsOddPrime(p) && IsOddPrime(q)
    ensures Leg(q, p) == Swap(p, q) * Leg(p, q)
  {
    if p == q {
      DividesIntro(p, p, 1);
    } else {
      QuadraticReciprocity(p, q);
      LegRange(q, p);
      LegRange(p, q);
    }
  }

  lemma {:induction false} HalfReciprocity(b: int, p: int)
    requires b > 0 && b % 2 == 1 && IsOddPrime(p)
    ensures Leg(b, p) == Swap(p, b) * Jac(p, b)
    decreases b
  {
    hide Leg, Divides, Prime, IsFactor, Swap, Sign;
    if b == 1 {
      LegOne(p);
      SwapOne(p);
    } else {
      var q := Factor(b);
      FactorParts(q, b);
      var c := b / q;
      HalfReciprocity(c, p);
      PrimeReciprocity(p, q);
      LegMul(q, c, p);
      SwapMul(p, q, c);
      Shuffle4(Swap(p, q), Leg(p, q), Swap(p, c), Jac(p, c));
    }
  }

  lemma LegOne(p: int)
    requires IsOddPrime(p)
    ensures Leg(1, p) == 1
  {
    UnitNotDivisible(1, p);
    CongIntro(1 * 1, 1, p, 0);
    ResidueIntro(1, 1, p);
  }

  lemma {:induction false} JacOne(b: int)
    requires b > 0 && b % 2 == 1
    ensures Jac(1, b) == 1
    decreases b
  {
    hide Leg, Divides, Prime, IsFactor;
    if b > 1 {
      var p := Factor(b);
      FactorParts(p, b);
      LegOne(p);
      JacOne(b / p);
    }
  }

  /** Quadratic reciprocity for the Jacobi symbol, coprime or not. */
  lemma {:induction false} JacReciprocity(a: int, b: int)
    requires a > 0 && a % 2 == 1 && b > 0 && b % 2 == 1
    ensures Jac(b, a) == Swap(a, b) * Jac(a, b)
    decreases a
  {
    hide Leg, Divides, Prime, IsFactor, Swap, Sign, Jac;
    if a == 1 {
      JacAtOne(b);
      SwapSym(1, b);
      SwapOne(b);
      JacOne(b);
    } else {
      var p := Factor(a);
      FactorParts(p, a);
      var c := a / p;
      JacReciprocity(c, b);
      HalfReciprocity(b, p);
      JacFactor(b, a, p);
      JacUpper(p, c, b);
      SwapSym(a, b);
      SwapSym(p, b);
      SwapSym(c, b);
      SwapMul(b, p, c);
      Shuffle4(Swap(p, b), Jac(p, b), Swap(c, b), Jac(c, b));
    }
  }

  lemma JacAtOne(a: int)
    ensures Jac(a, 1) == 1
  {
  }

  // ----- Greatest common divisors along the loop

  lemma GcdSame(a: nat, b: nat, c: nat, d: nat)
    requires (a > 0 || b > 0) && (c > 0 || d > 0)
    requires forall e :: e > 0 ==> (Divides(e, a) && Divides(e, b) <==> Divides(e, c) && Divides(e, d))
    ensures Gcd(a, b) == Gcd(c, d)
  {
    var s, t := Bezout(a, b);
    var u, v := Bezout(c, d);
    var g, h := Gcd(a, b), Gcd(c, d);
    GcdGreatest(c, d, g);
    GcdGreatest(a, b, h);
    DividesBound(g, h);
    DividesBound(h, g);
  }

  /** One step of Euclid's algorithm, in either order. */
  lemma GcdStep(a: nat, b: nat)
    requires a > 0
    ensures Gcd(b % a, a) == Gcd(a, b)
  {
    var q := b / a;
    assert b == q * a + b % a;
    forall e | e > 0 ensures Divides(e, b % a) && Divides(e, a) <==> Divides(e, a) && Divides(e, b) {
      if Divides(e, a) && Divides(e, b) {
        DividesLinear(e, b, a, 1, -q);
        assert 1 * b + -q * a == b % a;
      }
      if Divides(e, a) && Divides(e, b % a) {
        DividesLinear(e, a, b % a, q, 1);
        assert q * a + 1 * (b % a) == b;
      }
    }
    GcdSame(b % a, a, a, b);
  }

  lemma GcdMod(a: nat, b: nat)
    requires b > 0
    ensures Gcd(a % b, b) == Gcd(a, b)
  {
    var q := a / b;
    assert a == q * b + a % b;
    forall e | e > 0 ensures Divides(e, a % b) && Divides(e, b) <==> Divides(e, a) && Divides(e, b) {
      if Divides(e, a) && Divides(e, b) {
        DividesLinear(e, a, b, 1, -q);
        assert 1 * a + -q * b == a % b;
      }
      if Divides(e, b) && Divides(e, a % b) {
        DividesLinear(e, b, a % b, q, 1);
        assert q * b + 1 * (a % b) == a;
      }
    }
    GcdSame(a % b, b, a, b);
  }

  /** Factors of two do not count against an odd number. */
  lemma GcdHalf(a: nat, b: nat)
    requires a > 0 && b % 2 == 1
    ensures Gcd(2 * a, b) == Gcd(a, b)
  {
    forall e | e > 0 ensures Divides(e, 2 * a) && Divides(e, b) <==> Divides(e, a) && Divides(e, b) {
      if Divides(e, a) {
        DividesProduct(e, a, 2);
      }
      if Divides(e, 2 * a) && Divides(e, b) {
        OddDivisor(e, a, b);
      }
    }
    GcdSame(2 * a, b, a, b);
  }

  lemma OddDivisor(e: nat, a: nat, b: nat)
    requires e > 0 && b % 2 == 1 && Divides(e, 2 * a) && Divides(e, b)
    ensures Divides(e, a)
  {
    var k := b / e;
    assert b == k * e;
    assert e % 2 == 1 by {
      if e % 2 == 0 {
        DividesIntro(2, e, e / 2);
        DividesTrans(2, e, b);
        assert false;
      }
    }
    // a == (e + 1) / 2 * (2 * a) - a * e
    var h := (e + 1) / 2;
    DividesIntro(e, e, 1);
    DividesLinear(e, 2 * a, e, h, 0 - a);
    assert h * (2 * a) == (2 * h) * a == (e + 1) * a;
    assert (e + 1) * a + (0 - a) * e == a;
  }

  lemma GcdZero(b: nat)
    requires b > 0
    ensures Gcd(0, b) == b
  {
    assert 0 % b == 0;
  }

  // ----- The computation

  datatype Outcome = Symbol(value: int) | EvenModulus

  function Abs(x: int): nat { if x < 0 then -x else x }

  lemma TabSign(b: int)
    requires b % 2 == 1
    ensures Tab(b) == 1 || Tab(b) == -1
  {
    TabValues(b);
  }

  /** Strips the factors of two from a, counting them. */
  method StripTwos(a: nat, b: nat) returns (odd: nat, i: nat)
    requires a > 0 && b % 2 == 1
    ensures odd % 2 == 1 && 0 < odd <= a
    ensures Gcd(odd, b) == Gcd(a, b)
    ensures Jac(a, b) == (if i % 2 == 1 then Tab(b) else 1) * Jac(odd, b)
  {
    hide Jac, Tab, Gcd;
    odd, i := a, 0;
    while odd % 2 == 0
      invariant 0 < odd <= a
      invariant Gcd(odd, b) == Gcd(a, b)
      invariant Jac(a, b) == (if i % 2 == 1 then Tab(b) else 1) * Jac(odd, b)
      decreases odd
    {
      HalveStep(odd / 2, b, i);
      GcdHalf(odd / 2, b);
      odd := odd / 2;
      i := i + 1;
    }
  }

  lemma HalveStep(half: int, b: int, i: nat)
    requires b > 0 && b % 2 == 1
    ensures (if i % 2 == 1 then Tab(b) else 1) * Jac(2 * half, b) == (if (i + 1) % 2 == 1 then Tab(b) else 1) * Jac(half, b)
  {
    hide Jac, Tab;
    TabSign(b);
    JacTwo(b);
    JacUpper(2, half, b);
  }

  /** One round: strip twos, swap by reciprocity, reduce. */
  method Step(ret: int, a: nat, b: nat) returns (ret': int, a': nat, b': nat)
    requires a > 0 && b % 2 == 1 && (ret == 1 || ret == -1)
    ensures a' < a && 0 < b' <= a && b' % 2 == 1 && (ret' == 1 || ret' == -1)
    ensures Gcd(a', b') == Gcd(a, b)
    ensures ret' * Jac(a', b') == ret * Jac(a, b)
  {
    hide Jac, Tab, Gcd, Swap;
    var odd, i := StripTwos(a, b);
    TabSign(b);
    ret' := ret;
    if i % 2 == 1 {
      ret' := ret' * Tab(b);
    }
    SecondBits(odd);
    SecondBits(b);
    SwapValue(odd, b);
    JacReciprocity(odd, b);
    if (odd / 2) % 2 == 1 && (b / 2) % 2 == 1 {
      ret' := -ret';
    }
    GcdStep(odd, b);
    Reduced(b, odd);
    a', b' := b % odd, odd;
  }

  lemma SecondBits(n: nat)
    requires n % 2 == 1
    ensures (n / 2) % 2 == 1 <==> n % 4 == 3
  {
    var q, r := n / 4, n % 4;
    assert r == 1 || r == 3 by { assert r == 2 * (n / 2 - 2 * q) + 1; }
    DivModUnique(n / 2, 2, q, if r == 3 then 1 else 0);
  }

  lemma Reduced(b: int, a: int)
    requires a > 0 && a % 2 == 1
    ensures Jac(b % a, a) == Jac(b, a)
  {
    CongMod(b, a);
    JacCong(b % a, b, a);
  }

  /** Returns the Jacobi symbol of |x| for every odd y: the absolute value is taken before reducing. */
  method Jacobi(x: int, y: nat) returns (r: Outcome)
    requires y > 0
    ensures r.EvenModulus? <==> y % 2 == 0
    ensures r.Symbol? ==> -1 <= r.value <= 1
    ensures r.Symbol? ==> (r.value == 0 <==> Gcd(Abs(x), y) != 1)
    ensures r.Symbol? ==> r.value == Jac(Abs(x), y)
  {
    hide Jac, Gcd;
    var b := y;
    if b % 2 == 0 {
      return EvenModulus;
    }
    var a: nat := Abs(x);
    if x < 0 {
      GcdMod(a, b);
      Reduced(a, b);
      a := a % b;
    }
    var ret := 1;
    while a != 0
      invariant b > 0 && b % 2 == 1 && (ret == 1 || ret == -1)
      invariant Gcd(a, b) == Gcd(Abs(x), y)
      invariant ret * Jac(a, b) == Jac(Abs(x), y)
      decreases a
    {
      ret, a, b := Step(ret, a, b);
    }
    JacZero(b);
    GcdZero(b);
    if b != 1 {
      ret := 0;
    }
    r := Symbol(ret);
  }

  /** The result is the symbol of x itself exactly when x is not negative, y is 1 modulo 4, or the
      symbol vanishes; otherwise it has the wrong sign. */
  lemma NegativeArgument(x: int, y: nat)
    requires y % 2 == 1
    ensures x < 0 ==> Jac(Abs(x), y) == Sign(Half(y)) * Jac(x, y)
    ensures Jac(Abs(x), y) == Jac(x, y) <==> x >= 0 || y % 4 == 1 || Jac(x, y) == 0
  {
    hide Jac, Sign;
    SignHalf(y);
    if x < 0 {
      JacMinusOne(y);
      JacUpper(-1, x, y);
      assert -1 * x == Abs(x);
    }
  }

  lemma SignHalf(y: int)
    requires y % 2 == 1
    ensures Sign(Half(y)) == if y % 4 == 1 then 1 else -1
  {
    var t, r, s := y / 4, y % 4, y / 2;
    assert y == 4 * t + r && y == 2 * s + 1 && r == 2 * (s - 2 * t) + 1;
    DivModUnique(s, 2, t, s - 2 * t);
  }

  /** Negative x is documented as reduced first; for -1 and 3 the code gives 1, the symbol is -1. */
  lemma NegativeExample()
    ensures Jac(Abs(-1), 3) == 1 && Jac(-1, 3) == -1
  {
    hide Jac;
    JacOne(3);
    JacMinusOne(3);
  }
}
