/** The Legendre symbol and Gauss's lemma. */
module Legendre {
  import opened NumberTheory
  import opened QuadraticResidues

  ghost predicate IsOddPrime(p: int) { Prime(p) && p > 2 }

  ghost function Leg(a: int, p: int): int
    requires IsOddPrime(p)
  {
    if Divides(p, a) then 0 else if Residue(a, p) then 1 else -1
  }

  function Half(p: int): int { (p - 1) / 2 }

  // ----- Powers

  lemma {:induction false} PowCong(a: int, b: int, e: nat, p: int)
    requires p > 0 && Cong(a, b, p)
    ensures Cong(Pow(a, e), Pow(b, e), p)
  {
    if e == 0 {
      CongIntro(1, 1, p, 0);
    } else {
      PowCong(a, b, e - 1, p);
      CongMul(a, b, Pow(a, e - 1), Pow(b, e - 1), p);
    }
  }

  lemma {:induction false} PowProduct(a: int, b: int, e: nat)
    ensures Pow(a * b, e) == Pow(a, e) * Pow(b, e)
  {
    if e > 0 {
      PowProduct(a, b, e - 1);
      Shuffle4(a, b, Pow(a, e - 1), Pow(b, e - 1));
    }
  }

  lemma Shuffle4(a: int, b: int, c: int, d: int)
    ensures (a * b) * (c * d) == (a * c) * (b * d)
  {
    MulAssoc(a * b, c, d);
    MulAssoc(a * c, b, d);
    assert (a * b) * c == (a * c) * b;
  }

  /** (-1)^n */
  function Sign(n: int): int { if n % 2 == 0 then 1 else -1 }

  lemma SignAdd(m: int, n: int)
    ensures Sign(m + n) == Sign(m) * Sign(n)
  {
  }

  lemma {:induction false} PowMinusOne(e: nat)
    ensures Pow(-1, e) == Sign(e)
  {
    if e > 0 {
      PowMinusOne(e - 1);
    }
  }

  // ----- Euler's criterion in terms of the symbol

  lemma SmallCongEqual(u: int, v: int, p: int)
    requires p > 2 && -1 <= u <= 1 && -1 <= v <= 1 && Cong(u, v, p)
    ensures u == v
  {
    var k := Quot(u, v, p);
    assert u - v == k * p;
    if k > 0 {
      MulMono(1, k, p);
    } else if k < 0 {
      MulMono(k, -1, p);
    }
  }

  lemma ModUnit(a: int, p: int)
    requires p > 0 && !Divides(p, a)
    ensures IsUnit(a % p, p)
  {
  }

  lemma LegEuler(a: int, p: int)
    requires IsOddPrime(p)
    ensures Half(p) >= 1 && Cong(Pow(a, Half(p)), Leg(a, p), p)
  {
    hide Cong, Pow, Residue;
    var n, h := a % p, Half(p);
    CongMod(a, p);
    if Divides(p, a) {
      CongZero(a, p);
      PowCong(a, 0, h, p);
      PowStep(0, h - 1);
    } else {
      ModUnit(a, p);
      EulerCriterion(n, p);
      if Residue(a, p) {
        ResidueCong(a, n, p);
      }
      if Residue(n, p) {
        ResidueCong(n, a, p);
      }
      PowCong(a, n, h, p);
      CongTrans(Pow(a, h), Pow(n, h), Leg(a, p), p);
    }
  }

  /** The symbol is determined by Euler's criterion. */
  lemma LegByEuler(a: int, p: int, v: int)
    requires IsOddPrime(p) && -1 <= v <= 1 && Half(p) >= 1 && Cong(Pow(a, Half(p)), v, p)
    ensures Leg(a, p) == v
  {
    hide Cong, Pow, Leg;
    LegEuler(a, p);
    LegRange(a, p);
    CongSym(Pow(a, Half(p)), Leg(a, p), p);
    CongTrans(Leg(a, p), Pow(a, Half(p)), v, p);
    SmallCongEqual(Leg(a, p), v, p);
  }

  lemma LegRange(a: int, p: int)
    requires IsOddPrime(p)
    ensures -1 <= Leg(a, p) <= 1
    ensures Leg(a, p) == 0 <==> Divides(p, a)
  {
  }

  lemma LegCong(a: int, b: int, p: int)
    requires IsOddPrime(p) && Cong(a, b, p)
    ensures Leg(a, p) == Leg(b, p)
  {
    hide Cong, Pow, Leg;
    LegEuler(b, p);
    LegRange(b, p);
    PowCong(a, b, Half(p), p);
    CongTrans(Pow(a, Half(p)), Pow(b, Half(p)), Leg(b, p), p);
    LegByEuler(a, p, Leg(b, p));
  }

  lemma LegMul(a: int, b: int, p: int)
    requires IsOddPrime(p)
    ensures Leg(a * b, p) == Leg(a, p) * Leg(b, p)
  {
    hide Cong, Pow, Leg;
    var h := Half(p);
    LegEuler(a, p);
    LegEuler(b, p);
    LegRange(a, p);
    LegRange(b, p);
    PowProduct(a, b, h);
    CongMul(Pow(a, h), Leg(a, p), Pow(b, h), Leg(b, p), p);
    LegByEuler(a * b, p, Leg(a, p) * Leg(b, p));
  }

  /** The first supplement. */
  lemma LegMinusOne(p: int)
    requires IsOddPrime(p)
    ensures Leg(-1, p) == Sign(Half(p))
  {
    hide Cong, Pow, Leg;
    PowMinusOne(Half(p));
    CongIntro(Pow(-1, Half(p)), Sign(Half(p)), p, 0);
    LegByEuler(-1, p, Sign(Half(p)));
  }

  // ----- Sums and sizes of sets

  ghost function SetSum(s: set<int>): int {
    if s == {} then 0 else var x := Pick(s); x + SetSum(s - {x})
  }

  lemma {:induction false} SumRemove(s: set<int>, y: int)
    requires y in s
    ensures SetSum(s) == y + SetSum(s - {y})
    decreases |s|
  {
    var x := Pick(s);
    if x != y {
      SumRemove(s - {x}, y);
      SumRemove(s - {y}, x);
      assert s - {y} - {x} == s - {x} - {y};
    }
  }

  lemma SameSizeSubset(a: set<int>, b: set<int>)
    requires a <= b && |a| == |b|
    ensures a == b
  {
    forall x | x in b ensures x in a {
      if x !in a {
        SubsetSize(a, b - {x});
      }
    }
  }

  function Fact(n: nat): int { if n == 0 then 1 else n * Fact(n - 1) }

  function Triangle(n: nat): int { if n == 0 then 0 else n + Triangle(n - 1) }

  lemma {:induction false} ProdOfUnits(n: nat)
    ensures Prod(Units(n + 1)) == Fact(n) && SetSum(Units(n + 1)) == Triangle(n)
  {
    if n > 0 {
      ProdOfUnits(n - 1);
      ProdRemove(Units(n + 1), n);
      SumRemove(Units(n + 1), n);
      assert Units(n + 1) - {n} == Units(n);
    }
  }

  lemma {:induction false} FactNotDivisible(n: nat, p: int)
    requires Prime(p) && n < p
    ensures !Divides(p, Fact(n))
  {
    if n == 0 {
      UnitNotDivisible(1, p);
    } else {
      FactNotDivisible(n - 1, p);
      UnitNotDivisible(n, p);
      if Divides(p, Fact(n)) {
        EuclidLemma(p, n, Fact(n - 1));
      }
    }
  }

  // ----- Gauss's lemma

  function Rem(a: int, k: int, p: int): int
    requires p > 0
  {
    (a * k) % p
  }

  predicate High(a: int, k: int, p: int)
    requires p > 0
  {
    Rem(a, k, p) > Half(p)
  }

  /** The residue of a * k nearest to zero, without its sign. */
  function Low(a: int, k: int, p: int): int
    requires p > 0
  {
    if High(a, k, p) then p - Rem(a, k, p) else Rem(a, k, p)
  }

  ghost predicate Setup(a: int, p: int) {
    IsOddPrime(p) && p % 2 == 1 && !Divides(p, a)
  }

  lemma OddPrimes(p: int)
    requires IsOddPrime(p)
    ensures p % 2 == 1 && p == 2 * Half(p) + 1
  {
    OddPrime(p);
  }

  lemma LowRange(a: int, k: int, p: int)
    requires Setup(a, p) && 1 <= k <= Half(p)
    ensures 1 <= Low(a, k, p) <= Half(p)
    ensures Cong(a * k, if High(a, k, p) then -Low(a, k, p) else Low(a, k, p), p)
  {
    hide Cong, Divides;
    var r := Rem(a, k, p);
    if r == 0 {
      assert Divides(p, a * k) by { RemainderZero(a * k, p); }
      EuclidLemma(p, a, k);
      UnitNotDivisible(k, p);
      assert false;
    }
    CongMod(a * k, p);
    if High(a, k, p) {
      CongIntro(r, -(p - r), p, 1);
      CongTrans(a * k, r, -(p - r), p);
    }
  }

  lemma RemainderZero(x: int, p: int)
    requires p > 0 && x % p == 0
    ensures Divides(p, x)
  {
  }

  /** Distinct k have distinct least residues. */
  lemma LowInjective(a: int, j: int, k: int, p: int)
    requires Setup(a, p) && 1 <= j < k <= Half(p)
    ensures Low(a, j, p) != Low(a, k, p)
  {
    hide Cong, Divides, Low;
    LowRange(a, j, p);
    LowRange(a, k, p);
    var l := Low(a, j, p);
    if l == Low(a, k, p) {
      if High(a, j, p) == High(a, k, p) {
        var s := if High(a, j, p) then -l else l;
        CongSym(a * k, s, p);
        CongTrans(a * j, s, a * k, p);
        CancelFactor(p, a, j, k);
        UnitsCongEqual(j, k, p);
      } else {
        var s := if High(a, j, p) then -l else l;
        CongAdd(a * j, s, a * k, -s, p);
        assert a * j + a * k == a * (j + k) && a * 0 == 0;
        CancelFactor(p, a, j + k, 0);
        UnitsCongEqual(j + k, 0, p);
      }
    }
  }

  ghost function Image(a: int, n: nat, p: int): set<int>
    requires p > 0
  {
    if n == 0 then {} else Image(a, n - 1, p) + {Low(a, n, p)}
  }

  ghost function Mu(a: int, n: nat, p: int): nat
    requires p > 0
  {
    if n == 0 then 0 else Mu(a, n - 1, p) + if High(a, n, p) then 1 else 0
  }

  lemma {:induction false} ImageMembers(a: int, n: nat, m: nat, p: int)
    requires Setup(a, p) && n < m <= Half(p)
    ensures Low(a, m, p) !in Image(a, n, p)
  {
    if n > 0 {
      ImageMembers(a, n - 1, m, p);
      LowInjective(a, n, m, p);
    }
  }

  lemma {:induction false} ImageInRange(a: int, n: nat, p: int)
    requires Setup(a, p) && n <= Half(p)
    ensures Image(a, n, p) <= Units(Half(p) + 1) && |Image(a, n, p)| == n
  {
    hide Low;
    if n > 0 {
      ImageInRange(a, n - 1, p);
      ImageMembers(a, n - 1, n, p);
      LowRange(a, n, p);
      assert IsUnit(Low(a, n, p), Half(p) + 1);
    }
  }

  /** Reducing a, 2a, ..., ha gives exactly 1, ..., h up to order and sign. */
  lemma ImageIsEverything(a: int, p: int)
    requires Setup(a, p)
    ensures Half(p) >= 0 && Image(a, Half(p), p) == Units(Half(p) + 1)
  {
    ImageInRange(a, Half(p), p);
    SameSizeSubset(Image(a, Half(p), p), Units(Half(p) + 1));
  }

  lemma {:induction false} GaussProduct(a: int, n: nat, p: int)
    requires Setup(a, p) && n <= Half(p)
    ensures Cong(Pow(a, n) * Fact(n), Sign(Mu(a, n, p)) * Prod(Image(a, n, p)), p)
  {
    hide Cong, Divides, Low, High, Prod;
    if n == 0 {
      assert Image(a, 0, p) == {};
      ProdEmpty();
      CongIntro(1, 1, p, 0);
    } else {
      GaussProduct(a, n - 1, p);
      LowRange(a, n, p);
      ImageMembers(a, n - 1, n, p);
      var l, I := Low(a, n, p), Image(a, n - 1, p);
      var s := if High(a, n, p) then -1 else 1;
      ProdRemove(Image(a, n, p), l);
      assert Image(a, n, p) - {l} == I;
      CongMul(Pow(a, n - 1) * Fact(n - 1), Sign(Mu(a, n - 1, p)) * Prod(I), a * n, s * l, p);
      Shuffle4(Pow(a, n - 1), Fact(n - 1), a, n);
      Shuffle4(Sign(Mu(a, n - 1, p)), Prod(I), s, l);
      SignAdd(Mu(a, n - 1, p), if High(a, n, p) then 1 else 0);
      assert Pow(a, n) == Pow(a, n - 1) * a && Fact(n) == Fact(n - 1) * n;
      assert Prod(Image(a, n, p)) == Prod(I) * l;
    }
  }

  lemma ProdEmpty()
    ensures Prod({}) == 1
  {
  }

  /** Gauss's lemma. */
  lemma GaussLemma(a: int, p: int)
    requires Setup(a, p)
    ensures Half(p) >= 1 && Leg(a, p) == Sign(Mu(a, Half(p), p))
  {
    hide Cong, Divides, Leg, Pow, Prod, Mu;
    var h := Half(p);
    var f, s := Fact(h), Sign(Mu(a, h, p));
    GaussProduct(a, h, p);
    ImageIsEverything(a, p);
    ProdOfUnits(h);
    FactNotDivisible(h, p);
    assert Pow(a, h) * f == f * Pow(a, h) && s * f == f * s;
    CancelFactor(p, f, Pow(a, h), s);
    LegByEuler(a, p, s);
  }

  // ----- Parity of the exponent

  /** The quotients of a, 2a, ..., na by p. */
  ghost function Quotients(a: int, n: nat, p: int): int
    requires p > 0
  {
    if n == 0 then 0 else Quotients(a, n - 1, p) + (a * n) / p
  }

  ghost function LowSum(a: int, n: nat, p: int): int
    requires p > 0
  {
    if n == 0 then 0 else LowSum(a, n - 1, p) + Low(a, n, p)
  }

  lemma OddTimes(p: int, t: int)
    requires p % 2 == 1
    ensures (p * t) % 2 == t % 2
  {
    var h := p / 2;
    assert p * t == 2 * (h * t) + t;
    EvenDifference(p * t, t, h * t);
  }

  lemma TermParity(a: int, k: int, p: int)
    requires p > 0 && p % 2 == 1
    ensures (a * k) % 2 == ((a * k) / p + Low(a, k, p) + if High(a, k, p) then 1 else 0) % 2
  {
    var x := a * k;
    var t, r, h := x / p, x % p, p / 2;
    assert x == p * t + r && p == 2 * h + 1;
    assert p * t == 2 * (h * t) + t;
    if High(a, k, p) {
      EvenDifference(x, t + Low(a, k, p) + 1, h * t + h - Low(a, k, p));
    } else {
      EvenDifference(x, t + Low(a, k, p), h * t);
    }
  }

  lemma EvenDifference(x: int, y: int, z: int)
    requires x - y == 2 * z
    ensures x % 2 == y % 2
  {
  }

  lemma AddParity(x: int, y: int, u: int, v: int)
    requires x % 2 == y % 2 && u % 2 == v % 2
    ensures (x + u) % 2 == (y + v) % 2
  {
    EvenDifference(x + u, y + v, x / 2 - y / 2 + u / 2 - v / 2);
  }

  lemma {:induction false} ParitySum(a: int, n: nat, p: int)
    requires p > 0 && p % 2 == 1
    ensures (a * Triangle(n)) % 2 == (Quotients(a, n, p) + LowSum(a, n, p) + Mu(a, n, p)) % 2
  {
    hide Low, High;
    if n > 0 {
      ParitySum(a, n - 1, p);
      TermParity(a, n, p);
      var high := if High(a, n, p) then 1 else 0;
      AddParity(a * Triangle(n - 1), Quotients(a, n - 1, p) + LowSum(a, n - 1, p) + Mu(a, n - 1, p),
        a * n, (a * n) / p + Low(a, n, p) + high);
      assert a * Triangle(n) == a * n + a * Triangle(n - 1);
    }
  }

  lemma {:induction false} LowSumOfImage(a: int, n: nat, p: int)
    requires Setup(a, p) && n <= Half(p)
    ensures LowSum(a, n, p) == SetSum(Image(a, n, p))
  {
    hide Low;
    if n > 0 {
      LowSumOfImage(a, n - 1, p);
      ImageMembers(a, n - 1, n, p);
      SumRemove(Image(a, n, p), Low(a, n, p));
      assert Image(a, n, p) - {Low(a, n, p)} == Image(a, n - 1, p);
    }
  }

  /** Modulo two, the exponent of Gauss's lemma is the sum of the quotients plus (a - 1) times the
      sum of 1, ..., h. */
  lemma ExponentParity(a: int, p: int)
    requires Setup(a, p)
    ensures Half(p) >= 0 && (Mu(a, Half(p), p) + Quotients(a, Half(p), p)) % 2 == ((a - 1) * Triangle(Half(p))) % 2
  {
    var h := Half(p);
    ParitySum(a, h, p);
    LowSumOfImage(a, h, p);
    ImageIsEverything(a, p);
    ProdOfUnits(h);
    hide Quotients, LowSum, Mu, Triangle, Image, SetSum, Divides;
    LessOne(a, Triangle(h));
    MoveParity(a * Triangle(h), Quotients(a, h, p), Triangle(h), Mu(a, h, p));
  }

  lemma LessOne(a: int, t: int)
    ensures (a - 1) * t == a * t - t
  {
  }

  lemma MoveParity(x: int, q: int, s: int, m: int)
    requires x % 2 == (q + s + m) % 2
    ensures (m + q) % 2 == (x - s) % 2
  {
  }
}
