/** Quadratic residues modulo an odd prime, and Euler's criterion by pairing each unit x with
    the unit y such that x * y == n. */
module QuadraticResidues {
  import opened NumberTheory

  function Pow(b: int, e: nat): int {
    if e == 0 then 1 else b * Pow(b, e - 1)
  }

  ghost predicate RootOf(y: int, x: int, p: int)
    requires p > 0
  {
    Cong(y * y, x, p)
  }

  ghost predicate Residue(x: int, p: int)
    requires p > 0
  {
    exists y :: 0 <= y < p && RootOf(y, x, p)
  }

  lemma ResidueIntro(y: int, x: int, p: int)
    requires p > 0 && Cong(y * y, x, p)
    ensures Residue(x, p)
  {
    var r := y % p;
    CongMod(y, p);
    CongMul(r, y, r, y, p);
    CongTrans(r * r, y * y, x, p);
    assert RootOf(r, x, p);
  }

  lemma ResidueCong(x: int, y: int, p: int)
    requires p > 0 && Cong(x, y, p) && Residue(x, p)
    ensures Residue(y, p)
  {
    var r :| 0 <= r < p && RootOf(r, x, p);
    CongTrans(r * r, x, y, p);
    assert RootOf(r, y, p);
  }

  /** A non-residue is neither 0 nor 1 modulo p. */
  lemma NonResidueUnit(x: int, p: int)
    requires p > 1 && !Residue(x, p)
    ensures !Divides(p, x) && !Divides(p, x - 1)
  {
    if Divides(p, x) {
      CongIntro(0 * 0, x, p, -(x / p));
      ResidueIntro(0, x, p);
      assert false;
    }
    if Divides(p, x - 1) {
      assert x - 1 == ((x - 1) / p) * p;
      CongIntro(1 * 1, x, p, -((x - 1) / p));
      ResidueIntro(1, x, p);
      assert false;
    }
  }

  /** Multiplying by the square of a unit keeps a non-residue a non-residue. */
  lemma NonResidueTimesSquare(x: int, s: int, z: int, p: int)
    requires Prime(p) && !Residue(x, p) && !Divides(p, s) && Cong(z, x * (s * s), p)
    ensures !Residue(z, p)
  {
    hide Cong, Divides, Units, Prod, Pow;
    if Residue(z, p) {
      var y :| 0 <= y < p && RootOf(y, z, p);
      var i := InverseExists(s, p);
      CongTrans(y * y, z, x * (s * s), p);
      // (y * i)^2 == x * (s * i)^2 == x
      CongMul(s * i, 1, s * i, 1, p);
      CongScale((s * i) * (s * i), 1, x, p);
      CongScale(y * y, x * (s * s), i * i, p);
      SquareShuffle(x, y, s, i);
      CongTrans((y * i) * (y * i), x * ((s * i) * (s * i)), x, p);
      ResidueIntro(y * i, x, p);
      assert false;
    }
  }

  lemma SquareShuffle(x: int, y: int, s: int, i: int)
    ensures (i * i) * (y * y) == (y * i) * (y * i)
    ensures (i * i) * (x * (s * s)) == x * ((s * i) * (s * i))
  {
    assert (i * i) * (x * (s * s)) == x * ((i * i) * (s * s));
    assert (i * i) * (s * s) == (s * i) * (s * i);
  }

  // ----- products over sets

  lemma NonEmpty(s: set<int>)
    ensures s == {} || exists x :: x in s
  {
    if forall x :: x !in s {
      assert s == {};
    }
  }

  ghost function Pick(s: set<int>): (x: int)
    requires s != {}
    ensures x in s
  {
    NonEmpty(s);
    var x :| x in s;
    x
  }

  ghost function Prod(s: set<int>): int {
    if s == {} then 1 else var x := Pick(s); x * Prod(s - {x})
  }

  lemma {:induction false} ProdRemove(s: set<int>, y: int)
    requires y in s
    ensures Prod(s) == y * Prod(s - {y})
    decreases |s|
  {
    var x := Pick(s);
    if x != y {
      var R := Prod(s - {x} - {y});
      ProdRemove(s - {x}, y);
      ProdRemove(s - {y}, x);
      assert s - {y} - {x} == s - {x} - {y};
      MulSwap(x, y, R);
    }
  }

  lemma ProdRemoveTwo(s: set<int>, x: int, y: int)
    requires x in s && y in s && x != y
    ensures |s - {x} - {y}| == |s| - 2
    ensures Prod(s) == (x * y) * Prod(s - {x} - {y})
  {
    ProdRemove(s, x);
    ProdRemove(s - {x}, y);
    MulAssoc(x, y, Prod(s - {x} - {y}));
  }

  lemma PowStep(n: int, e: nat)
    ensures Pow(n, 0) == 1
    ensures Pow(n, e + 1) == n * Pow(n, e)
  {
  }

  lemma NegPow(n: int, e: nat)
    ensures -n * Pow(n, e) == -Pow(n, e + 1)
  {
  }

  predicate IsUnit(x: int, p: int) {
    1 <= x < p
  }

  ghost predicate AllUnits(s: set<int>, p: int) {
    forall x :: x in s ==> IsUnit(x, p)
  }

  /** 1, ..., p - 1 */
  ghost function Units(p: int): (r: set<int>)
    ensures forall x :: x in r <==> IsUnit(x, p)
    ensures p >= 1 ==> |r| == p - 1
  {
    if p <= 1 then {} else Units(p - 1) + {p - 1}
  }

  lemma UnitNotDivisible(x: int, p: int)
    requires p > 0 && 1 <= x < p
    ensures !Divides(p, x)
  {
    DivModUnique(x, p, 0, x);
  }

  lemma UnitsCongEqual(x: int, y: int, p: int)
    requires p > 0 && 0 <= x < p && 0 <= y < p && Cong(x, y, p)
    ensures x == y
  {
    CongIffMod(x, y, p);
    DivModUnique(x, p, 0, x);
    DivModUnique(y, p, 0, y);
  }

  // ----- pairing

  ghost predicate Partners(x: int, y: int, n: int, p: int)
    requires p > 0
  {
    Cong(x * y, n, p)
  }

  ghost predicate HasPartner(x: int, s: set<int>, n: int, p: int)
    requires p > 0
  {
    exists y :: y in s && y != x && Partners(x, y, n, p)
  }

  /** Every element of s has a partner in s other than itself. */
  ghost predicate Paired(s: set<int>, n: int, p: int)
    requires p > 0
  {
    forall x {:trigger HasPartner(x, s, n, p)} :: x in s ==> HasPartner(x, s, n, p)
  }

  lemma PartnersSym(x: int, y: int, n: int, p: int)
    requires p > 0 && Partners(x, y, n, p)
    ensures Partners(y, x, n, p)
  {
    assert x * y == y * x;
  }

  /** Taking a pair out of a paired set leaves a paired set. */
  lemma RemovePair(s: set<int>, x: int, y: int, n: int, p: int)
    requires Prime(p) && AllUnits(s, p) && Paired(s, n, p) && x in s && y in s && Partners(x, y, n, p)
    ensures Paired(s - {x} - {y}, n, p)
  {
    hide Cong, Divides, Partners, Prime;
    PartnersSym(x, y, n, p);
    forall z | z in s - {x} - {y} ensures HasPartner(z, s - {x} - {y}, n, p) {
      assert HasPartner(z, s, n, p);
      var w :| w in s && w != z && Partners(z, w, n, p);
      PartnersSym(z, w, n, p);
      if w == x {
        PartnerUnique(x, z, y, n, p);
      } else if w == y {
        PartnerUnique(y, z, x, n, p);
      }
    }
  }

  lemma PartnerUnique(x: int, y: int, z: int, n: int, p: int)
    requires Prime(p) && IsUnit(x, p) && IsUnit(y, p) && IsUnit(z, p)
    requires Partners(x, y, n, p) && Partners(x, z, n, p)
    ensures y == z
  {
    UnitNotDivisible(x, p);
    CongSym(x * z, n, p);
    CongTrans(x * y, n, x * z, p);
    CancelFactor(p, x, y, z);
    UnitsCongEqual(y, z, p);
  }

  lemma PartnerExists(x: int, n: int, p: int) returns (y: int)
    requires Prime(p) && IsUnit(x, p) && IsUnit(n, p)
    ensures IsUnit(y, p) && Partners(x, y, n, p)
  {
    hide Cong, Divides, Units, Prod, Pow;
    UnitNotDivisible(x, p);
    UnitNotDivisible(n, p);
    var i := InverseExists(x, p);
    y := (i * n) % p;
    CongMod(i * n, p);
    CongScale(y, i * n, x, p);
    assert x * (i * n) == n * (x * i) by { MulSwap(n, x, i); assert n * i == i * n; }
    CongScale(x * i, 1, n, p);
    CongTrans(x * y, x * (i * n), n, p);
    CongZero(n, p);
    assert y == 0 ==> x * y == 0;
  }

  /** The product of a paired set is n to the number of pairs. */
  lemma {:induction false} PairedProduct(s: set<int>, n: int, p: int)
    requires Prime(p) && AllUnits(s, p) && Paired(s, n, p)
    ensures |s| % 2 == 0 && Cong(Prod(s), Pow(n, |s| / 2), p)
    decreases |s|
  {
    hide Cong, Divides, Pow;
    PowStep(n, 0);
    if s == {} {
      CongIntro(1, 1, p, 0);
      assert Prod(s) == 1;
    } else {
      var x := Pick(s);
      assert HasPartner(x, s, n, p);
      var y :| y in s && y != x && Partners(x, y, n, p);
      var t := s - {x} - {y};
      RemovePair(s, x, y, n, p);
      PairedProduct(t, n, p);
      ProdRemoveTwo(s, x, y);
      CongMul(x * y, n, Prod(t), Pow(n, |t| / 2), p);
      PowStep(n, |t| / 2);
    }
  }

  /** n is not a residue: the units are paired by n. */
  lemma NonResiduePairing(n: int, p: int)
    requires Prime(p) && IsUnit(n, p) && !Residue(n, p)
    ensures p % 2 == 1
    ensures Cong(Prod(Units(p)), Pow(n, (p - 1) / 2), p)
  {
    hide Cong, Divides, Units, Prod, Pow;
    forall x | x in Units(p) ensures HasPartner(x, Units(p), n, p) {
      var y := PartnerExists(x, n, p);
      if y == x {
        ResidueIntro(x, n, p);
      }
    }
    PairedProduct(Units(p), n, p);
  }

  /** n == a^2: the units other than a and -a are paired by n. */
  lemma RootsRemoved(n: int, a: int, p: int)
    requires Prime(p) && p > 2 && IsUnit(n, p) && IsUnit(a, p) && Cong(a * a, n, p)
    ensures Paired(Units(p) - {a} - {p - a}, n, p)
  {
    hide Cong, Divides, Units, Prod, Pow;
    var b := p - a;
    var s := Units(p) - {a} - {b};
    NegSquare(a, p, n);
    forall x | x in s ensures HasPartner(x, s, n, p) {
      var y := PartnerExists(x, n, p);
      PartnersSym(x, y, n, p);
      if y == a {
        PartnerUnique(a, x, a, n, p);
      } else if y == b {
        PartnerUnique(b, x, b, n, p);
      } else if y == x {
        RootsOfSquare(x, a, n, p);
      }
    }
  }

  lemma ResiduePairing(n: int, a: int, p: int)
    requires Prime(p) && p > 2 && IsUnit(n, p) && IsUnit(a, p) && Cong(a * a, n, p)
    ensures Cong(Prod(Units(p)), -Pow(n, (p - 1) / 2), p)
  {
    hide Cong, Divides, Units, Prod, Pow;
    var b := p - a;
    OddPrime(p);
    assert a != b;
    var s := Units(p) - {a} - {b};
    RootsRemoved(n, a, p);
    PairedProduct(s, n, p);
    ProdRemoveTwo(Units(p), a, b);
    RootsMultiply(n, a, p);
    CongMul(a * b, -n, Prod(s), Pow(n, (p - 3) / 2), p);
    NegPow(n, (p - 3) / 2);
  }

  /** a * (p - a) == -a^2 == -n */
  lemma RootsMultiply(n: int, a: int, p: int)
    requires p > 0 && Cong(a * a, n, p)
    ensures Cong(a * (p - a), -n, p)
  {
    hide Cong, Divides, Units, Prod, Pow;
    assert a * (p - a) == -(a * a) + a * p;
    CongIntro(a * (p - a), -(a * a), p, a);
    CongScale(a * a, n, -1, p);
    CongTrans(a * (p - a), -(a * a), -n, p);
  }

  lemma OddPrime(p: int)
    requires Prime(p) && p > 2
    ensures p % 2 == 1
  {
    assert !Divides(2, p);
  }

  lemma NegSquare(a: int, p: int, n: int)
    requires p > 0 && Cong(a * a, n, p)
    ensures Cong((p - a) * (p - a), n, p)
  {
    assert (p - a) * (p - a) == a * a + (p - 2 * a) * p;
    CongIntro((p - a) * (p - a), a * a, p, p - 2 * a);
    CongTrans((p - a) * (p - a), a * a, n, p);
  }

  lemma RootsOfSquare(x: int, a: int, n: int, p: int)
    requires Prime(p) && IsUnit(x, p) && IsUnit(a, p) && Cong(x * x, n, p) && Cong(a * a, n, p)
    ensures x == a || x == p - a
  {
    hide Cong;
    CongSym(a * a, n, p);
    CongTrans(x * x, n, a * a, p);
    DifferenceOfSquares(x, a, p);
    EuclidLemma(p, x - a, x + a);
    if Divides(p, x - a) {
      SmallMultiple((x - a) / p, p);
    } else {
      TwiceBounded(x + a, p);
    }
  }

  lemma DifferenceOfSquares(x: int, a: int, p: int)
    requires p > 0 && Cong(x * x, a * a, p)
    ensures Divides(p, (x - a) * (x + a))
  {
    assert x * x - a * a == (x - a) * (x + a);
  }

  lemma TwiceBounded(x: int, p: int)
    requires 0 < x < 2 * p && Divides(p, x)
    ensures x == p
  {
    SmallMultiple(x / p - 1, p);
  }

  /** Euler's criterion. */
  lemma EulerCriterion(n: int, p: int)
    requires Prime(p) && p > 2 && IsUnit(n, p)
    ensures Residue(n, p) <==> Cong(Pow(n, (p - 1) / 2), 1, p)
    ensures !Residue(n, p) <==> Cong(Pow(n, (p - 1) / 2), -1, p)
  {
    hide Cong, Divides, Units, Prod, Pow;
    var h := (p - 1) / 2;
    var P := Prod(Units(p));
    // Wilson: the product of the units is -1
    CongIntro(1 * 1, 1, p, 0);
    ResiduePairing(1, 1, p);
    PowOne(h);
    assert Cong(P, -1, p);
    if Residue(n, p) {
      var a :| 0 <= a < p && RootOf(a, n, p);
      if a == 0 {
        UnitNotDivisible(n, p);
        assert a * a == 0;
        CongSym(0, n, p);
        assert false;
      }
      ResiduePairing(n, a, p);
      CongSym(P, -Pow(n, h), p);
      CongTrans(-Pow(n, h), P, -1, p);
      CongScale(-Pow(n, h), -1, -1, p);
    } else {
      NonResiduePairing(n, p);
      CongSym(P, Pow(n, h), p);
      CongTrans(Pow(n, h), P, -1, p);
    }
    if Cong(Pow(n, h), 1, p) && Cong(Pow(n, h), -1, p) {
      CongSym(Pow(n, h), 1, p);
      CongTrans(1, Pow(n, h), -1, p);
      DivModUnique(2, p, 0, 2);
      assert false;
    }
  }

  lemma {:induction false} PowOne(e: nat)
    ensures Pow(1, e) == 1
  {
    if e > 0 { PowOne(e - 1); }
  }

  // ----- a non-residue exists

  function SquareMod(x: int, p: int): int
    requires p > 0
  {
    (x * x) % p
  }

  /** The squares of 1..h modulo p. */
  ghost function SquaresUpTo(h: nat, p: int): (q: set<int>)
    requires p > 0
    ensures |q| <= h
    ensures forall x :: 1 <= x <= h ==> SquareMod(x, p) in q
  {
    if h == 0 then {} else SquaresUpTo(h - 1, p) + {SquareMod(h, p)}
  }

  lemma NonResidueExists(p: int) returns (n: int)
    requires Prime(p) && p > 2
    ensures 2 <= n < p && !Residue(n, p)
  {
    hide Cong, Divides, Units, SquaresUpTo, SquareMod;
    OddPrime(p);
    var h := (p - 1) / 2;
    var q := SquaresUpTo(h, p);
    var rest := Units(p) - q;
    if rest == {} {
      assert Units(p) <= q by {
        forall x | x in Units(p) ensures x in q {
          assert x !in q ==> x in rest;
        }
      }
      SubsetSize(Units(p), q);
      assert false;
    }
    n := Pick(rest);
    if Residue(n, p) {
      ResidueIsSmallSquare(n, p);
    }
    if n == 1 {
      ResidueIntro(1, 1, p);
    }
  }

  lemma ResidueIsSmallSquare(n: int, p: int)
    requires p > 2 && p % 2 == 1 && IsUnit(n, p) && Residue(n, p)
    ensures exists x :: 1 <= x <= (p - 1) / 2 && SquareMod(x, p) == n
  {
    var a :| 0 <= a < p && RootOf(a, n, p);
    DivModUnique(n, p, 0, n);
    CongIffMod(a * a, n, p);
    NegSquare(a, p, n);
    CongIffMod((p - a) * (p - a), n, p);
    DivModUnique(0, p, 0, 0);
    var x := if a <= (p - 1) / 2 then a else p - a;
    assert SquareMod(x, p) == n;
  }

  lemma {:induction false} SubsetSize(a: set<int>, b: set<int>)
    requires a <= b
    ensures |a| <= |b|
  {
    if a != {} {
      var x := Pick(a);
      SubsetSize(a - {x}, b - {x});
    }
  }
}
