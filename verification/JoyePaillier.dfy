/** Joye-Paillier safe-prime generation: the setup of joyepaillier.go and the candidate orbit of
    primes.go (CHES 2006, section 4.2 and figure 6). */
module JoyePaillier {
  import opened Options
  import opened NumberTheory
  import opened QuadraticResidues

  const MAX_ORBIT_ITER := 65536
  const UINT64_SIZE := 0x1_0000_0000_0000_0000

  function Pow2(n: nat): (r: nat)
    ensures r >= 1
  {
    if n == 0 then 1 else 2 * Pow2(n - 1)
  }

  lemma {:induction false} Pow2Add(a: nat, b: nat)
    ensures Pow2(a + b) == Pow2(a) * Pow2(b)
  {
    if b > 0 {
      Pow2Add(a, b - 1);
      assert Pow2(a) * (2 * Pow2(b - 1)) == 2 * (Pow2(a) * Pow2(b - 1));
    }
  }

  // ----- the table of small primes

  /** What the setup relies on: distinct odd primes below 2^15, the first of them 3. */
  ghost predicate PrimeTable(t: seq<int>) {
    && |t| > 0 && t[0] == 3
    && (forall i :: 0 <= i < |t| ==> Prime(t[i]) && 2 < t[i] < 32768)
    && (forall i, j :: 0 <= i < j < |t| ==> t[i] != t[j])
  }

  function Product(s: seq<int>): int {
    if |s| == 0 then 1 else Product(s[..|s| - 1]) * s[|s| - 1]
  }

  lemma ProductStep(t: seq<int>, k: nat)
    requires k < |t|
    ensures Product(t[..k + 1]) == Product(t[..k]) * t[k]
  {
    assert t[..k + 1][..k] == t[..k];
  }

  lemma {:induction false} ProductFacts(t: seq<int>, k: nat)
    requires PrimeTable(t) && k <= |t|
    ensures Product(t[..k]) >= 1 && Product(t[..k]) % 2 == 1
    ensures forall i :: 0 <= i < k ==> Divides(t[i], Product(t[..k]))
    decreases k
  {
    if k > 0 {
      ProductFacts(t, k - 1);
      ProductStep(t, k - 1);
      var P, q := Product(t[..k - 1]), t[k - 1];
      OddTimesOdd(P, q) by { OddPrime(q); }
      assert P * q >= 1;
      forall i | 0 <= i < k ensures Divides(t[i], P * q) {
        if i < k - 1 {
          DividesProduct(t[i], P, q);
        } else {
          DividesIntro(q, P * q, P);
        }
      }
    }
  }

  lemma OddTimesOdd(a: int, b: int)
    requires a % 2 == 1 && b % 2 == 1
    ensures (a * b) % 2 == 1
  {
    assert a * b == 2 * ((a / 2) * b + b / 2) + 1;
  }

  /** A prime that divides a prefix product is one of its primes. */
  lemma {:induction false} ProductPrimes(t: seq<int>, k: nat, r: int)
    requires PrimeTable(t) && k <= |t| && Prime(r) && Divides(r, Product(t[..k]))
    ensures exists i :: 0 <= i < k && t[i] == r
    decreases k
  {
    if k == 0 {
      DividesBound(r, 1);
      assert false;
    } else {
      ProductStep(t, k - 1);
      EuclidLemma(r, Product(t[..k - 1]), t[k - 1]);
      if Divides(r, t[k - 1]) {
        DividesBound(r, t[k - 1]);
        assert r == t[k - 1];
      } else {
        ProductPrimes(t, k - 1, r);
      }
    }
  }

  lemma PrefixCoprime(t: seq<int>, k: nat)
    requires PrimeTable(t) && k < |t|
    ensures !Divides(t[k], Product(t[..k]))
  {
    if Divides(t[k], Product(t[..k])) {
      ProductPrimes(t, k, t[k]);
    }
  }

  // ----- (A) the sieve product

  /** Multiplies table entries into pi for as long as it fits. */
  method PickPi(t: seq<int>, target: int) returns (pi: int, nPi: nat)
    requires PrimeTable(t) && target >= 3
    ensures 1 <= nPi <= |t| && pi == Product(t[..nPi]) && 1 <= pi <= target
    ensures nPi < |t| ==> pi * t[nPi] > target
  {
    pi, nPi := 1, 0;
    while nPi < |t|
      invariant nPi <= |t| && pi == Product(t[..nPi]) && 1 <= pi <= target && (nPi == 0 ==> pi == 1)
    {
      var next := pi * t[nPi];
      ProductStep(t, nPi);
      if next > target {
        break;
      }
      assert next >= 1;
      pi, nPi := next, nPi + 1;
    }
  }

  // ----- (B) w and m

  /** The least inverse of a modulo n by brute force; 0 if there is none. */
  method ModInverseSmall(a: int, n: int) returns (x: int)
    requires n > 1
    ensures x == 0 || (1 <= x < n && (a % n * x) % n == 1)
    ensures forall y :: 1 <= y < (if x == 0 then n else x) ==> Product2(a % n, y) % n != 1
  {
    var r := a % n;
    x := 1;
    while x < n
      invariant 1 <= x <= n
      invariant forall y :: 1 <= y < x ==> Product2(r, y) % n != 1
    {
      if (r * x) % n == 1 {
        return;
      }
      x := x + 1;
    }
    x := 0;
  }

  function Product2(a: int, b: int): int { a * b }

  /** An odd number has an inverse modulo 16. */
  lemma OddInverse16(a: int) returns (y: int)
    requires a % 2 == 1
    ensures 1 <= y < 16 && Product2(a % 16, y) % 16 == 1
  {
    var r := a % 16;
    y := if r == 1 then 1 else if r == 3 then 11 else if r == 5 then 13 else if r == 7 then 7
         else if r == 9 then 9 else if r == 11 then 3 else if r == 13 then 5 else 15;
  }

  /** w is 4 or 12, whichever makes w * pi == 4 (mod 16). */
  function Multiplier(pi: int): (w: int)
    ensures w == 4 || w == 12
  {
    if pi % 4 == 1 then 4 else 12
  }

  /** m = w * pi */
  function Modulus(pi: int): int {
    if pi % 4 == 1 then 4 * pi else 12 * pi
  }

  lemma ModulusMod16(pi: int)
    requires pi % 2 == 1
    ensures Modulus(pi) % 16 == 4
  {
    if pi % 4 == 1 {
      FourTimes(pi);
    } else {
      OddMod4(pi);
      TwelveTimes(pi);
    }
  }

  lemma OddMod4(x: int)
    requires x % 2 == 1
    ensures x % 4 == 1 || x % 4 == 3
  {
    var k := x / 2;
    DivModUnique(x, 4, k / 2, 2 * (k % 2) + 1);
  }

  lemma FourTimes(pi: int)
    requires pi % 4 == 1
    ensures (4 * pi) % 16 == 4
  {
  }

  lemma TwelveTimes(pi: int)
    requires pi % 4 == 3
    ensures (12 * pi) % 16 == 4
  {
  }

  lemma ResidueIsMultiplier(pi: int, y: int)
    requires pi % 2 == 1 && 1 <= y < 16 && (pi % 16 * y) % 16 == 1
    ensures (4 * y) % 16 == Multiplier(pi)
  {
    hide Multiplier;
    OddResidue(pi);
    InverseMod4(pi % 16, y);
    FourTimesInverse(pi, y);
  }

  lemma OddResidue(pi: int)
    requires pi % 2 == 1
    ensures pi % 4 == (pi % 16) % 4 && (pi % 16) % 2 == 1
  {
  }

  lemma FourTimesInverse(pi: int, y: int)
    requires pi % 2 == 1 && y % 4 == pi % 4
    ensures (4 * y) % 16 == Multiplier(pi)
  {
  }

  /** Modulo 4 an odd residue is its own inverse. */
  lemma InverseMod4(r: int, y: int)
    requires 0 <= r < 16 && r % 2 == 1 && (r * y) % 16 == 1
    ensures y % 4 == r % 4
  {
    var a, c, b, d := r / 4, r % 4, y / 4, y % 4;
    var q := (r * y) / 16;
    ProductMod4(a, c, b, d);
    OwnInverse(c, d, 4 * q - (4 * a * b + a * d + b * c));
  }

  lemma ProductMod4(a: int, c: int, b: int, d: int)
    ensures (4 * a + c) * (4 * b + d) == 4 * (4 * a * b + a * d + b * c) + c * d
  {
  }

  lemma OwnInverse(c: int, d: int, q: int)
    requires (c == 1 || c == 3) && 0 <= d < 4 && c * d == 4 * q + 1
    ensures c == d
  {
    if c == 1 {
      assert d == 4 * q + 1;
    } else {
      assert 3 * d == 4 * q + 1;
    }
  }

  // ----- (C) l and bMax

  /** The least multiple of 4 * pi that is at least 2^(bits - 1). */
  function Anchor(bits: nat, pi: int): int
    requires bits >= 1 && pi >= 1
  {
    4 * pi * ((Pow2(bits - 1) + 4 * pi - 1) / (4 * pi))
  }

  function ShiftBound(bits: nat, pi: int): int
    requires bits >= 1 && pi >= 1
  {
    (Pow2(bits) - Anchor(bits, pi) - Modulus(pi)) / pi
  }

  lemma Pow2Scaled(bits: nat, pi: int)
    requires bits >= 16 && 1 <= pi <= Pow2(bits - 11)
    ensures 16 * pi <= Pow2(bits - 1) && Pow2(bits) == 2 * Pow2(bits - 1)
  {
    Pow2Add(bits - 11, 10);
    assert Pow2(10) == 1024;
  }

  lemma AnchorFacts(bits: nat, pi: int)
    requires bits >= 1 && pi >= 1
    ensures Pow2(bits - 1) <= Anchor(bits, pi) < Pow2(bits - 1) + 4 * pi
    ensures Anchor(bits, pi) % pi == 0 && Anchor(bits, pi) % 4 == 0
  {
    var half, d := Pow2(bits - 1), 4 * pi;
    var c := (half + d - 1) / d;
    var r := (half + d - 1) % d;
    assert half + d - 1 == d * c + r && 0 <= r < d;
    AnchorDivisible(pi, c);
  }

  lemma AnchorDivisible(pi: int, c: int)
    requires pi >= 1
    ensures (4 * pi * c) % pi == 0 && (4 * pi * c) % 4 == 0
  {
    assert 4 * pi * c == (4 * c) * pi;
    DividesIntro(pi, 4 * pi * c, 4 * c);
    assert 4 * pi * c == (pi * c) * 4;
    DividesIntro(4, 4 * pi * c, pi * c);
  }

  /** The largest shift that keeps every candidate below 2^bits. */
  lemma ShiftFacts(bits: nat, pi: int)
    requires bits >= 16 && 1 <= pi <= Pow2(bits - 11)
    ensures ShiftBound(bits, pi) >= 0
    ensures Anchor(bits, pi) + Modulus(pi) + ShiftBound(bits, pi) * pi <= Pow2(bits)
    ensures Pow2(bits) < Anchor(bits, pi) + Modulus(pi) + ShiftBound(bits, pi) * pi + pi
  {
    hide Anchor, Pow2;
    AnchorFacts(bits, pi);
    Pow2Scaled(bits, pi);
    var rest := Pow2(bits) - Anchor(bits, pi) - Modulus(pi);
    FloorFacts(rest, pi);
  }

  lemma FloorFacts(x: int, d: int)
    requires d >= 1
    ensures (x / d) * d <= x < (x / d) * d + d
    ensures x >= 0 ==> x / d >= 0
  {
    assert x == (x / d) * d + x % d;
  }

  /** Rounding the quotient up, and then up to a multiple of four, gives the anchor. */
  lemma AnchorByRounding(bits: nat, pi: int, v: int)
    requires bits >= 1 && pi >= 1 && v % 4 == 0
    requires Pow2(bits - 1) <= v * pi && (v - 4) * pi < Pow2(bits - 1)
    ensures v * pi == Anchor(bits, pi)
  {
    var half, d, c := Pow2(bits - 1), 4 * pi, v / 4;
    assert v == 4 * c;
    assert v * pi == c * d by { MulSwap(c, 4, pi); }
    assert (v - 4) * pi == v * pi - d;
    DivModUnique(half + d - 1, d, c, half + d - 1 - v * pi);
    assert c * d == d * c;
  }

  lemma CeilFacts(half: int, pi: int, v: int)
    requires pi >= 1 && v == half / pi + (if half % pi == 0 then 0 else 1)
    ensures half <= v * pi < half + pi
  {
    var q := half / pi;
    assert half == q * pi + half % pi;
    assert (q + 1) * pi == q * pi + pi;
  }

  lemma RoundToFour(half: int, pi: int, v1: int, v: int)
    requires pi >= 1 && half <= v1 * pi < half + pi && v1 <= v <= v1 + 3
    ensures half <= v * pi && (v - 4) * pi < half
  {
    MulMono(v1, v, pi);
    MulMono(v - 4, v1 - 1, pi);
    assert (v1 - 1) * pi == v1 * pi - pi;
  }

  lemma RoundUpToFour(v: int)
    ensures v % 4 != 0 ==> (v + (4 - v % 4)) % 4 == 0
  {
    if v % 4 != 0 {
      DivModUnique(v + (4 - v % 4), 4, v / 4 + 1, 0);
    }
  }

  /** Step (C): v and l. */
  method PickAnchor(bits: nat, pi: int) returns (l: int)
    requires bits >= 1 && pi >= 1
    ensures l == Anchor(bits, pi)
  {
    hide Anchor;
    var halfRange := Pow2(bits - 1);
    var v := halfRange / pi;
    if halfRange % pi != 0 {
      v := v + 1;
    }
    CeilFacts(halfRange, pi, v);
    ghost var v1 := v;
    RoundUpToFour(v);
    if v % 4 != 0 {
      v := v + (4 - v % 4);
    }
    RoundToFour(halfRange, pi, v1, v);
    AnchorByRounding(bits, pi, v);
    l := v * pi;
  }

  // ----- (D) the simultaneous non-residue

  /** The least n >= 2 that is not a square modulo p. */
  ghost predicate LeastNonResidue(n: int, p: int)
    requires p > 0
  {
    2 <= n < p && !Residue(n, p) && forall k :: 2 <= k < n ==> Residue(k, p)
  }

  /** Euler's criterion applied to 2, 3, ... in turn. */
  method SmallestQNRmod(p: int) returns (n: int)
    requires Prime(p) && p > 2
    ensures LeastNonResidue(n, p)
  {
    ghost var w := NonResidueExists(p);
    var exp := (p - 1) / 2;
    n := 2;
    while n < p
      invariant 2 <= n <= p
      invariant forall k :: 2 <= k < n ==> Residue(k, p)
    {
      EulerCriterion(n, p);
      CongIffMod(Pow(n, exp), -1, p);
      DivModUnique(-1, p, -1, p - 1);
      if Pow(n, exp) % p == p - 1 {
        return;
      }
      n := n + 1;
    }
    assert false;
  }

  lemma SmallInverseExists(a: int, p: int)
    requires Prime(p) && !Divides(p, a)
    ensures exists y :: 1 <= y < p && Product2(a % p, y) % p == 1
  {
    var b := InverseExists(a, p);
    var r := a % p;
    CongMod(a, p);
    CongIntro(b, b, p, 0);
    CongMul(r, a, b, b, p);
    CongTrans(r * b, a * b, 1, p);
    CongIffMod(r * b, 1, p);
    DivModUnique(1, p, 0, 1);
    DivModUnique(0, p, 0, 0);
    assert b == 0 ==> r * b == 0;
    assert Product2(r, b) % p == 1;
  }

  method ModInverse(a: int, p: int) returns (x: int)
    requires Prime(p) && !Divides(p, a)
    ensures 0 <= x < p && Cong(a * x, 1, p)
  {
    SmallInverseExists(a, p);
    x := ModInverseSmall(a, p);
    ghost var r := a % p;
    CongMod(a, p);
    DivModUnique(1, p, 0, 1);
    CongIffMod(r * x, 1, p);
    CongIntro(x, x, p, 0);
    CongMul(a, r, x, x, p);
    CongTrans(a * x, r * x, 1, p);
  }

  ghost predicate MatchesLeast(u: int, p: int)
    requires p > 0
  {
    exists n :: LeastNonResidue(n, p) && Cong(u, n, p)
  }

  lemma MatchIsNonResidue(u: int, p: int)
    requires p > 1 && MatchesLeast(u, p)
    ensures !Residue(u, p) && !Divides(p, u)
  {
    var n :| LeastNonResidue(n, p) && Cong(u, n, p);
    if Residue(u, p) {
      ResidueCong(u, n, p);
    }
    NonResidueUnit(u, p);
  }

  /** One CRT step: the old residue stays, the new one is n. */
  lemma CrtStep(u: int, mod: int, p: int, n: int, inv: int, d: int)
    requires mod > 0 && p > 0 && Cong(mod * inv, 1, p) && d == ((n - u) * inv) % p
    ensures Cong(u + mod * d, u, mod) && Cong(u + mod * d, n, p)
  {
    CongIntro(u + mod * d, u, mod, d);
    var e := (n - u) * inv;
    CongMod(e, p);
    CongScale(d, e, mod, p);
    assert mod * e == (n - u) * (mod * inv) by { MulSwap(mod, n - u, inv); }
    CongScale(mod * inv, 1, n - u, p);
    CongTrans(mod * d, mod * e, n - u, p);
    CongIntro(u, u, p, 0);
    CongAdd(u, u, mod * d, n - u, p);
  }

  method BuildU(t: seq<int>, nPi: nat) returns (u: int)
    requires PrimeTable(t) && nPi <= |t|
    ensures 0 <= u < Product(t[..nPi])
    ensures forall j :: 0 <= j < nPi ==> MatchesLeast(u, t[j])
  {
    u := 0;
    var mod := 1;
    for i := 0 to nPi
      invariant mod == Product(t[..i]) && 0 <= u < mod
      invariant forall j :: 0 <= j < i ==> MatchesLeast(u, t[j])
    {
      u, mod := ExtendU(t, i, u, mod);
    }
  }

  method ExtendU(t: seq<int>, i: nat, u: int, mod: int) returns (u': int, mod': int)
    requires PrimeTable(t) && i < |t| && mod == Product(t[..i]) && 0 <= u < mod
    requires forall j :: 0 <= j < i ==> MatchesLeast(u, t[j])
    ensures mod' == Product(t[..i + 1]) && 0 <= u' < mod'
    ensures forall j :: 0 <= j < i + 1 ==> MatchesLeast(u', t[j])
  {
    hide Cong, Divides, LeastNonResidue, Product;
    var p := t[i];
    var n := SmallestQNRmod(p);
    PrefixCoprime(t, i);
    var modInv := ModInverse(mod, p);
    var diff := ((n - u) * modInv) % p;
    CrtStep(u, mod, p, n, modInv, diff);
    u', mod' := u + mod * diff, mod * p;
    ProductStep(t, i);
    DigitBound(u, mod, diff, p);
    ExtendMatches(t, i, u, u', n);
  }

  lemma DigitBound(u: int, mod: int, d: int, p: int)
    requires 0 <= u < mod && 0 <= d < p
    ensures 0 <= u + mod * d < mod * p
  {
    MulMono(d, p - 1, mod);
    MulMono(0, d, mod);
  }

  lemma ExtendMatches(t: seq<int>, i: nat, u: int, u': int, n: int)
    requires PrimeTable(t) && i < |t| && Product(t[..i]) > 0
    requires forall j :: 0 <= j < i ==> MatchesLeast(u, t[j])
    requires Cong(u', u, Product(t[..i])) && LeastNonResidue(n, t[i]) && Cong(u', n, t[i])
    ensures forall j :: 0 <= j < i + 1 ==> MatchesLeast(u', t[j])
  {
    hide Cong, LeastNonResidue, Product;
    var mod := Product(t[..i]);
    forall j | 0 <= j < i ensures MatchesLeast(u', t[j]) {
      ProductFacts(t, i);
      CongDivisor(u', u, mod, t[j], mod / t[j]);
      var k :| LeastNonResidue(k, t[j]) && Cong(u, k, t[j]);
      CongTrans(u', u, k, t[j]);
    }
  }

  // ----- (E) units modulo m

  lemma TwoIsPrime()
    ensures Prime(2)
  {
  }

  /** The primes dividing m are 2 and the primes of the sieve. */
  lemma PrimesOfModulus(t: seq<int>, k: nat, r: int)
    requires PrimeTable(t) && 1 <= k <= |t| && Prime(r) && Divides(r, Modulus(Product(t[..k])))
    ensures r == 2 || exists i :: 0 <= i < k && t[i] == r
  {
    hide Product, Divides;
    var pi := Product(t[..k]);
    if pi % 4 == 1 {
      EuclidLemma(r, 4, pi);
    } else {
      EuclidLemma(r, 12, pi);
      if Divides(r, 12) {
        EuclidLemma(r, 4, 3);
      }
    }
    if Divides(r, pi) {
      ProductPrimes(t, k, r);
    } else if Divides(r, 4) {
      EuclidLemma(r, 2, 2);
      DividesBound(r, 2);
    } else {
      DividesBound(r, 3);
      assert r == 2 || r == t[0];
    }
  }

  ghost predicate AvoidsSieve(t: seq<int>, k: nat, x: int)
    requires PrimeTable(t) && k <= |t|
  {
    forall i :: 0 <= i < k ==> !Divides(t[i], x)
  }

  /** The units modulo m are the odd numbers with no factor in the sieve. */
  lemma UnitsOfModulus(t: seq<int>, k: nat, x: nat)
    requires PrimeTable(t) && 1 <= k <= |t| && x > 0
    ensures Product(t[..k]) >= 1
    ensures Coprime(x, Modulus(Product(t[..k]))) <==> x % 2 == 1 && AvoidsSieve(t, k, x)
  {
    hide Product, Divides, Prime, Modulus, AvoidsSieve, Coprime;
    ProductFacts(t, k);
    ModulusBasics(Product(t[..k]));
    if x % 2 == 1 && AvoidsSieve(t, k, x) {
      OddAvoiderIsUnit(t, k, x);
    }
    if Coprime(x, Modulus(Product(t[..k]))) {
      UnitIsOddAvoider(t, k, x);
    }
  }

  lemma OddAvoiderIsUnit(t: seq<int>, k: nat, x: nat)
    requires PrimeTable(t) && 1 <= k <= |t| && x > 0 && Modulus(Product(t[..k])) > 1
    requires x % 2 == 1 && AvoidsSieve(t, k, x)
    ensures Coprime(x, Modulus(Product(t[..k])))
  {
    hide Product, Divides, Prime, Modulus;
    var m := Modulus(Product(t[..k]));
    TwoDivides(x);
    forall r ensures !CommonPrime(r, x, m) {
      if CommonPrime(r, x, m) {
        PrimesOfModulus(t, k, r);
      }
    }
    CoprimeByPrimes(x, m);
  }

  lemma UnitIsOddAvoider(t: seq<int>, k: nat, x: nat)
    requires PrimeTable(t) && 1 <= k <= |t| && x > 0 && Modulus(Product(t[..k])) > 1
    requires Coprime(x, Modulus(Product(t[..k])))
    ensures x % 2 == 1 && AvoidsSieve(t, k, x)
  {
    hide Product, Divides, Prime, Modulus, Coprime;
    ProductFacts(t, k);
    var pi := Product(t[..k]);
    var m := Modulus(pi);
    ModulusBasics(pi);
    TwoIsPrime();
    TwoDivides(x);
    TwoDivides(m);
    CoprimeNoPrime(x, m, 2);
    forall i | 0 <= i < k ensures !Divides(t[i], x) {
      DividesModulus(t[i], pi);
      CoprimeNoPrime(x, m, t[i]);
    }
  }

  lemma TwoDivides(x: int)
    ensures Divides(2, x) <==> x % 2 == 0
  {
  }

  lemma DividesModulus(r: int, pi: int)
    requires r > 0 && Divides(r, pi)
    ensures Divides(r, Modulus(pi))
  {
    DividesProduct(r, pi, 4);
    DividesProduct(r, pi, 12);
  }

  /** Adds pi until u is a unit modulo m. */
  method LiftU(t: seq<int>, k: nat, u0: int) returns (u: int, steps: nat)
    requires PrimeTable(t) && 1 <= k <= |t| && 0 <= u0 < Product(t[..k]) && AvoidsSieve(t, k, u0)
    ensures steps <= 1 && u == u0 + steps * Product(t[..k])
    ensures 0 < u < Modulus(Product(t[..k])) && Coprime(u, Modulus(Product(t[..k])))
  {
    var pi := Product(t[..k]);
    var m := Modulus(pi);
    ProductFacts(t, k);
    u, steps := u0, 0;
    assert u0 != 0 by {
      DividesIntro(t[0], 0, 0);
      assert !Divides(t[0], u0);
    }
    while Gcd(u, m) != 1
      invariant steps <= 1 && u == u0 + steps * pi
      invariant steps == 1 ==> Coprime(u, m)
      decreases 1 - steps
    {
      LiftFlipsParity(t, k, u0);
      u, steps := u + pi, steps + 1;
    }
  }

  lemma ShiftAvoids(t: seq<int>, k: nat, u: int)
    requires PrimeTable(t) && k <= |t| && AvoidsSieve(t, k, u)
    ensures AvoidsSieve(t, k, u + Product(t[..k]))
  {
    hide Product, Divides, Prime;
    var pi := Product(t[..k]);
    ProductFacts(t, k);
    forall i | 0 <= i < k ensures !Divides(t[i], u + pi) {
      if Divides(t[i], u + pi) {
        DividesLinear(t[i], u + pi, pi, 1, -1);
      }
    }
  }

  lemma LiftFlipsParity(t: seq<int>, k: nat, u: int)
    requires PrimeTable(t) && 1 <= k <= |t| && 0 < u < Product(t[..k]) && AvoidsSieve(t, k, u)
    ensures Coprime(u, Modulus(Product(t[..k]))) || Coprime(u + Product(t[..k]), Modulus(Product(t[..k])))
  {
    hide Product, AvoidsSieve, PrimeTable, Modulus;
    ProductFacts(t, k);
    UnitsOfModulus(t, k, u);
    ShiftAvoids(t, k, u);
    UnitsOfModulus(t, k, u + Product(t[..k]));
    ParityFlips(u, Product(t[..k]));
  }

  lemma ParityFlips(u: int, pi: int)
    requires pi % 2 == 1
    ensures u % 2 == 1 || (u + pi) % 2 == 1
  {
  }

  // ----- the constant a

  ghost predicate UnitRoot(alpha: int, a: int, m: int)
    requires m > 0
  {
    0 < alpha < m && Coprime(alpha, m) && a == SquareMod(alpha, m)
  }

  ghost predicate SquareOfUnit(a: int, m: int)
    requires m > 0
  {
    exists alpha :: UnitRoot(alpha, a, m)
  }

  /** Rejection sampling of a; draws stands for the successive outputs of the generator. */
  method SampleA(m: int, draws: seq<nat>) returns (a: Option<int>)
    requires m > 1 && m % 2 == 0
    ensures a.Some? ==> SquareOfUnit(a.value, m) && a.value != 1
  {
    hide SquareMod, Gcd;
    for i := 0 to |draws| {
      var alpha := draws[i] % m;
      if alpha == 0 || alpha % 2 == 0 {
        continue;
      }
      if Gcd(alpha, m) != 1 {
        continue;
      }
      var sq := SquareMod(alpha, m);
      if sq == 1 {
        continue;
      }
      assert UnitRoot(alpha, sq, m);
      return Some(sq);
    }
    return None;
  }

  // ----- the setup

  datatype Params = Params(pi: int, m: int, mPrime: int, l: int, u: int, a: int, bMax: int, nPi: nat)

  datatype Setup =
    | Ready(params: Params)
    | BitsTooSmall
    | NoSieve
    | PiNotOdd
    | BadModulus
    | WindowTooLarge
    | ShiftOverflow
    | NoRandomness

  /** Everything the candidate orbit relies on. */
  ghost predicate GoodParams(t: seq<int>, bits: nat, P: Params)
    requires PrimeTable(t)
  {
    && bits >= 16
    && 1 <= P.nPi <= |t| && P.pi == Product(t[..P.nPi]) && 1 <= P.pi <= Pow2(bits - 11)
    && P.m == Modulus(P.pi) && P.m % 16 == 4 && 4 * P.mPrime == P.m
    && P.l % 4 == 0 && P.l % P.pi == 0
    && Pow2(bits - 1) <= P.l < Pow2(bits - 1) + 4 * P.pi
    && 0 <= P.bMax && P.l + P.m + P.bMax * P.pi <= Pow2(bits) < P.l + P.m + P.bMax * P.pi + P.pi
    && 0 < P.u < P.m && Coprime(P.u, P.m)
    && (forall i :: 0 <= i < P.nPi ==> MatchesLeast(P.u, t[i]))
    && SquareOfUnit(P.a, P.m) && P.a != 1
  }

  /** The prefix of the table whose product is the sieve. */
  ghost predicate SieveSize(t: seq<int>, bits: nat, k: nat)
    requires bits >= 16
  {
    k <= |t| && Product(t[..k]) <= Pow2(bits - 11) && (k < |t| ==> Product(t[..k]) * t[k] > Pow2(bits - 11))
  }

  /** The setup fails only for want of bits, of randomness, or because the largest shift does not
      fit 64 bits; none of the other error exits can be taken. */
  method ComputeJoyeParams(t: seq<int>, bits: nat, draws: seq<nat>) returns (r: Setup, ghost k: nat)
    requires PrimeTable(t)
    ensures r.BitsTooSmall? <==> bits < 16
    ensures bits >= 16 ==> SieveSize(t, bits, k) && 1 <= k && Product(t[..k]) >= 1
    ensures bits >= 16 ==> (r.ShiftOverflow? <==> ShiftBound(bits, Product(t[..k])) >= UINT64_SIZE)
    ensures bits >= 16 ==> r.Ready? || r.ShiftOverflow? || r.NoRandomness?
    ensures r.Ready? ==> GoodParams(t, bits, r.params) && r.params.nPi == k && r.params.bMax < UINT64_SIZE
  {
    hide Pow2, Product, Anchor, Modulus, Multiplier, MatchesLeast, SquareOfUnit, Gcd, PrimeTable;
    k := 0;
    if bits < 16 {
      return BitsTooSmall, k;
    }
    var target := Pow2(bits - 11);
    SieveFits(bits);
    var pi, nPi := PickPi(t, target);
    k := nPi;
    if nPi == 0 {
      return NoSieve, k;
    }
    ProductFacts(t, nPi);

    var w := PickMultiplier(pi);
    if w == 0 {
      return PiNotOdd, k;
    }
    var m := w * pi;
    ModulusMod16(pi);
    if m % 16 != 4 {
      return BadModulus, k;
    }

    var l := PickAnchor(bits, pi);
    AnchorFacts(bits, pi);
    ShiftFacts(bits, pi);
    var bMax := (Pow2(bits) - l - m) / pi;
    if bMax < 0 {
      return WindowTooLarge, k;
    }
    if bMax >= UINT64_SIZE {
      return ShiftOverflow, k;
    }

    var u := BuildUnit(t, nPi, pi);
    ModulusBasics(pi);
    var a := SampleA(m, draws);
    if a.None? {
      return NoRandomness, k;
    }
    return Ready(Params(pi, m, m / 4, l, u, a.value, bMax, nPi)), k;
  }

  lemma SieveFits(bits: nat)
    requires bits >= 16
    ensures Pow2(bits - 11) >= 3
  {
    Pow2Add(bits - 16, 5);
    assert Pow2(5) == 32;
  }

  lemma ModulusBasics(pi: int)
    requires pi >= 1
    ensures Modulus(pi) > 1 && Modulus(pi) % 4 == 0 && Modulus(pi) % 2 == 0 && 4 * (Modulus(pi) / 4) == Modulus(pi)
  {
    var c := if pi % 4 == 1 then pi else 3 * pi;
    DivModUnique(Modulus(pi), 4, c, 0);
    DivModUnique(Modulus(pi), 2, 2 * c, 0);
  }

  /** w = 4 * pi^(-1) mod 16; 0 if pi has no inverse. */
  method PickMultiplier(pi: int) returns (w: int)
    requires pi % 2 == 1
    ensures w == Multiplier(pi) && w * pi == Modulus(pi)
  {
    ghost var y := OddInverse16(pi);
    var inv := ModInverseSmall(pi, 16);
    assert inv != 0;
    ResidueIsMultiplier(pi, inv);
    w := (4 * inv) % 16;
  }

  /** Steps (D) and (E). */
  method BuildUnit(t: seq<int>, k: nat, ghost pi: int) returns (u: int)
    requires PrimeTable(t) && 1 <= k <= |t| && pi == Product(t[..k])
    ensures 0 < u < Modulus(pi) && Coprime(u, Modulus(pi))
    ensures forall i :: 0 <= i < k ==> MatchesLeast(u, t[i])
  {
    var u0 := BuildU(t, k);
    forall i | 0 <= i < k ensures !Divides(t[i], u0) {
      MatchIsNonResidue(u0, t[i]);
    }
    var steps;
    u, steps := LiftU(t, k, u0);
    forall i | 0 <= i < k ensures MatchesLeast(u, t[i]) {
      ProductFacts(t, k);
      LiftMatches(t[i], pi, u0, u, steps);
    }
  }

  lemma LiftMatches(p: int, pi: int, u0: int, u: int, steps: nat)
    requires p > 1 && Divides(p, pi) && u == u0 + steps * pi && MatchesLeast(u0, p)
    ensures MatchesLeast(u, p)
  {
    hide LeastNonResidue;
    assert pi == (pi / p) * p;
    MulAssoc(steps, pi / p, p);
    CongIntro(u, u0, p, steps * (pi / p));
    var n :| LeastNonResidue(n, p) && Cong(u0, n, p);
    CongTrans(u, u0, n, p);
  }
}
