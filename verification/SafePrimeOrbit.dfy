/** The candidate orbit of GenerateSafePrime (pkg/base/nt/primes.go). */
module SafePrimeOrbit {
  import opened Options
  import opened NumberTheory
  import opened QuadraticResidues
  import opened JoyePaillier

  /** Step 2: k = 4 u chi^2 + 3 m' (mod m). */
  function FirstK(P: Params, chi: int): int
    requires P.m > 0
  {
    (chi * chi * P.u * 4 + 3 * P.mPrime) % P.m
  }

  /** Step 4(a): k = a k (mod m). */
  function NextK(P: Params, k: int): int
    requires P.m > 0
  {
    (k * P.a) % P.m
  }

  /** k after j recyclings. */
  function KAfter(P: Params, chi: int, j: nat): int
    requires P.m > 0
  {
    if j == 0 then FirstK(P, chi) else NextK(P, KAfter(P, chi, j - 1))
  }

  /** Step 3: q = ((k - t) mod m) + t + l with t = b pi. */
  function Candidate(P: Params, k: int, b: int): int
    requires P.m > 0
  {
    (k - b * P.pi) % P.m + b * P.pi + P.l
  }

  /** k is 3 modulo 4 and a non-residue modulo every prime of the sieve. */
  ghost predicate OnOrbit(t: seq<int>, P: Params, k: int)
    requires PrimeTable(t) && P.nPi <= |t|
  {
    Cong(k, 3, 4) && forall i :: 0 <= i < P.nPi ==> !Residue(k, t[i])
  }

  /** What the paper promises of every candidate. */
  ghost predicate SoundCandidate(t: seq<int>, bits: nat, P: Params, q: int)
    requires PrimeTable(t) && P.nPi <= |t| && bits >= 1
  {
    && Pow2(bits - 1) <= q < Pow2(bits)
    && q % 4 == 3
    && (forall i :: 0 <= i < P.nPi ==> !Residue(q, t[i]))
    && P.pi >= 1 && Coprime(q, 2 * P.pi) && Coprime((q - 1) / 2, 2 * P.pi)
  }

  lemma ModulusMultiples(t: seq<int>, bits: nat, P: Params, i: nat)
    requires PrimeTable(t) && GoodParams(t, bits, P) && i < P.nPi
    ensures Divides(t[i], P.pi) && Divides(t[i], P.m) && Divides(t[i], P.mPrime) && Divides(t[i], P.l)
  {
    var p := t[i];
    ProductFacts(t, P.nPi);
    DividesModulus(p, P.pi);
    DividesProduct(p, P.pi, 3);
    assert P.mPrime == P.pi || P.mPrime == 3 * P.pi;
    DividesTrans(p, P.pi, P.l);
  }

  lemma CongOfDivisor(a: int, b: int, m: int, d: int)
    requires m > 0 && d > 0 && Divides(d, m) && Cong(a, b, m)
    ensures Cong(a, b, d)
  {
    CongDivisor(a, b, m, d, m / d);
  }

  /** Reducing modulo m keeps the class modulo a divisor of m. */
  lemma ReducedClass(x: int, m: int, d: int)
    requires m > 0 && d > 0 && Divides(d, m)
    ensures Cong(x % m, x, d)
  {
    CongMod(x, m);
    CongOfDivisor(x % m, x, m, d);
  }

  lemma AddMultiple(x: int, y: int, d: int)
    requires d > 0 && Divides(d, y)
    ensures Cong(x + y, x, d)
  {
    CongIntro(x + y, x, d, y / d);
  }

  lemma FirstOnOrbit(t: seq<int>, bits: nat, P: Params, chi: nat)
    requires PrimeTable(t) && GoodParams(t, bits, P) && 0 < chi && Coprime(chi, P.m)
    ensures OnOrbit(t, P, FirstK(P, chi))
  {
    hide Cong, Divides, Residue, Pow2, Product, Prime, Gcd, Modulus;
    UnitsOfModulus(t, P.nPi, chi);
    var k := FirstK(P, chi);
    forall i | 0 <= i < P.nPi ensures !Residue(k, t[i]) {
      ModulusMultiples(t, bits, P, i);
      FirstIsNonResidue(P, chi, t[i]) by {
        MatchIsNonResidue(P.u, t[i]);
      }
    }
    FirstMod4(P, chi);
  }

  lemma FirstIsNonResidue(P: Params, chi: int, p: int)
    requires P.m > 0 && Prime(p) && p > 2 && Divides(p, P.m) && Divides(p, P.mPrime)
    requires !Residue(P.u, p) && !Divides(p, chi)
    ensures !Residue(FirstK(P, chi), p)
  {
    hide Cong, Divides, Residue;
    var s := 2 * chi;
    var x := chi * chi * P.u * 4;
    ReducedClass(x + 3 * P.mPrime, P.m, p);
    DividesProduct(p, P.mPrime, 3);
    AddMultiple(x, 3 * P.mPrime, p);
    CongTrans(FirstK(P, chi), x + 3 * P.mPrime, x, p);
    FourSquares(P.u, chi);
    if Divides(p, s) {
      EuclidLemma(p, 2, chi);
      DividesBound(p, 2);
    }
    NonResidueTimesSquare(P.u, s, FirstK(P, chi), p);
  }

  lemma FourSquares(u: int, c: int)
    ensures c * c * u * 4 == u * ((2 * c) * (2 * c))
  {
    assert (2 * c) * (2 * c) == 4 * (c * c);
    assert u * (4 * (c * c)) == 4 * (u * (c * c));
  }

  lemma FirstMod4(P: Params, chi: int)
    requires P.m > 0 && P.m % 16 == 4 && 4 * P.mPrime == P.m
    ensures Cong(FirstK(P, chi), 3, 4)
  {
    var x := chi * chi * P.u;
    assert P.mPrime % 4 == 1;
    ReducedClass(x * 4 + 3 * P.mPrime, P.m, 4);
    CongIntro(x * 4 + 3 * P.mPrime, 3, 4, x + 3 * (P.mPrime / 4));
    CongTrans(FirstK(P, chi), x * 4 + 3 * P.mPrime, 3, 4);
  }

  /** A recycled k is congruent to k times the square of a unit. */
  lemma NextOnOrbit(t: seq<int>, bits: nat, P: Params, k: int)
    requires PrimeTable(t) && GoodParams(t, bits, P) && OnOrbit(t, P, k)
    ensures OnOrbit(t, P, NextK(P, k))
  {
    hide Cong, Divides, Residue, Pow2, Product, Prime, Gcd, Modulus, MatchesLeast;
    var alpha :| UnitRoot(alpha, P.a, P.m);
    UnitsOfModulus(t, P.nPi, alpha);
    forall i | 0 <= i < P.nPi ensures !Residue(NextK(P, k), t[i]) {
      ModulusMultiples(t, bits, P, i);
      NextClass(P, k, alpha, t[i]);
      NonResidueTimesSquare(k, alpha, NextK(P, k), t[i]);
    }
    NextMod4(P, k, alpha);
  }

  lemma NextClass(P: Params, k: int, alpha: int, d: int)
    requires P.m > 0 && d > 0 && Divides(d, P.m) && P.a == SquareMod(alpha, P.m)
    ensures Cong(NextK(P, k), k * (alpha * alpha), d)
  {
    ReducedClass(k * P.a, P.m, d);
    ReducedClass(alpha * alpha, P.m, d);
    CongScale(P.a, alpha * alpha, k, d);
    CongTrans(NextK(P, k), k * P.a, k * (alpha * alpha), d);
  }

  lemma NextMod4(P: Params, k: int, alpha: int)
    requires P.m > 0 && P.m % 16 == 4 && P.a == SquareMod(alpha, P.m) && alpha % 2 == 1 && Cong(k, 3, 4)
    ensures Cong(NextK(P, k), 3, 4)
  {
    hide Cong;
    FourDivides(P.m);
    NextClass(P, k, alpha, 4);
    OddSquareMod4(alpha);
    CongMul(k, 3, alpha * alpha, 1, 4);
    CongTrans(NextK(P, k), k * (alpha * alpha), 3, 4);
  }

  lemma FourDivides(m: int)
    requires m % 16 == 4
    ensures Divides(4, m)
  {
    DividesIntro(4, m, 4 * (m / 16) + 1);
  }

  lemma OddSquareMod4(a: int)
    requires a % 2 == 1
    ensures Cong(a * a, 1, 4)
  {
    var c := a / 2;
    assert a == 2 * c + 1;
    assert a * a == 1 + (c * c + c) * 4;
    CongIntro(a * a, 1, 4, c * c + c);
  }

  /** The orbit never leaves the non-residue classes, however often k is recycled. */
  lemma {:induction false} OrbitInvariant(t: seq<int>, bits: nat, P: Params, chi: nat, j: nat)
    requires PrimeTable(t) && GoodParams(t, bits, P) && 0 < chi && Coprime(chi, P.m)
    ensures OnOrbit(t, P, KAfter(P, chi, j))
    decreases j
  {
    hide OnOrbit, GoodParams, FirstK, NextK;
    assert P.m > 0 && P.nPi <= |t| by { ParamsShape(t, bits, P); }
    if j == 0 {
      FirstOnOrbit(t, bits, P, chi);
    } else {
      OrbitInvariant(t, bits, P, chi, j - 1);
      NextOnOrbit(t, bits, P, KAfter(P, chi, j - 1));
    }
  }

  lemma ParamsShape(t: seq<int>, bits: nat, P: Params)
    requires PrimeTable(t) && GoodParams(t, bits, P)
    ensures P.m > 0 && P.nPi <= |t| && bits >= 16 && P.bMax >= 0
  {
  }

  // ----- candidates

  lemma CandidateClass(P: Params, k: int, b: int, d: int)
    requires P.m > 0 && d > 0 && Divides(d, P.m) && Divides(d, P.l)
    ensures Cong(Candidate(P, k, b), k, d)
  {
    var s := b * P.pi;
    ReducedClass(k - s, P.m, d);
    CongIntro(s, s, d, 0);
    CongAdd((k - s) % P.m, k - s, s, s, d);
    AddMultiple((k - s) % P.m + s, P.l, d);
    CongTrans(Candidate(P, k, b), (k - s) % P.m + s, k, d);
  }

  lemma CandidateRange(t: seq<int>, bits: nat, P: Params, k: int, b: int)
    requires PrimeTable(t) && GoodParams(t, bits, P) && 0 <= b <= P.bMax
    ensures Pow2(bits - 1) <= Candidate(P, k, b) < Pow2(bits)
  {
    hide Pow2, Product, MatchesLeast, Prime, Gcd, Modulus, SquareOfUnit;
    MulMono(b, P.bMax, P.pi);
    MulMono(0, b, P.pi);
  }

  lemma TwicePrimes(t: seq<int>, k: nat, r: int)
    requires PrimeTable(t) && k <= |t| && Prime(r) && Divides(r, 2 * Product(t[..k]))
    ensures r == 2 || exists i :: 0 <= i < k && t[i] == r
  {
    EuclidLemma(r, 2, Product(t[..k]));
    if Divides(r, Product(t[..k])) {
      ProductPrimes(t, k, r);
    } else {
      DividesBound(r, 2);
    }
  }

  /** Odd numbers with no factor in the sieve are coprime to 2 pi. */
  lemma CoprimeToTwicePi(t: seq<int>, k: nat, x: nat)
    requires PrimeTable(t) && k <= |t| && x > 0 && x % 2 == 1 && AvoidsSieve(t, k, x) && Product(t[..k]) >= 1
    ensures Coprime(x, 2 * Product(t[..k]))
  {
    hide Divides, Prime, Product, Gcd;
    TwoDivides(x);
    forall r ensures !CommonPrime(r, x, 2 * Product(t[..k])) {
      if CommonPrime(r, x, 2 * Product(t[..k])) {
        TwicePrimes(t, k, r);
      }
    }
    CoprimeByPrimes(x, 2 * Product(t[..k]));
  }

  lemma HalfAvoids(p: int, q: int)
    requires p > 0 && q % 2 == 1 && !Divides(p, q - 1)
    ensures !Divides(p, (q - 1) / 2)
  {
    if Divides(p, (q - 1) / 2) {
      DividesProduct(p, (q - 1) / 2, 2);
    }
  }

  lemma CandidateMod4(t: seq<int>, bits: nat, P: Params, k: int, b: int)
    requires PrimeTable(t) && GoodParams(t, bits, P) && Cong(k, 3, 4)
    ensures Candidate(P, k, b) % 4 == 3
  {
    hide Cong, Divides, Product, Prime, Gcd, Modulus, MatchesLeast, SquareOfUnit, Candidate, Pow2;
    var q := Candidate(P, k, b);
    FourDivides(P.m);
    FourDividesBySelf(P.l);
    CandidateClass(P, k, b, 4);
    CongTrans(q, k, 3, 4);
    CongIffMod(q, 3, 4);
  }

  lemma CandidateAvoids(t: seq<int>, bits: nat, P: Params, k: int, b: int, i: nat)
    requires PrimeTable(t) && GoodParams(t, bits, P) && i < P.nPi && !Residue(k, t[i])
    ensures !Residue(Candidate(P, k, b), t[i])
    ensures !Divides(t[i], Candidate(P, k, b)) && !Divides(t[i], Candidate(P, k, b) - 1)
  {
    hide Cong, Divides, Product, Prime, Gcd, Modulus, MatchesLeast, SquareOfUnit, Candidate, Pow2, Residue;
    var q := Candidate(P, k, b);
    ModulusMultiples(t, bits, P, i);
    CandidateClass(P, k, b, t[i]);
    if Residue(q, t[i]) {
      ResidueCong(q, k, t[i]);
    }
    NonResidueUnit(q, t[i]);
  }

  lemma CoprimePair(t: seq<int>, k: nat, q: int)
    requires PrimeTable(t) && k <= |t| && q > 3 && q % 4 == 3 && Product(t[..k]) >= 1
    requires forall i :: 0 <= i < k ==> !Divides(t[i], q) && !Divides(t[i], q - 1)
    ensures Coprime(q, 2 * Product(t[..k])) && Coprime((q - 1) / 2, 2 * Product(t[..k]))
  {
    hide Divides, Product, Prime, Gcd, AvoidsSieve, Coprime;
    BothAvoid(t, k, q);
    HalfIsOdd(q);
    CoprimeToTwicePi(t, k, q);
    CoprimeToTwicePi(t, k, (q - 1) / 2);
  }

  lemma HalfIsOdd(q: int)
    requires q > 3 && q % 4 == 3
    ensures q % 2 == 1 && (q - 1) / 2 > 0 && ((q - 1) / 2) % 2 == 1
  {
    assert q == 4 * (q / 4) + 3;
  }

  lemma BothAvoid(t: seq<int>, k: nat, q: int)
    requires PrimeTable(t) && k <= |t| && q % 4 == 3
    requires forall i :: 0 <= i < k ==> !Divides(t[i], q) && !Divides(t[i], q - 1)
    ensures AvoidsSieve(t, k, q) && AvoidsSieve(t, k, (q - 1) / 2)
  {
    hide Divides, Prime;
    forall i | 0 <= i < k ensures !Divides(t[i], (q - 1) / 2) {
      HalfAvoids(t[i], q);
    }
  }

  /** Every candidate has exactly `bits` bits, is 3 modulo 4, is a non-residue modulo every prime
      of the sieve, and both it and its half are coprime to 2 pi. */
  lemma CandidateIsSound(t: seq<int>, bits: nat, P: Params, k: int, b: int)
    requires PrimeTable(t) && GoodParams(t, bits, P) && OnOrbit(t, P, k) && 0 <= b <= P.bMax
    ensures SoundCandidate(t, bits, P, Candidate(P, k, b))
  {
    hide Cong, Divides, Residue, Product, Prime, Gcd, Modulus, MatchesLeast, SquareOfUnit, Candidate, Pow2;
    var q := Candidate(P, k, b);
    CandidateRange(t, bits, P, k, b);
    Pow2Large(bits);
    CandidateMod4(t, bits, P, k, b);
    forall i | 0 <= i < P.nPi
      ensures !Residue(q, t[i]) && !Divides(t[i], q) && !Divides(t[i], q - 1)
    {
      CandidateAvoids(t, bits, P, k, b, i);
    }
    CoprimePair(t, P.nPi, q);
  }

  lemma FourDividesBySelf(x: int)
    requires x % 4 == 0
    ensures Divides(4, x)
  {
  }

  lemma Pow2Large(bits: nat)
    requires bits >= 16
    ensures Pow2(bits - 1) > 3
  {
    Pow2Add(bits - 4, 3);
    assert Pow2(3) == 8;
  }

  /** Main result: every candidate of every orbit is sound. */
  lemma EveryCandidateIsSound(t: seq<int>, bits: nat, P: Params, chi: nat, b: int, j: nat)
    requires PrimeTable(t) && GoodParams(t, bits, P)
    requires 0 < chi && Coprime(chi, P.m) && 0 <= b <= P.bMax
    ensures SoundCandidate(t, bits, P, Candidate(P, KAfter(P, chi, j), b))
  {
    OrbitInvariant(t, bits, P, chi, j);
    CandidateIsSound(t, bits, P, KAfter(P, chi, j), b);
  }

  // ----- the orbit in closed form

  /** After j recyclings k is a^j (4 u chi^2 + 3 m') modulo m. */
  lemma {:induction false} OrbitForm(P: Params, chi: int, j: nat)
    requires P.m > 0
    ensures KAfter(P, chi, j) == (Pow(P.a, j) * (4 * P.u * chi * chi + 3 * P.mPrime)) % P.m
    decreases j
  {
    hide Cong;
    var x := 4 * P.u * chi * chi + 3 * P.mPrime;
    if j == 0 {
      assert chi * chi * P.u * 4 == 4 * P.u * chi * chi;
    } else {
      OrbitForm(P, chi, j - 1);
      var y := Pow(P.a, j - 1) * x;
      CongMod(y, P.m);
      CongScale(y % P.m, y, P.a, P.m);
      CongIffMod(P.a * (y % P.m), P.a * y, P.m);
      PowTimes(P.a, j, x);
      assert KAfter(P, chi, j) == (P.a * (y % P.m)) % P.m by {
        assert (y % P.m) * P.a == P.a * (y % P.m);
      }
    }
  }

  lemma PowTimes(a: int, j: nat, x: int)
    requires j > 0
    ensures a * (Pow(a, j - 1) * x) == Pow(a, j) * x
  {
  }

  /** The candidate is the one number congruent to k + l modulo m in the window of m numbers that the
      shift opens. */
  lemma CandidateWindow(P: Params, k: int, b: int, q: int)
    requires P.m > 0
    ensures q == Candidate(P, k, b) <==> P.l + b * P.pi <= q < P.l + b * P.pi + P.m && Cong(q, k + P.l, P.m)
  {
    hide Cong;
    var s := b * P.pi;
    var c := Candidate(P, k, b);
    CongMod(k - s, P.m);
    CongIntro(s + P.l, s + P.l, P.m, 0);
    CongAdd((k - s) % P.m, k - s, s + P.l, s + P.l, P.m);
    assert Cong(c, k + P.l, P.m);
    if P.l + s <= q < P.l + s + P.m && Cong(q, k + P.l, P.m) {
      CongSym(c, k + P.l, P.m);
      CongTrans(q, k + P.l, c, P.m);
      WindowUnique(q, c, P.l + s, P.m);
    }
  }

  lemma WindowUnique(x: int, y: int, low: int, m: int)
    requires m > 0 && low <= x < low + m && low <= y < low + m && Cong(x, y, m)
    ensures x == y
  {
    var q := Quot(x, y, m);
    if q >= 1 {
      MulMono(1, q, m);
    } else if q <= -1 {
      MulMono(q, -1, m);
    }
  }

  /** A walk that must be given up at first: 33023 is prime, its half 16511 is not. */
  lemma FirstCandidateExample(a: int)
    ensures var P := Params(15, 180, 45, 32820, 17, a, 2169, 2);
      Candidate(P, KAfter(P, 1, 0), 2) == 33023 && (33023 - 1) / 2 == 11 * 1501
  {
  }

  /** The two-stage primality tests of step 4, with the test itself left open. */
  predicate PassesTests(probablyPrime: (int, nat) -> bool, q: int, checks: nat, halfChecks: nat) {
    var h := (q - 1) / 2;
    probablyPrime(h, 0) && probablyPrime(q, 0) && probablyPrime(h, halfChecks) && probablyPrime(q, checks)
  }

  /** The candidate after j recyclings passes the tests. */
  predicate Hit(P: Params, chi: int, b: int, j: nat, probablyPrime: (int, nat) -> bool, checks: nat, halfChecks: nat)
    requires P.m > 0
  {
    PassesTests(probablyPrime, Candidate(P, KAfter(P, chi, j), b), checks, halfChecks)
  }

  /** The first j candidates of an orbit fail the tests. */
  ghost predicate Missed(P: Params, chi: int, b: int, j: nat, probablyPrime: (int, nat) -> bool, checks: nat, halfChecks: nat)
    requires P.m > 0
  {
    forall i :: 0 <= i < j ==> !Hit(P, chi, b, i, probablyPrime, checks, halfChecks)
  }

  /** A test that never calls a composite number prime. */
  ghost predicate NeverWrong(probablyPrime: (int, nat) -> bool) {
    forall n, c :: probablyPrime(n, c) ==> Prime(n)
  }

  /** What a candidate that is passed over lacks: one of the four answers. */
  lemma MissedMeans(P: Params, chi: int, b: int, j: nat, probablyPrime: (int, nat) -> bool, checks: nat, halfChecks: nat)
    requires P.m > 0 && Missed(P, chi, b, j, probablyPrime, checks, halfChecks)
    ensures forall i :: 0 <= i < j ==> var q := Candidate(P, KAfter(P, chi, i), b);
      !(probablyPrime(q, 0) && probablyPrime(q, checks) && probablyPrime((q - 1) / 2, 0) && probablyPrime((q - 1) / 2, halfChecks))
  {
    hide Candidate, KAfter;
    forall i | 0 <= i < j
      ensures var q := Candidate(P, KAfter(P, chi, i), b);
        !(probablyPrime(q, 0) && probablyPrime(q, checks) && probablyPrime((q - 1) / 2, 0) && probablyPrime((q - 1) / 2, halfChecks))
    {
      assert !Hit(P, chi, b, i, probablyPrime, checks, halfChecks);
    }
  }

  /** The answers behind a hit; with a test that is never wrong, the candidate is a safe prime. */
  lemma HitMeans(P: Params, chi: int, b: int, j: nat, probablyPrime: (int, nat) -> bool, checks: nat, halfChecks: nat)
    requires P.m > 0 && Hit(P, chi, b, j, probablyPrime, checks, halfChecks)
    ensures var q := Candidate(P, KAfter(P, chi, j), b);
      && probablyPrime(q, 0) && probablyPrime(q, checks) && probablyPrime((q - 1) / 2, 0) && probablyPrime((q - 1) / 2, halfChecks)
      && (NeverWrong(probablyPrime) ==> Prime(q) && Prime((q - 1) / 2))
  {
    hide Candidate, KAfter, Prime;
  }

  /** One worker's walk along one orbit: the first candidate that passes the tests. */
  method WalkOrbit(t: seq<int>, bits: nat, P: Params, chi: nat, b: int,
                   probablyPrime: (int, nat) -> bool, checks: nat, halfChecks: nat) returns (r: Option<int>, ghost j: nat)
    requires PrimeTable(t) && GoodParams(t, bits, P)
    requires 0 < chi && Coprime(chi, P.m) && 0 <= b <= P.bMax
    ensures P.m > 0 && (r.None? <==> j == 65536) && j <= 65536
    ensures Missed(P, chi, b, j, probablyPrime, checks, halfChecks)
    ensures r.Some? ==> Hit(P, chi, b, j, probablyPrime, checks, halfChecks) && r.value == Candidate(P, KAfter(P, chi, j), b)
    ensures r.Some? ==> SoundCandidate(t, bits, P, r.value)
    // all four answers are asked for and given, and whoever has them is never passed over
    ensures r.Some? ==>
      probablyPrime(r.value, 0) && probablyPrime(r.value, checks) && probablyPrime((r.value - 1) / 2, 0) && probablyPrime((r.value - 1) / 2, halfChecks)
    ensures r.Some? && NeverWrong(probablyPrime) ==> Prime(r.value) && Prime((r.value - 1) / 2)
    ensures forall i :: 0 <= i < j ==> var q := Candidate(P, KAfter(P, chi, i), b);
      !(probablyPrime(q, 0) && probablyPrime(q, checks) && probablyPrime((q - 1) / 2, 0) && probablyPrime((q - 1) / 2, halfChecks))
  {
    hide PrimeTable, GoodParams, FirstK, NextK, Candidate, SoundCandidate, PassesTests, Gcd, Prime, NeverWrong;
    ParamsShape(t, bits, P);
    var k := FirstK(P, chi);
    j := 0;
    for i := 0 to MAX_ORBIT_ITER
      invariant j == i && k == KAfter(P, chi, i)
      invariant forall l :: 0 <= l < i ==> !Hit(P, chi, b, l, probablyPrime, checks, halfChecks)
    {
      var q := Candidate(P, k, b);
      if PassesTests(probablyPrime, q, checks, halfChecks) {
        EveryCandidateIsSound(t, bits, P, chi, b, i);
        HitMeans(P, chi, b, j, probablyPrime, checks, halfChecks);
        MissedMeans(P, chi, b, j, probablyPrime, checks, halfChecks);
        return Some(q), j;
      }
      k := NextK(P, k);
      j := j + 1;
    }
    MissedMeans(P, chi, b, j, probablyPrime, checks, halfChecks);
    return None, j;
  }

  // ----- a worker

  /** The draw gives a unit modulo m. */
  predicate UnitDraw(P: Params, draw: nat)
    requires P.m > 0
  {
    draw % P.m > 0 && Gcd(draw % P.m, P.m) == 1
  }

  /** Rejection sampling of chi from the draws. */
  method DrawUnit(P: Params, draws: seq<nat>, start: nat) returns (chi: Option<nat>, pos: nat)
    requires P.m > 0 && start <= |draws|
    ensures start <= pos <= |draws|
    ensures chi.None? ==> pos == |draws| && forall i :: start <= i < pos ==> !UnitDraw(P, draws[i])
    ensures chi.Some? ==> start < pos && UnitDraw(P, draws[pos - 1]) && chi.value == draws[pos - 1] % P.m
    ensures chi.Some? ==> forall i :: start <= i < pos - 1 ==> !UnitDraw(P, draws[i])
  {
    hide Gcd;
    pos := start;
    while pos < |draws|
      invariant start <= pos <= |draws|
      invariant forall i :: start <= i < pos ==> !UnitDraw(P, draws[i])
    {
      var c := draws[pos] % P.m;
      pos := pos + 1;
      if c == 0 || Gcd(c, P.m) != 1 {
        continue;
      }
      return Some(c), pos;
    }
    return None, pos;
  }

  /** How a worker ends: with a candidate, without further randomness, or, when bMax + 1 wraps round
      to zero, in the panic of drawing below zero. */
  datatype Search = Found(q: int) | NoDraws | ZeroBound

  /** starts are the positions before end where a unit was drawn for a walk; the draw after each is
      its b, and every other draw was rejected. */
  ghost predicate Parsed(P: Params, draws: seq<nat>, starts: seq<nat>, end: nat)
    requires P.m > 0
  {
    && end <= |draws|
    && (forall s :: s in starts ==> s + 1 < end && UnitDraw(P, draws[s]))
    && (forall k, l :: 0 <= k < l < |starts| ==> starts[k] + 1 < starts[l])
    && forall i :: 0 <= i < end && UnitDraw(P, draws[i]) ==> i in starts || (i > 0 && i - 1 in starts)
  }

  /** No candidate of the walk that starts at position s passes the tests. */
  ghost predicate Barren(P: Params, draws: seq<nat>, s: nat, probablyPrime: (int, nat) -> bool, checks: nat, halfChecks: nat)
    requires P.m > 0 && P.bMax >= 0
  {
    s + 1 < |draws| && Missed(P, draws[s] % P.m, draws[s + 1] % (P.bMax + 1), MAX_ORBIT_ITER, probablyPrime, checks, halfChecks)
  }

  /** q is the first candidate of that walk to pass them. */
  ghost predicate Winner(P: Params, draws: seq<nat>, s: nat, probablyPrime: (int, nat) -> bool, checks: nat, halfChecks: nat, q: int)
    requires P.m > 0 && P.bMax >= 0
  {
    s + 1 < |draws| && var chi, b := draws[s] % P.m, draws[s + 1] % (P.bMax + 1);
    exists j: nat :: j < MAX_ORBIT_ITER && q == Candidate(P, KAfter(P, chi, j), b)
      && Hit(P, chi, b, j, probablyPrime, checks, halfChecks) && Missed(P, chi, b, j, probablyPrime, checks, halfChecks)
  }

  /** A walk that was given up held no candidate to which all four answers are yes. */
  lemma BarrenMeans(P: Params, draws: seq<nat>, s: nat, probablyPrime: (int, nat) -> bool, checks: nat, halfChecks: nat)
    requires P.m > 0 && P.bMax >= 0 && Barren(P, draws, s, probablyPrime, checks, halfChecks)
    ensures s + 1 < |draws|
    ensures forall i :: 0 <= i < MAX_ORBIT_ITER ==> var q := Candidate(P, KAfter(P, draws[s] % P.m, i), draws[s + 1] % (P.bMax + 1));
      !(probablyPrime(q, 0) && probablyPrime(q, checks) && probablyPrime((q - 1) / 2, 0) && probablyPrime((q - 1) / 2, halfChecks))
  {
    hide Candidate, KAfter, Missed;
    MissedMeans(P, draws[s] % P.m, draws[s + 1] % (P.bMax + 1), MAX_ORBIT_ITER, probablyPrime, checks, halfChecks);
  }

  lemma ParsedMore(P: Params, draws: seq<nat>, starts: seq<nat>, end: nat, s: nat)
    requires P.m > 0 && Parsed(P, draws, starts, end) && end <= s && s + 1 < |draws| && UnitDraw(P, draws[s])
    requires forall i :: end <= i < s ==> !UnitDraw(P, draws[i])
    ensures Parsed(P, draws, starts + [s], s + 2)
  {
    hide Gcd, UnitDraw;
    var more := starts + [s];
    forall k, l | 0 <= k < l < |more| ensures more[k] + 1 < more[l] {
      assert starts[k] in starts;
    }
    forall i | 0 <= i < s + 2 && UnitDraw(P, draws[i]) ensures i in more || (i > 0 && i - 1 in more) {
      assert more[|starts|] == s && forall x :: x in starts ==> x in more;
      if i < end {
        assert i in starts || (i > 0 && i - 1 in starts);
      } else {
        assert i == s || i == s + 1;
      }
    }
  }

  lemma BoundWraps(bMax: int)
    requires 0 <= bMax < UINT64_SIZE
    ensures (bMax + 1) % UINT64_SIZE == if bMax + 1 == UINT64_SIZE then 0 else bMax + 1
  {
  }

  /** A worker draws a unit and a shift, walks the orbit, and draws again until it finds a candidate:
      it skips no walk, and panics just when the shift bound is 2^64 and some draw is a unit. */
  method Worker(t: seq<int>, bits: nat, P: Params, draws: seq<nat>, probablyPrime: (int, nat) -> bool, checks: nat, halfChecks: nat)
      returns (r: Search, ghost starts: seq<nat>, ghost end: nat)
    requires P.m > 0 && 0 <= P.bMax < UINT64_SIZE && PrimeTable(t) && GoodParams(t, bits, P)
    ensures Parsed(P, draws, starts, end)
    ensures r.ZeroBound? <==> P.bMax + 1 == UINT64_SIZE && exists i :: 0 <= i < |draws| && UnitDraw(P, draws[i])
    ensures forall k :: 0 <= k < |starts| - (if r.Found? then 1 else 0) ==> Barren(P, draws, starts[k], probablyPrime, checks, halfChecks)
    ensures r.NoDraws? ==> forall i :: end <= i < |draws| - 1 ==> !UnitDraw(P, draws[i])
    ensures r.Found? ==> |starts| > 0 && Winner(P, draws, starts[|starts| - 1], probablyPrime, checks, halfChecks, r.q)
    ensures r.Found? ==> SoundCandidate(t, bits, P, r.q)
    // all four answers are asked for and given
    ensures r.Found? ==>
      probablyPrime(r.q, 0) && probablyPrime(r.q, checks) && probablyPrime((r.q - 1) / 2, 0) && probablyPrime((r.q - 1) / 2, halfChecks)
    ensures r.Found? && NeverWrong(probablyPrime) ==> Prime(r.q) && Prime((r.q - 1) / 2)
  {
    hide PrimeTable, GoodParams, KAfter, Candidate, SoundCandidate, Hit, Gcd, Parsed, UnitDraw, Missed, Prime, NeverWrong, Barren, Winner;
    ParamsShape(t, bits, P);
    BoundWraps(P.bMax);
    var bound := (P.bMax + 1) % UINT64_SIZE;
    starts, end := [], 0;
    NothingParsed(P, draws);
    var pos := 0;
    while pos < |draws|
      invariant end == pos <= |draws| && Parsed(P, draws, starts, end)
      invariant bound == 0 ==> forall i :: 0 <= i < pos ==> !UnitDraw(P, draws[i])
      invariant forall s :: s in starts ==> Barren(P, draws, s, probablyPrime, checks, halfChecks)
      decreases |draws| - pos
    {
      var chi, next := DrawUnit(P, draws, pos);
      if chi.None? {
        return NoDraws, starts, end;
      }
      if bound == 0 {
        return ZeroBound, starts, end;
      }
      if next == |draws| {
        return NoDraws, starts, end;
      }
      var b := draws[next] % bound;
      UnitIsCoprime(P, draws[next - 1]);
      var q, j := WalkOrbit(t, bits, P, chi.value, b, probablyPrime, checks, halfChecks);
      ParsedMore(P, draws, starts, end, next - 1);
      WalkEnded(P, draws, next - 1, j, probablyPrime, checks, halfChecks);
      starts, end, pos := starts + [next - 1], next + 1, next + 1;
      if q.Some? {
        return Found(q.value), starts, end;
      }
    }
    return NoDraws, starts, end;
  }

  /** A walk of j candidates that missed is barren at full length, and won by the next one if that hits. */
  lemma WalkEnded(P: Params, draws: seq<nat>, s: nat, j: nat, probablyPrime: (int, nat) -> bool, checks: nat, halfChecks: nat)
    requires P.m > 0 && P.bMax >= 0 && s + 1 < |draws| && j <= MAX_ORBIT_ITER
    requires Missed(P, draws[s] % P.m, draws[s + 1] % (P.bMax + 1), j, probablyPrime, checks, halfChecks)
    ensures j == MAX_ORBIT_ITER ==> Barren(P, draws, s, probablyPrime, checks, halfChecks)
    ensures j < MAX_ORBIT_ITER && Hit(P, draws[s] % P.m, draws[s + 1] % (P.bMax + 1), j, probablyPrime, checks, halfChecks) ==>
      Winner(P, draws, s, probablyPrime, checks, halfChecks, Candidate(P, KAfter(P, draws[s] % P.m, j), draws[s + 1] % (P.bMax + 1)))
  {
    hide Candidate, KAfter, Missed, Hit;
  }

  lemma NothingParsed(P: Params, draws: seq<nat>)
    requires P.m > 0
    ensures Parsed(P, draws, [], 0)
  {
  }

  lemma UnitIsCoprime(P: Params, draw: nat)
    requires P.m > 0 && UnitDraw(P, draw)
    ensures draw % P.m > 0 && Coprime(draw % P.m, P.m)
  {
  }
}
