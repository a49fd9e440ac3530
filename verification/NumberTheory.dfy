/** Congruences, divisibility, primes and modular inverses. */
module NumberTheory {

  // ----- products, one step at a time

  lemma MulAssoc(a: int, b: int, c: int)
    ensures a * (b * c) == (a * b) * c
  {
  }

  lemma MulSwap(a: int, b: int, c: int)
    ensures a * (b * c) == b * (a * c)
  {
  }

  lemma MulMono(a: int, b: int, c: int)
    requires a <= b && 0 <= c
    ensures a * c <= b * c
  {
  }

  // ----- congruence

  ghost predicate Cong(a: int, b: int, p: int)
    requires p > 0
  {
    (a - b) % p == 0
  }

  lemma MultipleMod(k: int, p: int)
    requires p > 0
    ensures (k * p) % p == 0
  {
    DivModUnique(k * p, p, k, 0);
  }

  lemma DivModUnique(x: int, p: int, q: int, r: int)
    requires p > 0 && 0 <= r < p && x == q * p + r
    ensures x % p == r && x / p == q
  {
    var d := x / p - q;
    assert x == (x / p) * p + x % p;
    assert d * p == r - x % p;
    SmallMultiple(d, p);
  }

  lemma SmallMultiple(d: int, p: int)
    requires p > 0
    ensures -p < d * p < p ==> d == 0
  {
    if d >= 1 {
      assert d * p >= p;
    } else if d <= -1 {
      assert d * p <= -p;
    }
  }

  lemma CongIntro(a: int, b: int, p: int, k: int)
    requires p > 0 && a == b + k * p
    ensures Cong(a, b, p)
  {
    MultipleMod(k, p);
  }

  /** The multiple of p between two congruent numbers. */
  ghost function Quot(a: int, b: int, p: int): (k: int)
    requires p > 0 && Cong(a, b, p)
    ensures a == b + k * p
  {
    (a - b) / p
  }

  lemma CongMod(a: int, p: int)
    requires p > 0
    ensures Cong(a, a % p, p) && Cong(a % p, a, p)
  {
    assert a == a % p + (a / p) * p;
    CongIntro(a, a % p, p, a / p);
    CongIntro(a % p, a, p, -(a / p));
  }

  /** Congruence is equality of remainders. */
  lemma CongIffMod(a: int, b: int, p: int)
    requires p > 0
    ensures Cong(a, b, p) <==> a % p == b % p
  {
    var d := a / p - b / p;
    assert a == (a / p) * p + a % p && b == (b / p) * p + b % p;
    assert a - b == d * p + (a % p - b % p);
    if a % p == b % p {
      CongIntro(a, b, p, d);
    }
    if Cong(a, b, p) {
      var k := Quot(a, b, p);
      assert (k - d) * p == a % p - b % p;
      SmallMultiple(k - d, p);
    }
  }

  lemma CongSym(a: int, b: int, p: int)
    requires p > 0 && Cong(a, b, p)
    ensures Cong(b, a, p)
  {
    CongIntro(b, a, p, -Quot(a, b, p));
  }

  lemma CongTrans(a: int, b: int, c: int, p: int)
    requires p > 0 && Cong(a, b, p) && Cong(b, c, p)
    ensures Cong(a, c, p)
  {
    var k, l := Quot(a, b, p), Quot(b, c, p);
    assert a == c + (k + l) * p;
    CongIntro(a, c, p, k + l);
  }

  lemma CongAdd(a: int, b: int, c: int, d: int, p: int)
    requires p > 0 && Cong(a, b, p) && Cong(c, d, p)
    ensures Cong(a + c, b + d, p)
  {
    var k, l := Quot(a, b, p), Quot(c, d, p);
    assert a + c == b + d + (k + l) * p;
    CongIntro(a + c, b + d, p, k + l);
  }

  lemma CongMul(a: int, b: int, c: int, d: int, p: int)
    requires p > 0 && Cong(a, b, p) && Cong(c, d, p)
    ensures Cong(a * c, b * d, p)
  {
    var k, l := Quot(a, b, p), Quot(c, d, p);
    calc {
      a * c;
      (b + k * p) * (d + l * p);
      b * d + b * (l * p) + (k * p) * d + (k * p) * (l * p);
      b * d + (b * l) * p + (k * d) * p + (k * p * l) * p;
      b * d + (b * l + k * d + k * p * l) * p;
    }
    CongIntro(a * c, b * d, p, b * l + k * d + k * p * l);
  }

  lemma CongScale(a: int, b: int, c: int, p: int)
    requires p > 0 && Cong(a, b, p)
    ensures Cong(c * a, c * b, p)
  {
    CongIntro(c, c, p, 0);
    CongMul(c, c, a, b, p);
  }

  /** A congruence survives passing to a divisor of the modulus. */
  lemma CongDivisor(a: int, b: int, m: int, d: int, k: int)
    requires m > 0 && d > 0 && m == k * d && Cong(a, b, m)
    ensures Cong(a, b, d)
  {
    var q := Quot(a, b, m);
    assert q * (k * d) == (q * k) * d;
    CongIntro(a, b, d, q * k);
  }

  // ----- divisibility, gcd and Bezout

  ghost predicate Divides(d: int, a: int)
    requires d > 0
  {
    a % d == 0
  }

  lemma DividesIntro(d: int, a: int, k: int)
    requires d > 0 && a == k * d
    ensures Divides(d, a)
  {
    MultipleMod(k, d);
  }

  lemma CongZero(a: int, p: int)
    requires p > 0
    ensures Cong(a, 0, p) <==> Divides(p, a)
    ensures Cong(0, a, p) <==> Divides(p, a)
  {
    if Cong(0, a, p) {
      CongSym(0, a, p);
    }
    if Cong(a, 0, p) {
      CongSym(a, 0, p);
    }
  }

  lemma DividesLinear(d: int, a: int, b: int, s: int, t: int)
    requires d > 0 && Divides(d, a) && Divides(d, b)
    ensures Divides(d, s * a + t * b)
  {
    var k, l := a / d, b / d;
    assert a == k * d && b == l * d;
    calc {
      s * a + t * b;
      s * (k * d) + t * (l * d);
      (s * k) * d + (t * l) * d;
      (s * k + t * l) * d;
    }
    DividesIntro(d, s * a + t * b, s * k + t * l);
  }

  lemma DividesProduct(d: int, a: int, b: int)
    requires d > 0 && Divides(d, a)
    ensures Divides(d, a * b) && Divides(d, b * a)
  {
    DividesLinear(d, a, a, b, 0);
    assert b * a + 0 * a == a * b == b * a;
  }

  lemma DividesTrans(d: int, e: int, a: int)
    requires d > 0 && e > 0 && Divides(d, e) && Divides(e, a)
    ensures Divides(d, a)
  {
    assert a == (a / e) * e;
    DividesProduct(d, e, a / e);
  }

  lemma DividesBound(d: int, a: int)
    requires d > 0 && a > 0 && Divides(d, a)
    ensures d <= a
  {
    var k := a / d;
    assert a == k * d;
    assert k <= 0 ==> k * d <= 0;
    assert k >= 1 ==> k * d >= d;
  }

  /** The greatest common divisor, by Euclid's algorithm. */
  function Gcd(a: nat, b: nat): (g: nat)
    decreases b
  {
    if b == 0 then a else Gcd(b, a % b)
  }

  lemma BezoutStep(a: int, b: int, q: int, r: int, s: int, t: int)
    requires a == q * b + r
    ensures t * a + (s - t * q) * b == s * b + t * r
  {
    calc {
      t * a + (s - t * q) * b;
      t * (q * b + r) + (s - t * q) * b;
      t * (q * b) + t * r + s * b - (t * q) * b;
      s * b + t * r;
    }
  }

  /** Gcd(a, b) == s * a + t * b, and it divides both. */
  lemma {:induction false} Bezout(a: nat, b: nat) returns (s: int, t: int)
    requires a > 0 || b > 0
    ensures Gcd(a, b) == s * a + t * b
    ensures Gcd(a, b) > 0 && Divides(Gcd(a, b), a) && Divides(Gcd(a, b), b)
    decreases b
  {
    if b == 0 {
      s, t := 1, 0;
      DividesIntro(a, a, 1);
      DividesIntro(a, 0, 0);
    } else {
      var g := Gcd(a, b);
      var s', t' := Bezout(b, a % b);
      s, t := t', s' - t' * (a / b);
      var q := a / b;
      assert a == q * b + a % b;
      BezoutStep(a, b, q, a % b, s', t');
      DividesLinear(g, b, a % b, q, 1);
      assert q * b + 1 * (a % b) == a;
    }
  }

  lemma GcdGreatest(a: nat, b: nat, d: int)
    requires (a > 0 || b > 0) && d > 0 && Divides(d, a) && Divides(d, b)
    ensures Divides(d, Gcd(a, b))
  {
    var s, t := Bezout(a, b);
    DividesLinear(d, a, b, s, t);
  }

  ghost predicate Coprime(a: nat, b: nat) {
    Gcd(a, b) == 1
  }

  // ----- primes

  ghost predicate Prime(p: int) {
    p >= 2 && forall d :: 2 <= d < p ==> !Divides(d, p)
  }

  lemma {:induction false} PrimeFactor(a: int) returns (p: int)
    requires a >= 2
    ensures Prime(p) && Divides(p, a)
    decreases a
  {
    if Prime(a) {
      p := a;
      DividesIntro(a, a, 1);
    } else {
      var d :| 2 <= d < a && Divides(d, a);
      p := PrimeFactor(d);
      DividesTrans(p, d, a);
    }
  }

  ghost predicate CommonPrime(p: int, a: int, b: int) {
    Prime(p) && Divides(p, a) && Divides(p, b)
  }

  /** Numbers with no common prime factor are coprime. */
  lemma CoprimeByPrimes(a: nat, b: nat)
    requires a > 0 || b > 0
    requires forall p :: !CommonPrime(p, a, b)
    ensures Coprime(a, b)
  {
    var g := Gcd(a, b);
    var s, t := Bezout(a, b);
    if g >= 2 {
      var p := PrimeFactor(g);
      DividesTrans(p, g, a);
      DividesTrans(p, g, b);
      assert CommonPrime(p, a, b);
    }
  }

  lemma CoprimeNoPrime(a: nat, b: nat, p: int)
    requires (a > 0 || b > 0) && Coprime(a, b) && Prime(p) && Divides(p, b)
    ensures !Divides(p, a)
  {
    if Divides(p, a) {
      GcdGreatest(a, b, p);
      DividesBound(p, 1);
      assert false;
    }
  }

  lemma PrimeCoprime(a: nat, p: int)
    requires Prime(p) && !Divides(p, a)
    ensures Gcd(a, p) == 1
  {
    var s, t := Bezout(a, p);
    var g := Gcd(a, p);
    DividesBound(g, p);
    assert g == 1 || g == p;
  }

  /** A number not divisible by the prime p has an inverse modulo p. */
  lemma InverseExists(a: int, p: int) returns (b: int)
    requires Prime(p) && !Divides(p, a)
    ensures 0 <= b < p && Cong(a * b, 1, p)
  {
    var r := a % p;
    CongMod(a, p);
    if Divides(p, r) {
      DivModUnique(r, p, 0, r);
    }
    PrimeCoprime(r, p);
    var s, t := Bezout(r, p);
    b := s % p;
    CongMod(s, p);
    CongMul(a, r, b, s, p);
    assert r * s == 1 + (-t) * p;
    CongIntro(r * s, 1, p, -t);
    CongTrans(a * b, r * s, 1, p);
  }

  /** Euclid's lemma. */
  lemma EuclidLemma(p: int, a: int, b: int)
    requires Prime(p) && Divides(p, a * b)
    ensures Divides(p, a) || Divides(p, b)
  {
    if !Divides(p, a) {
      var i := InverseExists(a, p);
      DividesProduct(p, a * b, i);
      CongScale(a * i, 1, b, p);
      assert b * (a * i) == (a * b) * i;
      CongIffMod(b * (a * i), b, p);
    }
  }

  lemma CancelFactor(p: int, a: int, x: int, y: int)
    requires Prime(p) && !Divides(p, a) && Cong(a * x, a * y, p)
    ensures Cong(x, y, p)
  {
    assert a * x - a * y == a * (x - y);
    EuclidLemma(p, a, x - y);
  }
}
