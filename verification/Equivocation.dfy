/** Ring-Pedersen commitments with a known trapdoor (pkg/commitments/intcom). */
module Equivocation {
  import opened Groups
  import opened NumberTheory

  const StatisticalSecurityBits: nat := 80

  ghost function Shifted(n: nat, bits: nat): nat {
    if bits == 0 then n else 2 * Shifted(n, bits - 1)
  }

  /** A trapdoor key: s == t^lambda, where t has an order dividing m = phi(n) / 4 for the modulus
      n = p * q, phi(n) / 4 being (p / 2) * (q / 2). */
  datatype TrapdoorKey<!T(!new)> = TrapdoorKey(G: Group<T>, s: T, t: T, lambda: nat, p: nat, q: nat) {
    ghost function N(): nat { p * q }
    function M(): nat { (p / 2) * (q / 2) }
    ghost function WitnessUpper(): int { Shifted(N(), StatisticalSecurityBits) }
    ghost function WitnessLower(): int { -WitnessUpper() }

    ghost predicate Valid() {
      && G.Lawful() && p >= 2 && q >= 2
      && s == Pow(G, t, lambda) && Pow(G, t, M()) == G.one
    }

    /** The public form of a commitment, s^m * t^r. */
    ghost function Commit(m: int, r: int): T {
      G.mul(Pow(G, s, m), Pow(G, t, r))
    }

    /** The form the trapdoor holder computes, t^(lambda * m + r). */
    ghost function CommitFolded(m: int, r: int): T {
      Pow(G, t, m * lambda + r)
    }
  }

  /** Both forms give the same commitment, for all integer messages and witnesses. */
  lemma FoldedIsCommit<T(!new)>(k: TrapdoorKey<T>, m: int, r: int)
    requires k.Valid()
    ensures k.CommitFolded(m, r) == k.Commit(m, r)
  {
    PowPow(k.G, k.t, k.lambda, m);
    assert k.lambda * m == m * k.lambda;
    PowAdd(k.G, k.t, m * k.lambda, r);
  }

  lemma ModulusPositive(p: nat, q: nat)
    requires p >= 2 && q >= 2
    ensures 0 < (p / 2) * (q / 2) <= p * q
  {
    var a, b := p / 2, q / 2;
    assert 1 <= a <= p && 1 <= b <= q;
    assert a * b >= 1 * b;
    MulMono(a, p, b);
    MulMono(b, q, p);
    assert b * p == p * b && q * p == p * q;
  }

  lemma {:induction false} ShiftedGrows(n: nat, bits: nat)
    ensures Shifted(n, bits) >= n
  {
    if bits > 0 {
      ShiftedGrows(n, bits - 1);
    }
  }

  /** Witnesses lie below p q 2^80 in absolute value. */
  lemma WitnessRange<T(!new)>(k: TrapdoorKey<T>)
    ensures k.WitnessUpper() == k.p * k.q * 0x1_0000_0000_0000_0000_0000 && k.WitnessLower() == -k.WitnessUpper()
  {
    hide Shifted;
    ShiftedTwice(k.N(), 40, 40);
    ShiftedTwice(k.N(), 20, 20);
    ShiftedTwice(Shifted(k.N(), 40), 20, 20);
    ShiftedTwenty(k.N());
    ShiftedTwenty(Shifted(k.N(), 20));
    ShiftedTwenty(Shifted(k.N(), 40));
    ShiftedTwenty(Shifted(Shifted(k.N(), 40), 20));
  }

  lemma {:induction false} ShiftedTwice(n: nat, a: nat, b: nat)
    ensures Shifted(n, a + b) == Shifted(Shifted(n, a), b)
  {
    if b > 0 {
      ShiftedTwice(n, a, b - 1);
    }
  }

  lemma ShiftedTwenty(n: nat)
    ensures Shifted(n, 20) == n * 0x10_0000
  {
    hide Shifted;
    ShiftedTwice(n, 10, 10);
    ShiftedTwice(n, 5, 5);
    ShiftedTwice(Shifted(n, 10), 5, 5);
    ShiftedFive(n);
    ShiftedFive(Shifted(n, 5));
    ShiftedFive(Shifted(n, 10));
    ShiftedFive(Shifted(Shifted(n, 10), 5));
  }

  lemma ShiftedFive(n: nat)
    ensures Shifted(n, 5) == n * 32
  {
    assert Shifted(n, 1) == 2 * n;
    assert Shifted(n, 2) == 4 * n;
    assert Shifted(n, 3) == 8 * n;
    assert Shifted(n, 4) == 16 * n;
  }

  /** For odd p and q the exponents count modulo phi(p q) / 4. */
  lemma ModulusIsQuarter<T(!new)>(k: TrapdoorKey<T>)
    requires k.p % 2 == 1 && k.q % 2 == 1
    ensures 4 * k.M() == (k.p - 1) * (k.q - 1)
  {
    var a, b := k.p / 2, k.q / 2;
    assert k.p - 1 == 2 * a && k.q - 1 == 2 * b;
    assert (2 * a) * (2 * b) == 4 * (a * b);
  }

  /** Exponents count modulo m. */
  lemma PowPeriodic<T(!new)>(k: TrapdoorKey<T>, a: int, x: int)
    requires k.Valid()
    ensures Pow(k.G, k.t, a + x * k.M()) == Pow(k.G, k.t, a)
  {
    PowAdd(k.G, k.t, a, x * k.M());
    PowPow(k.G, k.t, k.M(), x);
    assert k.M() * x == x * k.M();
    PowOfOne(k.G, x);
    assert k.G.One(Pow(k.G, k.t, a));
  }

  function FloorDiv(a: int, m: nat): int
    requires m > 0
  {
    a / m
  }

  function CeilDiv(a: int, m: nat): int
    requires m > 0
  {
    -((-a) / m)
  }

  lemma FloorDivBounds(a: int, m: nat, x: int)
    requires m > 0
    ensures x <= FloorDiv(a, m) <==> x * m <= a
  {
    var f := a / m;
    assert f * m <= a < (f + 1) * m;
    if x <= f {
      MulMono(x, f, m);
    } else {
      MulMono(f + 1, x, m);
    }
  }

  lemma CeilDivBounds(a: int, m: nat, x: int)
    requires m > 0
    ensures CeilDiv(a, m) <= x <==> a <= x * m
  {
    FloorDivBounds(-a, m, -x);
    assert (-x) * m == -(x * m);
  }

  /** The residue the new witness must have, and the interval x is sampled from. */
  function Residue<T(!new)>(k: TrapdoorKey<T>, m: int, r: int, m': int): int
    requires k.M() > 0
  {
    (r + k.lambda * (m - m')) % k.M()
  }

  ghost function XMin<T(!new)>(k: TrapdoorKey<T>, r0: int): int
    requires k.M() > 0
  {
    CeilDiv(k.WitnessLower() - r0, k.M())
  }

  ghost function XMax<T(!new)>(k: TrapdoorKey<T>, r0: int): int
    requires k.M() > 0
  {
    FloorDiv(k.WitnessUpper() - r0 - 1, k.M())
  }

  /** The witness for m' from the sampled x; the old one when the messages are equal. */
  function Equivocate<T(!new)>(k: TrapdoorKey<T>, m: int, r: int, m': int, x: int): int
    requires k.M() > 0
  {
    if m == m' then r else Residue(k, m, r, m') + x * k.M()
  }

  /** The interval is never empty, and it is exactly the x that give a witness in range. */
  lemma SamplingInterval<T(!new)>(k: TrapdoorKey<T>, r0: int)
    requires k.Valid() && k.M() > 0 && 0 <= r0 < k.M()
    ensures XMin(k, r0) <= 0 <= XMax(k, r0)
    ensures forall x :: XMin(k, r0) <= x <= XMax(k, r0) <==> k.WitnessLower() <= r0 + x * k.M() < k.WitnessUpper()
  {
    hide Shifted;
    ModulusPositive(k.p, k.q);
    ShiftedGrows(k.N(), StatisticalSecurityBits);
    forall x ensures XMin(k, r0) <= x <= XMax(k, r0) <==> k.WitnessLower() <= r0 + x * k.M() < k.WitnessUpper() {
      CeilDivBounds(k.WitnessLower() - r0, k.M(), x);
      FloorDivBounds(k.WitnessUpper() - r0 - 1, k.M(), x);
    }
    assert k.WitnessLower() <= r0 + 0 * k.M() < k.WitnessUpper();
  }

  /** For every sampled x the new witness is in range and opens the original commitment to the new
      message, under both forms of the commitment. */
  lemma EquivocationOpens<T(!new)>(k: TrapdoorKey<T>, m: int, r: int, m': int, x: int)
    requires k.Valid() && k.M() > 0
    requires m == m' ==> k.WitnessLower() <= r < k.WitnessUpper()
    requires XMin(k, Residue(k, m, r, m')) <= x <= XMax(k, Residue(k, m, r, m'))
    ensures k.WitnessLower() <= Equivocate(k, m, r, m', x) < k.WitnessUpper()
    ensures k.CommitFolded(m', Equivocate(k, m, r, m', x)) == k.CommitFolded(m, r)
    ensures k.Commit(m', Equivocate(k, m, r, m', x)) == k.Commit(m, r)
  {
    hide Shifted, XMin, XMax;
    var r'' := Equivocate(k, m, r, m', x);
    SamplingInterval(k, Residue(k, m, r, m'));
    if m != m' {
      var raw := r + k.lambda * (m - m');
      var c := raw / k.M();
      DivMod(raw, k.M());
      Exponents(m, m', k.lambda, r, r'', x, c, k.M());
      PowPeriodic(k, m * k.lambda + r, x - c);
    }
    FoldedIsCommit(k, m, r);
    FoldedIsCommit(k, m', r'');
  }

  lemma DivMod(a: int, m: nat)
    requires m > 0
    ensures a == a / m * m + a % m
  {
  }

  lemma Exponents(m: int, m': int, lambda: int, r: int, r'': int, x: int, c: int, M: int)
    requires r'' == r + lambda * (m - m') - c * M + x * M
    ensures m' * lambda + r'' == m * lambda + r + (x - c) * M
  {
    assert lambda * (m - m') == lambda * m - lambda * m';
    assert (x - c) * M == x * M - c * M;
  }
}
