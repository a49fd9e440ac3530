/** When the largest shift of the safe-prime setup outgrows 64 bits (pkg/base/nt/joyepaillier.go and
    the draw in pkg/base/nt/primes.go). */
module ShiftOverflow {
  import opened NumberTheory
  import opened QuadraticResidues
  import opened JoyePaillier

  // ----- how large the shift bound is

  lemma Window(half: int, l: int, m: int, s: int, pi: int)
    requires half <= l < half + 4 * pi && 4 * pi <= m <= 12 * pi
    requires l + m + s * pi <= 2 * half < l + m + s * pi + pi
    ensures (s + 4) * pi <= half < (s + 17) * pi
  {
  }

  lemma ModulusRange(pi: int)
    requires pi >= 1
    ensures 4 * pi <= Modulus(pi) <= 12 * pi
  {
  }

  /** 2^(bits - 1) determines the bound up to 13 steps. */
  lemma ShiftWindow(bits: nat, pi: int)
    requires bits >= 16 && 1 <= pi <= Pow2(bits - 11)
    ensures (ShiftBound(bits, pi) + 4) * pi <= Pow2(bits - 1) < (ShiftBound(bits, pi) + 17) * pi
  {
    hide Anchor, Modulus, ShiftBound, Pow2;
    AnchorFacts(bits, pi);
    ShiftFacts(bits, pi);
    ModulusRange(pi);
    Pow2Scaled(bits, pi);
    Window(Pow2(bits - 1), Anchor(bits, pi), Modulus(pi), ShiftBound(bits, pi), pi);
  }

  lemma ParamsWindow(t: seq<int>, bits: nat, P: Params)
    requires PrimeTable(t) && GoodParams(t, bits, P)
    ensures (P.bMax + 4) * P.pi <= Pow2(bits - 1) < (P.bMax + 17) * P.pi
  {
    hide Modulus, Prime, Product, MatchesLeast, SquareOfUnit, Gcd, Pow2;
    ModulusRange(P.pi);
    Pow2Scaled(bits, P.pi);
    Window(Pow2(bits - 1), P.l, P.m, P.bMax, P.pi);
  }

  // ----- a sieve that stops inside the table

  /** A sieve that stopped short of the table's end keeps the shift bound below 2^64. */
  lemma ShortSieveFits(t: seq<int>, bits: nat, k: nat)
    requires PrimeTable(t) && bits >= 16 && SieveSize(t, bits, k) && k < |t| && Product(t[..k]) >= 1
    ensures ShiftBound(bits, Product(t[..k])) < UINT64_SIZE
  {
    hide Anchor, Modulus, ShiftBound, Prime;
    var pi := Product(t[..k]);
    AnchorFacts(bits, pi);
    ShiftFacts(bits, pi);
    Pow2Add(bits - 11, 11);
    assert Pow2(11) == 2048;
    MulMono(t[k], 32768, pi);
    var s := ShiftBound(bits, pi);
    assert s * pi <= 2048 * (32768 * pi) by {
      assert Modulus(pi) >= 0 by { ModulusBasics(pi); }
    }
    if s >= 67108865 {
      MulMono(67108865, s, pi);
      assert false;
    }
  }

  /** Nor can bMax + 1 wrap round then, so no worker panics. */
  lemma ShortSieveNoWrap(t: seq<int>, bits: nat, P: Params)
    requires PrimeTable(t) && GoodParams(t, bits, P) && SieveSize(t, bits, P.nPi) && P.nPi < |t|
    ensures P.bMax + 1 < UINT64_SIZE
  {
    hide Modulus, Prime, Product, MatchesLeast, SquareOfUnit, Gcd;
    Pow2Add(bits - 11, 10);
    assert Pow2(10) == 1024;
    Pow2Add(bits - 1, 1);
    ProductStep(t, P.nPi);
    MulMono(t[P.nPi], 32768, P.pi);
    if P.bMax >= 33554432 {
      MulMono(33554432, P.bMax, P.pi);
      assert false;
    }
  }

  // ----- a sieve that uses up the table

  lemma {:induction false} ProductBound(t: seq<int>, k: nat)
    requires PrimeTable(t) && k <= |t|
    ensures 1 <= Product(t[..k]) <= Pow2(15 * k)
    decreases k
  {
    if k > 0 {
      ProductBound(t, k - 1);
      ProductStep(t, k - 1);
      Pow2Add(15 * (k - 1), 15);
      assert Pow2(15) == 32768;
      var P := Product(t[..k - 1]);
      MulMono(P, Pow2(15 * (k - 1)), t[k - 1]);
      MulMono(t[k - 1], 32768, Pow2(15 * (k - 1)));
      MulMono(1, t[k - 1], P);
    }
  }

  lemma Pow2Mono(a: nat, b: nat)
    requires a <= b
    ensures Pow2(a) <= Pow2(b)
  {
    Pow2Add(a, b - a);
    MulMono(1, Pow2(b - a), Pow2(a));
  }

  lemma {:induction false} ProductGrows(t: seq<int>, k: nat, j: nat)
    requires PrimeTable(t) && k <= j <= |t|
    ensures 1 <= Product(t[..k]) <= Product(t[..j])
    decreases j
  {
    ProductBound(t, k);
    if k < j {
      ProductGrows(t, k, j - 1);
      ProductStep(t, j - 1);
      MulMono(1, t[j - 1], Product(t[..j - 1]));
    }
  }

  lemma SieveUsesAll(t: seq<int>, bits: nat, k: nat)
    requires PrimeTable(t) && bits >= 16 && SieveSize(t, bits, k) && Product(t) <= Pow2(bits - 11)
    ensures k == |t|
  {
    hide Product, PrimeTable, Pow2;
    assert t[..|t|] == t;
    if k < |t| {
      ProductStep(t, k);
      ProductGrows(t, k + 1, |t|);
    }
  }

  /** The overflow exit is taken from 2^(bits - 1) = (2^64 + 16) Pi on, Pi being the product of the
      whole table, and never below (2^64 + 4) Pi. */
  lemma OverflowThreshold(t: seq<int>, bits: nat, k: nat)
    requires PrimeTable(t) && bits >= 16 && SieveSize(t, bits, k)
    ensures Product(t[..k]) >= 1
    ensures Pow2(bits - 1) >= (UINT64_SIZE + 16) * Product(t) ==> ShiftBound(bits, Product(t[..k])) >= UINT64_SIZE
    ensures ShiftBound(bits, Product(t[..k])) >= UINT64_SIZE ==> k == |t| && Pow2(bits - 1) >= (UINT64_SIZE + 4) * Product(t)
  {
    hide Product, ShiftBound, PrimeTable, Pow2, SieveSize;
    SieveBound(t, bits, k);
    ProductBound(t, k);
    assert t[..|t|] == t;
    ProductBound(t, |t|);
    var s := ShiftBound(bits, Product(t[..k]));
    if Pow2(bits - 1) >= (UINT64_SIZE + 16) * Product(t) {
      TenBits(bits, Product(t));
      SieveUsesAll(t, bits, k);
      ShiftWindow(bits, Product(t));
      if s + 17 <= UINT64_SIZE + 16 {
        MulMono(s + 17, UINT64_SIZE + 16, Product(t));
        assert false;
      }
    }
    if s >= UINT64_SIZE {
      if k < |t| {
        ShortSieveFits(t, bits, k);
        assert false;
      }
      ShiftWindow(bits, Product(t));
      MulMono(UINT64_SIZE + 4, s + 4, Product(t));
    }
  }

  lemma SieveBound(t: seq<int>, bits: nat, k: nat)
    requires bits >= 16 && SieveSize(t, bits, k)
    ensures k <= |t| && Product(t[..k]) <= Pow2(bits - 11)
  {
  }

  lemma TenBits(bits: nat, pi: nat)
    requires bits >= 16 && Pow2(bits - 1) >= (UINT64_SIZE + 16) * pi
    ensures pi <= Pow2(bits - 11)
  {
    Pow2Add(bits - 11, 10);
    assert Pow2(10) == 1024;
  }

  /** Once a size overflows, so does every larger one. */
  lemma OverflowStays(t: seq<int>, bits: nat, k: nat, bits': nat, k': nat)
    requires PrimeTable(t) && 16 <= bits < bits' && SieveSize(t, bits, k) && SieveSize(t, bits', k')
    requires Product(t[..k]) >= 1 && ShiftBound(bits, Product(t[..k])) >= UINT64_SIZE
    ensures Product(t[..k']) >= 1 && ShiftBound(bits', Product(t[..k'])) >= UINT64_SIZE
  {
    hide Product, ShiftBound, PrimeTable, SieveSize;
    OverflowThreshold(t, bits, k);
    OverflowThreshold(t, bits', k');
    ProductBound(t, |t|);
    assert t[..|t|] == t;
    Pow2Mono(bits, bits' - 1);
    assert Pow2(bits) == 2 * Pow2(bits - 1);
  }

  /** When no power of two lies in the window above (2^64 + 3) Pi, the sizes that overflow are exactly
      those above n bits, 2^n being the first power beyond it. */
  lemma OverflowExactly(t: seq<int>, bits: nat, k: nat, n: nat)
    requires PrimeTable(t) && bits >= 16 && SieveSize(t, bits, k) && Product(t[..k]) >= 1
    requires n >= 1 && Pow2(n - 1) < (UINT64_SIZE + 3) * Product(t) && (UINT64_SIZE + 16) * Product(t) <= Pow2(n)
    ensures ShiftBound(bits, Product(t[..k])) >= UINT64_SIZE <==> bits > n
  {
    hide Product, ShiftBound, PrimeTable, SieveSize, Pow2;
    OverflowThreshold(t, bits, k);
    assert t[..|t|] == t;
    ProductBound(t, |t|);
    if bits > n {
      Pow2Mono(n, bits - 1);
    } else {
      Pow2Mono(bits - 1, n - 1);
    }
  }

  /** Every table of at most 2047 primes overflows at the latest from 30771 bits on. */
  lemma LargeBitsOverflow(t: seq<int>, bits: nat, k: nat)
    requires PrimeTable(t) && |t| <= 2047 && bits >= 30771 && SieveSize(t, bits, k)
    ensures k == |t| && Product(t[..k]) >= 1 && ShiftBound(bits, Product(t[..k])) >= UINT64_SIZE
  {
    hide Product, ShiftBound, PrimeTable, SieveSize;
    ProductBound(t, |t|);
    assert t[..|t|] == t;
    Pow2Mono(15 * |t|, bits - 66);
    Pow2Add(bits - 66, 65);
    Pow2SixtyFive();
    MulMono(Product(t), Pow2(bits - 66), Pow2(65));
    MulMono(UINT64_SIZE + 16, Pow2(65), Product(t));
    OverflowThreshold(t, bits, k);
  }

  lemma Pow2Small()
    ensures Pow2(1) == 2 && Pow2(3) == 8 && Pow2(8) == 256 && Pow2(10) == 1024
  {
  }

  lemma Pow2SixtyFive()
    ensures Pow2(65) == 2 * UINT64_SIZE
  {
    hide Pow2;
    Pow2Small();
    Pow2Add(8, 8);
    Pow2Add(16, 16);
    Pow2Add(32, 32);
    Pow2Add(64, 1);
  }

  // ----- the sum bMax + 1

  /** bMax + 1 can wrap round only when 2^(bits - 1) lies in a window of 13 times Pi. */
  lemma WrapWindow(t: seq<int>, bits: nat, P: Params)
    requires PrimeTable(t) && GoodParams(t, bits, P) && P.bMax + 1 == UINT64_SIZE
    ensures (UINT64_SIZE + 3) * P.pi <= Pow2(bits - 1) < (UINT64_SIZE + 16) * P.pi
  {
    ParamsWindow(t, bits, P);
  }

  /** No size makes it wrap round when 2^(n - 1) and 2^n lie on either side of that window: a check
      on the sieve alone. */
  lemma NoWrapAtAnySize(t: seq<int>, bits: nat, P: Params, n: nat)
    requires PrimeTable(t) && GoodParams(t, bits, P)
    requires n >= 1 && Pow2(n - 1) < (UINT64_SIZE + 3) * P.pi && (UINT64_SIZE + 16) * P.pi <= Pow2(n)
    ensures P.bMax + 1 != UINT64_SIZE
  {
    hide GoodParams;
    if P.bMax + 1 == UINT64_SIZE {
      WrapWindow(t, bits, P);
      SizeAtLeast(t, bits, P);
      if bits <= n {
        Pow2Mono(bits - 1, n - 1);
      } else {
        Pow2Mono(n, bits - 1);
      }
    }
  }

  // ----- a table for which the sum does wrap round

  const ExampleSieve: nat := 604462909807314587161041

  /** The window is no empty case: for this table of primes and 144 bits the setup's conditions hold
      and leave no bMax but 2^64 - 1. */
  lemma WrapExample(P: Params)
    ensures var t := [3, 7, 13, 19, 37, 139, 523, 1667, 2393, 3011, 3607];
      && PrimeTable(t) && Product(t) == ExampleSieve && SieveSize(t, 144, |t|)
      && ShiftBound(144, ExampleSieve) + 1 == UINT64_SIZE
      && (GoodParams(t, 144, P) && P.nPi == |t| ==> P.bMax + 1 == UINT64_SIZE)
  {
    var t := [3, 7, 13, 19, 37, 139, 523, 1667, 2393, 3011, 3607];
    ExamplePrimes(t);
    ExampleProduct();
    ExampleBound();
    assert t[..|t|] == t;
    if GoodParams(t, 144, P) && P.nPi == |t| {
      ExampleParams(t, P);
    }
  }

  lemma ExamplePowers()
    ensures Pow2(133) >= ExampleSieve && Pow2(143) == 0x8000_0000_0000_0000_0000_0000_0000_0000_0000 && Pow2(144) == 2 * Pow2(143)
  {
    hide Pow2;
    Pow2SixtyFive();
    Pow2Small();
    Pow2Add(65, 65);
    Pow2Add(130, 3);
    Pow2Add(133, 10);
    Pow2Add(143, 1);
  }

  lemma ExampleProduct()
    ensures Product([3, 7, 13, 19, 37, 139, 523, 1667, 2393, 3011, 3607]) == ExampleSieve
  {
    var t := [3, 7, 13, 19, 37, 139, 523, 1667, 2393, 3011, 3607];
    hide Product;
    NoProduct(t[..0]);
    assert t[..|t|] == t;
    ProductStep(t, 0);
    ProductStep(t, 1);
    ProductStep(t, 2);
    ProductStep(t, 3);
    ProductStep(t, 4);
    ProductStep(t, 5);
    ProductStep(t, 6);
    ProductStep(t, 7);
    ProductStep(t, 8);
    ProductStep(t, 9);
    ProductStep(t, 10);
  }

  lemma NoProduct(s: seq<int>)
    requires s == []
    ensures Product(s) == 1
  {
  }

  lemma ExampleBound()
    ensures Pow2(133) >= ExampleSieve && ShiftBound(144, ExampleSieve) + 1 == UINT64_SIZE
  {
    hide Pow2;
    ExamplePowers();
  }

  lemma ExampleAnchor(c: int, l: int)
    requires l == c * 604462909807314587161041 && l % 4 == 0
    requires 0x8000_0000_0000_0000_0000_0000_0000_0000_0000 <= l < 0x8000_0000_0000_0000_0000_0000_0000_0000_0000 + 4 * 604462909807314587161041
    ensures l == 11150372599265311572060920555658999191080584
  {
  }

  lemma ExampleParams(t: seq<int>, P: Params)
    requires PrimeTable(t) && GoodParams(t, 144, P) && P.pi == ExampleSieve
    ensures P.bMax + 1 == UINT64_SIZE
  {
    hide Product, MatchesLeast, SquareOfUnit, Gcd, PrimeTable, Pow2;
    ExamplePowers();
    assert P.l == (P.l / P.pi) * P.pi;
    ExampleAnchor(P.l / P.pi, P.l);
  }

  lemma ExamplePrimes(t: seq<int>)
    requires t == [3, 7, 13, 19, 37, 139, 523, 1667, 2393, 3011, 3607]
    ensures PrimeTable(t)
  {
    forall i | 0 <= i < |t| ensures Prime(t[i]) {
      SmallExamples();
      LargeExamples();
      PrimeByTrial(t[i]);
    }
  }

  lemma SmallExamples()
    ensures NoFactorFrom(3, 2) && NoFactorFrom(7, 2) && NoFactorFrom(13, 2) && NoFactorFrom(19, 2) && NoFactorFrom(37, 2) && NoFactorFrom(139, 2)
  {
  }

  predicate NoneOfFive(p: int, d: int)
    requires d >= 2
  {
    p % d != 0 && p % (d + 1) != 0 && p % (d + 2) != 0 && p % (d + 3) != 0 && p % (d + 4) != 0
  }

  lemma FiveMore(p: int, d: int)
    requires d >= 2 && NoneOfFive(p, d) && ((d + 5) * (d + 5) > p || NoFactorFrom(p, d + 5))
    ensures NoFactorFrom(p, d)
  {
    assert NoFactorFrom(p, d + 5) && NoFactorFrom(p, d + 4) && NoFactorFrom(p, d + 3) && NoFactorFrom(p, d + 2) && NoFactorFrom(p, d + 1);
  }

  lemma LargeExamples()
    ensures NoFactorFrom(523, 2) && NoFactorFrom(1667, 2) && NoFactorFrom(2393, 2) && NoFactorFrom(3011, 2) && NoFactorFrom(3607, 2)
  {
    Factorless523();
    Factorless1667();
    Factorless2393();
    Factorless3011();
    Factorless3607();
  }

  lemma Factorless523()
    ensures NoFactorFrom(523, 2)
  {
    hide NoFactorFrom;
    FiveMore(523, 22);
    FiveMore(523, 17);
    FiveMore(523, 12);
    FiveMore(523, 7);
    FiveMore(523, 2);
  }

  lemma Factorless1667()
    ensures NoFactorFrom(1667, 2)
  {
    hide NoFactorFrom;
    FiveMore(1667, 37);
    FiveMore(1667, 32);
    FiveMore(1667, 27);
    FiveMore(1667, 22);
    FiveMore(1667, 17);
    FiveMore(1667, 12);
    FiveMore(1667, 7);
    FiveMore(1667, 2);
  }

  lemma Factorless2393()
    ensures NoFactorFrom(2393, 2)
  {
    hide NoFactorFrom;
    FiveMore(2393, 47);
    FiveMore(2393, 42);
    FiveMore(2393, 37);
    FiveMore(2393, 32);
    FiveMore(2393, 27);
    FiveMore(2393, 22);
    FiveMore(2393, 17);
    FiveMore(2393, 12);
    FiveMore(2393, 7);
    FiveMore(2393, 2);
  }

  lemma Factorless3011()
    ensures NoFactorFrom(3011, 2)
  {
    hide NoFactorFrom;
    FiveMore(3011, 52);
    FiveMore(3011, 47);
    FiveMore(3011, 42);
    FiveMore(3011, 37);
    FiveMore(3011, 32);
    FiveMore(3011, 27);
    FiveMore(3011, 22);
    FiveMore(3011, 17);
    FiveMore(3011, 12);
    FiveMore(3011, 7);
    FiveMore(3011, 2);
  }

  lemma Factorless3607()
    ensures NoFactorFrom(3607, 2)
  {
    hide NoFactorFrom;
    FiveMore(3607, 57);
    FiveMore(3607, 52);
    FiveMore(3607, 47);
    FiveMore(3607, 42);
    FiveMore(3607, 37);
    FiveMore(3607, 32);
    FiveMore(3607, 27);
    FiveMore(3607, 22);
    FiveMore(3607, 17);
    FiveMore(3607, 12);
    FiveMore(3607, 7);
    FiveMore(3607, 2);
  }

  /** No number from d on divides p, tried up to the square root. */
  predicate NoFactorFrom(p: int, d: int)
    requires d >= 2
    decreases p - d
  {
    d * d > p || (p % d != 0 && NoFactorFrom(p, d + 1))
  }

  lemma {:induction false} NoFactorAt(p: int, d: int, e: int)
    requires 2 <= d <= e && e * e <= p && NoFactorFrom(p, d)
    ensures p % e != 0
    decreases e - d
  {
    MulMono(d, e, e);
    MulMono(d, e, d);
    if d < e {
      NoFactorAt(p, d + 1, e);
    }
  }

  lemma PrimeByTrial(p: int)
    requires p >= 2 && NoFactorFrom(p, 2)
    ensures Prime(p)
  {
    forall d | 2 <= d < p ensures !Divides(d, p) {
      if Divides(d, p) {
        var e := p / d;
        assert p == d * e;
        if e < 2 {
          MulMono(e, 1, d);
        } else if d <= e {
          MulMono(d, e, d);
          NoFactorAt(p, 2, d);
        } else {
          MulMono(e, d, e);
          DivModUnique(p, e, d, 0);
          NoFactorAt(p, 2, e);
        }
      }
    }
  }

  lemma SizeAtLeast(t: seq<int>, bits: nat, P: Params)
    requires PrimeTable(t) && GoodParams(t, bits, P)
    ensures bits >= 16
  {
  }
}
