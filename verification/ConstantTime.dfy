/** Branch-free comparisons (pkg/base/ct/ints.go, pkg/base/ct/bytes.go). */
module ConstantTime {

  /** A truth value as the word 0 or 1. */
  function Choice(b: bool): bv64 { if b then 1 else 0 }

  // Bit-vector facts are proved on plain expressions; the operations are then named, so that
  // facts combine without unfolding them.

  function Top(x: bv64): bv64 { x >> 63 }
  function Minus(x: bv64, y: bv64): bv64 { x - y }
  function Neg(x: bv64): bv64 { -x }
  function Mix(x: bv64, y: bv64, d: bv64): bv64 { x ^ ((x ^ y) | (d ^ y)) }
  predicate Below(x: bv64, y: bv64) { x < y }

  lemma TopIsBit(x: bv64)
    ensures Top(x) == 0 || Top(x) == 1
  {
  }

  lemma PlainTopOfMix(x: bv64, y: bv64, d: bv64)
    ensures (x ^ ((x ^ y) | (d ^ y))) >> 63 == (x >> 63) ^ (((x >> 63) ^ (y >> 63)) | ((d >> 63) ^ (y >> 63)))
  {
  }

  lemma TopOfMix(x: bv64, y: bv64, d: bv64)
    ensures Top(Mix(x, y, d)) == Mix(Top(x), Top(y), Top(d))
  {
    PlainTopOfMix(x, y, d);
  }

  lemma PlainTopDecides(x: bv64, y: bv64)
    requires x >> 63 != y >> 63
    ensures x < y <==> y >> 63 == 1
  {
  }

  lemma TopDecides(x: bv64, y: bv64)
    requires Top(x) != Top(y)
    ensures Below(x, y) <==> Top(y) == 1
  {
    PlainTopDecides(x, y);
  }

  /** Adding a word with its top bit set and keeping the top bit wraps around. */
  lemma PlainWraps(d: bv64, y: bv64)
    ensures d >> 63 != 0 && (y + d) >> 63 == y >> 63 ==> y + d < y
  {
  }

  function Plus(x: bv64, y: bv64): bv64 { x + y }

  lemma Wraps(d: bv64, y: bv64)
    ensures Top(d) != 0 && Top(Plus(y, d)) == Top(y) ==> Below(Plus(y, d), y)
  {
    PlainWraps(d, y);
  }

  lemma PlainSumBack(x: bv64, y: bv64)
    ensures Plus(y, x - y) == x
  {
  }

  lemma SumBack(x: bv64, y: bv64)
    ensures Plus(y, Minus(x, y)) == x
  {
    hide Plus;
    PlainSumBack(x, y);
  }

  lemma NoBorrow(x: bv64, y: bv64)
    requires Top(x) == Top(y) && !Below(x, y)
    ensures Top(Minus(x, y)) == 0
  {
    hide Top, Minus, Plus, Below;
    SumBack(x, y);
    Wraps(Minus(x, y), y);
  }

  lemma PlainNegTop(d: bv64)
    requires d != 0 && d >> 63 == 0
    ensures (-d) >> 63 == 1
  {
  }

  lemma NegTop(d: bv64)
    requires d != 0 && Top(d) == 0
    ensures Top(Neg(d)) == 1
  {
    PlainNegTop(d);
  }

  lemma PlainFlip(x: bv64, y: bv64)
    ensures x - y == -(y - x)
    ensures x != y ==> y - x != 0
  {
  }

  lemma MinusFlip(x: bv64, y: bv64)
    ensures Minus(x, y) == Neg(Minus(y, x))
    ensures x != y ==> Minus(y, x) != 0
  {
    PlainFlip(x, y);
  }

  lemma BelowDiffers(x: bv64, y: bv64)
    requires Below(x, y)
    ensures x != y && !Below(y, x)
  {
  }

  lemma Borrow(x: bv64, y: bv64)
    requires Top(x) == Top(y) && Below(x, y)
    ensures Top(Minus(x, y)) == 1
  {
    hide Top, Minus, Neg, Below;
    BelowDiffers(x, y);
    NoBorrow(y, x);
    MinusFlip(x, y);
    NegTop(Minus(y, x));
  }

  lemma MixBits(a: bv64, b: bv64, c: bv64)
    requires (a == 0 || a == 1) && (b == 0 || b == 1) && (c == 0 || c == 1)
    ensures Mix(a, b, c) == if a == b then c else b
  {
    PlainMixBits(a, b, c);
  }

  lemma PlainMixBits(a: bv64, b: bv64, c: bv64)
    ensures (a == 0 || a == 1) && (b == 0 || b == 1) && (c == 0 || c == 1) ==> a ^ ((a ^ b) | (c ^ b)) == if a == b then c else b
  {
  }

  /** The top bit of the mix is the borrow of x - y. */
  function LessU64(x: bv64, y: bv64): bv64 {
    Top(Mix(x, y, Minus(x, y)))
  }

  lemma LessU64Correct(x: bv64, y: bv64)
    ensures LessU64(x, y) == Choice(Below(x, y))
  {
    hide Top, Minus, Mix, Below;
    var d := Minus(x, y);
    TopOfMix(x, y, d);
    TopIsBit(x);
    TopIsBit(y);
    TopIsBit(d);
    MixBits(Top(x), Top(y), Top(d));
    if Top(x) != Top(y) {
      TopDecides(x, y);
    } else if Below(x, y) {
      Borrow(x, y);
    } else {
      NoBorrow(x, y);
    }
  }

  function IsZero(x: bv64): (r: bv64)
    ensures r == Choice(x == 0)
  {
    ((x | -x) >> 63) ^ 1
  }

  function EqualU64(x: bv64, y: bv64): (r: bv64)
    ensures r == Choice(x == y)
  {
    IsZero(x ^ y)
  }

  /** Two's-complement order: flipping the sign bits maps it to the unsigned order. */
  predicate SignedLess(x: bv64, y: bv64) {
    if x >> 63 == y >> 63 then x < y else y >> 63 == 0
  }

  function FlipSign(x: bv64): bv64 { x ^ 0x8000_0000_0000_0000 }

  function LessI64(x: bv64, y: bv64): bv64 {
    LessU64(FlipSign(x), FlipSign(y))
  }

  lemma PlainSignedOrder(x: bv64, y: bv64)
    ensures x ^ 0x8000_0000_0000_0000 < y ^ 0x8000_0000_0000_0000 <==> if x >> 63 == y >> 63 then x < y else y >> 63 == 0
  {
  }

  lemma LessI64Correct(x: bv64, y: bv64)
    ensures LessI64(x, y) == Choice(SignedLess(x, y))
  {
    assert Below(FlipSign(x), FlipSign(y)) <==> SignedLess(x, y) by {
      PlainSignedOrder(x, y);
    }
    hide FlipSign, Below, SignedLess, LessU64;
    LessU64Correct(FlipSign(x), FlipSign(y));
  }

  /** Selects x0 on choice 0 and x1 on choice 1. */
  function CSelect(choice: bv64, x0: bv64, x1: bv64): (r: bv64)
    ensures choice == 0 ==> r == x0
    ensures choice == 1 ==> r == x1
  {
    var mask := -(choice & 1);
    (x0 & !mask) | (x1 & mask)
  }

  type Bytes = seq<bv8>

  /** Lexicographic order: the first differing byte decides, and a proper prefix is smaller. */
  predicate LexLess(x: Bytes, y: Bytes) {
    |y| > 0 && (|x| == 0 || x[0] < y[0] || (x[0] == y[0] && LexLess(x[1..], y[1..])))
  }

  predicate ByteBelow(a: bv8, b: bv8) { a < b }

  /** The byte at i of x padded with zeros. */
  function Padded(x: Bytes, i: nat): bv8 { if i < |x| then x[i] else 0 }

  /** The padded slices agree below n. */
  ghost predicate AgreeBelow(x: Bytes, y: Bytes, n: nat) {
    forall i :: 0 <= i < n ==> Padded(x, i) == Padded(y, i)
  }

  /** The first padded difference, at n, decides. */
  lemma {:induction false} FirstDifference(x: Bytes, y: Bytes, n: nat)
    requires AgreeBelow(x, y, n)
    ensures Padded(x, n) < Padded(y, n) ==> LexLess(x, y) && x != y && !LexLess(y, x)
  {
    if Padded(x, n) < Padded(y, n) && n > 0 && |x| > 0 {
      assert Padded(x, 0) == Padded(y, 0);
      forall i | 0 <= i < n - 1 ensures Padded(x[1..], i) == Padded(y[1..], i) {
        assert Padded(x[1..], i) == Padded(x, i + 1) && Padded(y[1..], i) == Padded(y, i + 1);
      }
      assert Padded(x[1..], n - 1) == Padded(x, n) && Padded(y[1..], n - 1) == Padded(y, n);
      FirstDifference(x[1..], y[1..], n - 1);
      assert x == [x[0]] + x[1..] && y == [y[0]] + y[1..];
    }
  }

  /** Without a padded difference, the lengths decide. */
  lemma {:induction false} NoDifference(x: Bytes, y: Bytes, n: nat)
    requires AgreeBelow(x, y, n) && |x| <= n && |y| <= n
    ensures x == y <==> |x| == |y|
    ensures LexLess(x, y) <==> |x| < |y|
  {
    if |x| > 0 && |y| > 0 {
      assert Padded(x, 0) == Padded(y, 0);
      forall i | 0 <= i < n - 1 ensures Padded(x[1..], i) == Padded(y[1..], i) {
        assert Padded(x[1..], i) == Padded(x, i + 1) && Padded(y[1..], i) == Padded(y, i + 1);
      }
      NoDifference(x[1..], y[1..], n - 1);
      assert x == [x[0]] + x[1..] && y == [y[0]] + y[1..];
    }
  }

  method Pad(x: Bytes, n: nat) returns (p: Bytes)
    requires |x| <= n
    ensures |p| == n && forall i :: 0 <= i < n ==> p[i] == Padded(x, i)
  {
    p := x + seq(n - |x|, i => 0);
  }

  /** State of the scan after some bytes: at most one of lt and gt is set, and only once a
      difference was seen. */
  ghost predicate Scanned(x: Bytes, y: Bytes, n: nat, lt: bool, gt: bool) {
    && (lt ==> LexLess(x, y) && x != y && !LexLess(y, x))
    && (gt ==> LexLess(y, x) && x != y && !LexLess(x, y))
    && (!lt && !gt ==> AgreeBelow(x, y, n))
  }

  lemma ScanStart(x: Bytes, y: Bytes)
    ensures Scanned(x, y, 0, false, false) && Choice(false) == 0
  {
  }

  lemma ScanNext(x: Bytes, y: Bytes, i: nat, l: bool, g: bool)
    requires Scanned(x, y, i, l, g)
    ensures var ls, gr := ByteBelow(Padded(x, i), Padded(y, i)), ByteBelow(Padded(y, i), Padded(x, i));
      Scanned(x, y, i + 1, l || (ls && !(l || g)), g || (gr && !(l || g)))
  {
    hide LexLess;
    if !l && !g {
      FirstDifference(x, y, i);
      FirstDifference(y, x, i);
    }
  }

  lemma ScanEnd(x: Bytes, y: Bytes, n: nat, l: bool, g: bool)
    requires Scanned(x, y, n, l, g) && |x| <= n && |y| <= n
    ensures LexLess(x, y) <==> l || (|x| < |y| && !(l || g))
    ensures LexLess(y, x) <==> g || (|y| < |x| && !(l || g))
    ensures x == y <==> |x| == |y| && !(l || g)
  {
    hide LexLess;
    if !l && !g {
      NoDifference(x, y, n);
      NoDifference(y, x, n);
    }
  }

  function Widen(a: bv8): bv64 { a as bv64 }

  lemma WidenOrder(a: bv8, b: bv8)
    ensures Below(Widen(a), Widen(b)) <==> ByteBelow(a, b)
  {
  }

  method CompareBytes(x: Bytes, y: Bytes) returns (lt: bv64, eq: bv64, gt: bv64)
    ensures lt == Choice(LexLess(x, y))
    ensures eq == Choice(x == y)
    ensures gt == Choice(LexLess(y, x))
  {
    hide Scanned, ByteBelow, Choice, LexLess, Padded;
    var n := if |x| > |y| then |x| else |y|;
    var px := Pad(x, n);
    var py := Pad(y, n);
    var done: bv64;
    lt, gt, done := 0, 0, 0;
    ghost var l, g := false, false;
    ScanStart(x, y);
    for i := 0 to n
      invariant lt == Choice(l) && gt == Choice(g) && done == Choice(l || g)
      invariant Scanned(x, y, i, l, g)
    {
      lt, gt, done := ScanByte(lt, gt, done, px[i], py[i], l, g);
      ScanNext(x, y, i, l, g);
      ghost var ls, gr := ByteBelow(px[i], py[i]), ByteBelow(py[i], px[i]);
      l, g := l || (ls && !(l || g)), g || (gr && !(l || g));
    }
    ScanEnd(x, y, n, l, g);
    lt, eq, gt := Finish(lt, gt, done, Choice(|x| < |y|), Choice(|y| < |x|), Choice(|x| == |y|), l, g, |x| < |y|, |y| < |x|, |x| == |y|);
  }

  /** Compares one pair of bytes. */
  method ScanByte(lt: bv64, gt: bv64, done: bv64, a: bv8, b: bv8, ghost l: bool, ghost g: bool) returns (lt': bv64, gt': bv64, done': bv64)
    requires lt == Choice(l) && gt == Choice(g) && done == Choice(l || g)
    ensures lt' == Choice(l || (ByteBelow(a, b) && !(l || g)))
    ensures gt' == Choice(g || (ByteBelow(b, a) && !(l || g)))
    ensures done' == Choice(l || g || ByteBelow(a, b) || ByteBelow(b, a))
  {
    hide LessU64, Widen, Below, Choice, ByteBelow;
    var less := LessU64(Widen(a), Widen(b));
    var greater := LessU64(Widen(b), Widen(a));
    WidenOrder(a, b);
    WidenOrder(b, a);
    LessU64Correct(Widen(a), Widen(b));
    LessU64Correct(Widen(b), Widen(a));
    lt', gt', done' := ScanStep(lt, gt, done, less, greater, l, g, ByteBelow(a, b), ByteBelow(b, a));
  }

  /** One step of the masks. */
  method ScanStep(lt: bv64, gt: bv64, done: bv64, less: bv64, greater: bv64, ghost l: bool, ghost g: bool, ghost ls: bool, ghost gr: bool)
      returns (lt': bv64, gt': bv64, done': bv64)
    requires lt == Choice(l) && gt == Choice(g) && done == Choice(l || g) && less == Choice(ls) && greater == Choice(gr)
    ensures lt' == Choice(l || (ls && !(l || g)))
    ensures gt' == Choice(g || (gr && !(l || g)))
    ensures done' == Choice(l || g || ls || gr)
  {
    var mask := done ^ 1;
    lt' := lt | (less & mask);
    gt' := gt | (greater & mask);
    done' := done | (less | greater);
  }

  method Finish(lt: bv64, gt: bv64, done: bv64, xShorter: bv64, yShorter: bv64, same: bv64, ghost l: bool, ghost g: bool, ghost xs: bool, ghost ys: bool, ghost e: bool)
      returns (lt': bv64, eq: bv64, gt': bv64)
    requires lt == Choice(l) && gt == Choice(g) && done == Choice(l || g) && xShorter == Choice(xs) && yShorter == Choice(ys) && same == Choice(e)
    ensures lt' == Choice(l || (xs && !(l || g)))
    ensures gt' == Choice(g || (ys && !(l || g)))
    ensures eq == Choice(e && !(l || g))
  {
    var allEqual := done ^ 1;
    lt' := lt | (xShorter & allEqual);
    gt' := gt | (yShorter & allEqual);
    eq := same & allEqual;
  }

  const Word: nat := 0x1_0000_0000_0000_0000

  /** The integer square root by binary search over the bits of the result; squares are taken
      modulo 2^64. */
  method Isqrt64(n: nat) returns (result: nat)
    requires n < Word
    ensures result * result <= n < (result + 1) * (result + 1)
  {
    result := 0;
    var bit := 0x8000_0000;
    Pow2Of32();
    var k := 32;
    while k > 0
      invariant 0 <= k <= 32 && bit == Pow2(k) / 2
      invariant result + Pow2(k) <= 0x1_0000_0000
      invariant result * result <= n < (result + Pow2(k)) * (result + Pow2(k))
    {
      var temp := result + bit;
      assert Pow2(k) == 2 * Pow2(k - 1);
      SquareFits(temp);
      var square := temp * temp % Word;
      result := if square <= n then temp else result;
      bit := bit / 2;
      k := k - 1;
    }
  }

  function Pow2(k: nat): nat { if k == 0 then 1 else 2 * Pow2(k - 1) }

  lemma Pow2Of32()
    ensures Pow2(32) == 0x1_0000_0000
  {
    assert Pow2(8) == 0x100;
    assert Pow2(16) == 0x1_0000;
    assert Pow2(24) == 0x100_0000;
  }

  lemma SquareFits(t: nat)
    requires t < 0x1_0000_0000
    ensures t * t % Word == t * t
  {
    MulBelow(t, t, 0x1_0000_0000);
    ModSmall(t * t, Word);
  }

  lemma ModSmall(a: nat, m: nat)
    requires a < m
    ensures a % m == a
  {
  }

  lemma MulBelow(a: nat, b: nat, m: nat)
    requires a < m && b < m
    ensures a * b < m * m
  {
    assert a * b <= a * m;
    assert a * m <= (m - 1) * m;
  }
}
