/** Bits of machine words, indexed by naturals (pkg/ot/bits.go). */
module PackedBits {
  import NumberTheory

  /** The word with the given low six bits. */
  function Pack6(b5: bool, b4: bool, b3: bool, b2: bool, b1: bool, b0: bool): bv64 {
    (if b5 then 32 else 0) | (if b4 then 16 else 0) | (if b3 then 8 else 0)
    | (if b2 then 4 else 0) | (if b1 then 2 else 0) | (if b0 then 1 else 0)
  }

  /** The binary digit of weight d. */
  function Dig(j: nat, d: nat): (r: nat)
    requires d > 0
    ensures r <= 1
  {
    (j / d) % 2
  }

  predicate Digit(j: nat, d: nat)
    requires d > 0
  {
    Dig(j, d) == 1
  }

  /** A bit index as a word. */
  function Index(j: nat): bv64 {
    Pack6(Digit(j, 32), Digit(j, 16), Digit(j, 8), Digit(j, 4), Digit(j, 2), Digit(j, 1))
  }

  /** Bit j of a word, least significant first. */
  predicate Bit(x: bv64, j: nat) {
    Lsb(x, Index(j))
  }

  predicate Lsb(x: bv64, j: bv64) {
    j < 64 && (x >> j) & 1 == 1
  }

  predicate Bit8(x: bv8, k: nat) {
    Lsb8(x, Index(k))
  }

  predicate Lsb8(x: bv8, j: bv64) {
    Lsb(x as bv64, j)
  }

  /** 2^s */
  function Step(s: nat): (r: nat)
    requires s <= 6
    ensures 0 < r && (s < 6 ==> r <= 32)
  {
    if s == 0 then 1 else if s == 1 then 2 else if s == 2 then 4
    else if s == 3 then 8 else if s == 4 then 16 else if s == 5 then 32 else 64
  }

  // ----- binary digits

  lemma Halve(j: nat, d: nat)
    requires d == 1 || d == 2 || d == 4 || d == 8 || d == 16
    ensures j / d == 2 * (j / (2 * d)) + Dig(j, d)
  {
  }

  lemma Digits(j: nat)
    requires j < 64
    ensures j == 32 * Dig(j, 32) + 16 * Dig(j, 16) + 8 * Dig(j, 8) + 4 * Dig(j, 4) + 2 * Dig(j, 2) + Dig(j, 1)
  {
    Halve(j, 1);
    Halve(j, 2);
    Halve(j, 4);
    Halve(j, 8);
    Halve(j, 16);
    assert Dig(j, 32) == j / 32;
    hide Dig;
  }

  lemma DigitsUnique(b5: nat, b4: nat, b3: nat, b2: nat, b1: nat, b0: nat)
    requires b5 <= 1 && b4 <= 1 && b3 <= 1 && b2 <= 1 && b1 <= 1 && b0 <= 1
    ensures var j := 32 * b5 + 16 * b4 + 8 * b3 + 4 * b2 + 2 * b1 + b0;
      Dig(j, 32) == b5 && Dig(j, 16) == b4 && Dig(j, 8) == b3 && Dig(j, 4) == b2 && Dig(j, 2) == b1 && Dig(j, 1) == b0
  {
    hide Dig;
    DigitAt(32, 0, b5, 16 * b4 + 8 * b3 + 4 * b2 + 2 * b1 + b0);
    DigitAt(16, b5, b4, 8 * b3 + 4 * b2 + 2 * b1 + b0);
    DigitAt(8, 2 * b5 + b4, b3, 4 * b2 + 2 * b1 + b0);
    DigitAt(4, 4 * b5 + 2 * b4 + b3, b2, 2 * b1 + b0);
    DigitAt(2, 8 * b5 + 4 * b4 + 2 * b3 + b2, b1, b0);
    DigitAt(1, 16 * b5 + 8 * b4 + 4 * b3 + 2 * b2 + b1, b0, 0);
  }

  lemma DigitAt(d: nat, high: nat, b: nat, low: nat)
    requires d > 0 && b <= 1 && low < d
    ensures Dig(2 * d * high + d * b + low, d) == b
  {
    var q := 2 * high + b;
    assert 2 * d * high + d * b == q * d;
    NumberTheory.DivModUnique(q * d + low, d, q, low);
    NumberTheory.DivModUnique(q, 2, high, b);
  }

  /** The binary digits of i are those of j with digit s cleared, and j has that digit. */
  ghost predicate Cleared(s: nat, i: nat, j: nat) {
    && Digit(i, 32) == (Digit(j, 32) && s != 5)
    && Digit(i, 16) == (Digit(j, 16) && s != 4)
    && Digit(i, 8) == (Digit(j, 8) && s != 3)
    && Digit(i, 4) == (Digit(j, 4) && s != 2)
    && Digit(i, 2) == (Digit(j, 2) && s != 1)
    && Digit(i, 1) == (Digit(j, 1) && s != 0)
  }

  /** Subtracting 2^s from an index that has digit s changes no other digit. */
  lemma DigitsDown(s: nat, j: nat)
    requires s < 6 && j < 64 && Digit(j, Step(s))
    ensures j >= Step(s)
    ensures Cleared(s, j - Step(s), j)
  {
    hide Index, Dig;
    Digits(j);
    var b5, b4, b3, b2, b1, b0 := Dig(j, 32), Dig(j, 16), Dig(j, 8), Dig(j, 4), Dig(j, 2), Dig(j, 1);
    if s == 0 { DigitsUnique(b5, b4, b3, b2, b1, 0); }
    else if s == 1 { DigitsUnique(b5, b4, b3, b2, 0, b0); }
    else if s == 2 { DigitsUnique(b5, b4, b3, 0, b1, b0); }
    else if s == 3 { DigitsUnique(b5, b4, 0, b2, b1, b0); }
    else if s == 4 { DigitsUnique(b5, 0, b3, b2, b1, b0); }
    else { DigitsUnique(0, b4, b3, b2, b1, b0); }
  }

  lemma DigitUpBy(j: nat, d: nat, n: nat)
    requires d > 0 && 64 == 2 * d * n && j < 64 && !Digit(j, d)
    ensures j + d < 64 && Digit(j + d, d)
  {
    var q, r := j / d, j % d;
    assert j == q * d + r;
    var h := q / 2;
    assert q == 2 * h;
    assert h < n by {
      if h >= n { NumberTheory.MulMono(n, h, 2 * d); }
    }
    NumberTheory.MulMono(h + 1, n, 2 * d);
    NumberTheory.DivModUnique(j + d, d, q + 1, r);
    NumberTheory.DivModUnique(q + 1, 2, h, 1);
  }

  lemma DigitUp(s: nat, j: nat)
    requires s < 6 && j < 64 && !Digit(j, Step(s))
    ensures j + Step(s) < 64 && Digit(j + Step(s), Step(s))
  {
    if s == 0 { DigitUpBy(j, 1, 32); }
    else if s == 1 { DigitUpBy(j, 2, 16); }
    else if s == 2 { DigitUpBy(j, 4, 8); }
    else if s == 3 { DigitUpBy(j, 8, 4); }
    else if s == 4 { DigitUpBy(j, 16, 2); }
    else { DigitUpBy(j, 32, 1); }
  }

  // ----- one butterfly

  /** What one butterfly does to the bits i and j == i + 2^s of its two words. */
  ghost predicate Crossed(s: nat, a: bv64, b: bv64, i: bv64, j: bv64)
    requires s < 6
  {
    && Lsb(Low(s, a, b), i) == Lsb(a, i) && Lsb(Low(s, a, b), j) == Lsb(b, i)
    && Lsb(High(s, a, b), i) == Lsb(a, j) && Lsb(High(s, a, b), j) == Lsb(b, j)
  }

  function Mask(s: nat): bv64
    requires s < 6
  {
    if s == 0 then 0x5555555555555555 else if s == 1 then 0x3333333333333333
    else if s == 2 then 0x0f0f0f0f0f0f0f0f else if s == 3 then 0x00ff00ff00ff00ff
    else if s == 4 then 0x0000ffff0000ffff else 0x00000000ffffffff
  }

  function And(x: bv64, y: bv64): bv64 { x & y }

  function Or(x: bv64, y: bv64): bv64 { x | y }

  function Not(x: bv64): bv64 { !x }

  /** x << 2^s */
  function Shl(x: bv64, s: nat): bv64
    requires s < 6
  {
    if s == 0 then x << 1 else if s == 1 then x << 2 else if s == 2 then x << 4
    else if s == 3 then x << 8 else if s == 4 then x << 16 else x << 32
  }

  /** x >> 2^s */
  function Shr(x: bv64, s: nat): bv64
    requires s < 6
  {
    if s == 0 then x >> 1 else if s == 1 then x >> 2 else if s == 2 then x >> 4
    else if s == 3 then x >> 8 else if s == 4 then x >> 16 else x >> 32
  }

  function Low(s: nat, a: bv64, b: bv64): bv64
    requires s < 6
  {
    Or(And(a, Mask(s)), Shl(And(b, Mask(s)), s))
  }

  function High(s: nat, a: bv64, b: bv64): bv64
    requires s < 6
  {
    Or(And(Shr(a, s), Mask(s)), And(b, Not(Mask(s))))
  }

  // How the word operations act on single bits.

  lemma BitAnd(x: bv64, y: bv64, j: bv64)
    ensures Lsb(And(x, y), j) == (Lsb(x, j) && Lsb(y, j))
  {
    hide Lsb;
    AndBit(x, y, j);
  }

  lemma AndBit(x: bv64, y: bv64, j: bv64)
    ensures Lsb(x & y, j) == (Lsb(x, j) && Lsb(y, j))
  {
  }

  lemma BitOr(x: bv64, y: bv64, j: bv64)
    ensures Lsb(Or(x, y), j) == (Lsb(x, j) || Lsb(y, j))
  {
    hide Lsb;
    OrBit(x, y, j);
  }

  lemma OrBit(x: bv64, y: bv64, j: bv64)
    ensures Lsb(x | y, j) == (Lsb(x, j) || Lsb(y, j))
  {
  }

  lemma BitNot(x: bv64, j: bv64)
    ensures Small(j) ==> Lsb(Not(x), j) == !Lsb(x, j)
  {
  }

  lemma ShiftedBit1(x: bv64, j: bv64)
    ensures j < 64 ==> Lsb(x << 1, j) == (1 <= j && Lsb(x, j - 1))
  {
  }

  lemma ShiftedBit2(x: bv64, j: bv64)
    ensures j < 64 ==> Lsb(x << 2, j) == (2 <= j && Lsb(x, j - 2))
  {
  }

  lemma ShiftedBit4(x: bv64, j: bv64)
    ensures j < 64 ==> Lsb(x << 4, j) == (4 <= j && Lsb(x, j - 4))
  {
  }

  lemma ShiftedBit8(x: bv64, j: bv64)
    ensures j < 64 ==> Lsb(x << 8, j) == (8 <= j && Lsb(x, j - 8))
  {
  }

  lemma ShiftedBit16(x: bv64, j: bv64)
    ensures j < 64 ==> Lsb(x << 16, j) == (16 <= j && Lsb(x, j - 16))
  {
  }

  lemma ShiftedBit32(x: bv64, j: bv64)
    ensures j < 64 ==> Lsb(x << 32, j) == (32 <= j && Lsb(x, j - 32))
  {
  }

  lemma BitShl(x: bv64, s: nat, j: bv64)
    requires s < 6
    ensures Small(j) ==> Lsb(Shl(x, s), j) == (Above(s, j) && Lsb(x, Down(s, j)))
  {
    hide Lsb;
    if s == 0 { ShiftedBit1(x, j); }
    else if s == 1 { ShiftedBit2(x, j); }
    else if s == 2 { ShiftedBit4(x, j); }
    else if s == 3 { ShiftedBit8(x, j); }
    else if s == 4 { ShiftedBit16(x, j); }
    else { ShiftedBit32(x, j); }
  }

  lemma BitShr(x: bv64, s: nat, j: bv64)
    requires s < 6
    ensures Has(s, j) ==> Lsb(Shr(x, s), Down(s, j)) == Lsb(x, j)
  {
  }

  /** The stage masks keep the indices without digit s. */
  lemma MaskBits(s: nat, j: bv64)
    requires s < 6
    ensures Small(j) ==> (Lsb(Mask(s), j) <==> !Has(s, j))
  {
  }

  /** Digit s of a word index, and the index without it. */
  predicate Has(s: nat, j: bv64)
    requires s < 6
  {
    j < 64 && (if s == 0 then j & 1 != 0 else if s == 1 then j & 2 != 0 else if s == 2 then j & 4 != 0
    else if s == 3 then j & 8 != 0 else if s == 4 then j & 16 != 0 else j & 32 != 0)
  }

  function Down(s: nat, j: bv64): bv64
    requires s < 6
  {
    if s == 0 then j - 1 else if s == 1 then j - 2 else if s == 2 then j - 4
    else if s == 3 then j - 8 else if s == 4 then j - 16 else j - 32
  }

  ghost predicate Small(j: bv64) { j < 64 }

  ghost predicate Above(s: nat, j: bv64)
    requires s < 6
  {
    if s == 0 then 1 <= j else if s == 1 then 2 <= j else if s == 2 then 4 <= j
    else if s == 3 then 8 <= j else if s == 4 then 16 <= j else 32 <= j
  }

  lemma DownFacts(s: nat, j: bv64)
    requires s < 6 && Has(s, j)
    ensures Small(j) && Above(s, j) && Small(Down(s, j)) && !Has(s, Down(s, j))
    ensures Above(s, Down(s, j)) ==> Small(Down(s, Down(s, j))) && Has(s, Down(s, Down(s, j)))
  {
  }

  lemma ButterflyWord(s: nat, a: bv64, b: bv64, j: bv64)
    requires s < 6 && Has(s, j)
    ensures Crossed(s, a, b, Down(s, j), j)
  {
    hide Lsb, Mask, Has, Down, Small, Above, And, Or, Not, Shl, Shr;
    DownFacts(s, j);
    var m, i := Mask(s), Down(s, j);
    var h := Down(s, i);
    MaskBits(s, i);
    MaskBits(s, j);
    MaskBits(s, h);
    BitAnd(a, m, i);
    BitAnd(a, m, j);
    BitAnd(b, m, i);
    BitAnd(b, m, h);
    BitAnd(b, Not(m), i);
    BitAnd(b, Not(m), j);
    BitNot(m, i);
    BitNot(m, j);
    BitShl(And(b, m), s, i);
    BitShl(And(b, m), s, j);
    BitOr(And(a, m), Shl(And(b, m), s), i);
    BitOr(And(a, m), Shl(And(b, m), s), j);
    BitShr(a, s, j);
    BitAnd(Shr(a, s), m, i);
    BitAnd(Shr(a, s), m, j);
    BitOr(And(Shr(a, s), m), And(b, Not(m)), i);
    BitOr(And(Shr(a, s), m), And(b, Not(m)), j);
  }

  lemma ClearBit(s: nat, b5: bool, b4: bool, b3: bool, b2: bool, b1: bool, b0: bool,
                 c5: bool, c4: bool, c3: bool, c2: bool, c1: bool, c0: bool)
    requires s < 6
    ensures
      && c5 == (b5 && s != 5) && c4 == (b4 && s != 4) && c3 == (b3 && s != 3)
      && c2 == (b2 && s != 2) && c1 == (b1 && s != 1) && c0 == (b0 && s != 0)
      && (if s == 0 then b0 else if s == 1 then b1 else if s == 2 then b2 else if s == 3 then b3 else if s == 4 then b4 else b5)
      ==> var j := Pack6(b5, b4, b3, b2, b1, b0);
          Pack6(c5, c4, c3, c2, c1, c0) == Down(s, j) && Has(s, j)
  {
  }

  lemma ClearedIndex(s: nat, i: nat, j: nat)
    requires s < 6 && Cleared(s, i, j) && Digit(j, Step(s))
    ensures Index(i) == Down(s, Index(j)) && Has(s, Index(j))
  {
    hide Digit, Pack6, Down, Has;
    ClearBit(s, Digit(j, 32), Digit(j, 16), Digit(j, 8), Digit(j, 4), Digit(j, 2), Digit(j, 1),
      Digit(i, 32), Digit(i, 16), Digit(i, 8), Digit(i, 4), Digit(i, 2), Digit(i, 1));
  }

  /** What one butterfly does to the bits i and j == i + 2^s of its two words. */
  lemma ButterflyPair(s: nat, a: bv64, b: bv64, i: nat, j: nat)
    requires s < 6 && Cleared(s, i, j) && Digit(j, Step(s))
    ensures Bit(Low(s, a, b), i) == Bit(a, i) && Bit(Low(s, a, b), j) == Bit(b, i)
    ensures Bit(High(s, a, b), i) == Bit(a, j) && Bit(High(s, a, b), j) == Bit(b, j)
  {
    hide Digit, Index, Low, High, Lsb, Down, Has, Step, Cleared;
    ClearedIndex(s, i, j);
    ButterflyWord(s, a, b, Index(j));
  }

  // ----- bytes of a word, little endian

  /** Byte k of a word. */
  function Byte(x: bv64, k: nat): bv8
    requires k < 8
  {
    if k == 0 then (x & 0xff) as bv8
    else if k == 1 then ((x >> 8) & 0xff) as bv8
    else if k == 2 then ((x >> 16) & 0xff) as bv8
    else if k == 3 then ((x >> 24) & 0xff) as bv8
    else if k == 4 then ((x >> 32) & 0xff) as bv8
    else if k == 5 then ((x >> 40) & 0xff) as bv8
    else if k == 6 then ((x >> 48) & 0xff) as bv8
    else ((x >> 56) & 0xff) as bv8
  }

  function Assemble(b0: bv8, b1: bv8, b2: bv8, b3: bv8, b4: bv8, b5: bv8, b6: bv8, b7: bv8): bv64 {
    (b0 as bv64) | ((b1 as bv64) << 8) | ((b2 as bv64) << 16) | ((b3 as bv64) << 24)
    | ((b4 as bv64) << 32) | ((b5 as bv64) << 40) | ((b6 as bv64) << 48) | ((b7 as bv64) << 56)
  }

  /** The word with the given bytes. */
  function Uint64(b: seq<bv8>): bv64
    requires |b| == 8
  {
    Assemble(b[0], b[1], b[2], b[3], b[4], b[5], b[6], b[7])
  }

  predicate Below8(y: bv64) { y < 8 }

  /** The word index of bit y of byte k. */
  function Up(k: nat, y: bv64): bv64
    requires k < 8
  {
    if k == 0 then y else if k == 1 then 8 + y else if k == 2 then 16 + y else if k == 3 then 24 + y
    else if k == 4 then 32 + y else if k == 5 then 40 + y else if k == 6 then 48 + y else 56 + y
  }

  lemma ByteBit0(x: bv64, y: bv64)
    ensures Below8(y) ==> Lsb8((x & 0xff) as bv8, y) == Lsb(x, y)
  {
  }

  lemma ByteBit1(x: bv64, y: bv64)
    ensures Below8(y) ==> Lsb8(((x >> 8) & 0xff) as bv8, y) == Lsb(x, 8 + y)
  {
  }

  lemma ByteBit2(x: bv64, y: bv64)
    ensures Below8(y) ==> Lsb8(((x >> 16) & 0xff) as bv8, y) == Lsb(x, 16 + y)
  {
  }

  lemma ByteBit3(x: bv64, y: bv64)
    ensures Below8(y) ==> Lsb8(((x >> 24) & 0xff) as bv8, y) == Lsb(x, 24 + y)
  {
  }

  lemma ByteBit4(x: bv64, y: bv64)
    ensures Below8(y) ==> Lsb8(((x >> 32) & 0xff) as bv8, y) == Lsb(x, 32 + y)
  {
  }

  lemma ByteBit5(x: bv64, y: bv64)
    ensures Below8(y) ==> Lsb8(((x >> 40) & 0xff) as bv8, y) == Lsb(x, 40 + y)
  {
  }

  lemma ByteBit6(x: bv64, y: bv64)
    ensures Below8(y) ==> Lsb8(((x >> 48) & 0xff) as bv8, y) == Lsb(x, 48 + y)
  {
  }

  lemma ByteBit7(x: bv64, y: bv64)
    ensures Below8(y) ==> Lsb8(((x >> 56) & 0xff) as bv8, y) == Lsb(x, 56 + y)
  {
  }

  lemma ByteBitWord(x: bv64, k: nat, y: bv64)
    requires k < 8 && Below8(y)
    ensures Lsb8(Byte(x, k), y) == Lsb(x, Up(k, y))
  {
    hide Lsb, Lsb8, Below8;
    if k == 0 { ByteBit0(x, y); }
    else if k == 1 { ByteBit1(x, y); }
    else if k == 2 { ByteBit2(x, y); }
    else if k == 3 { ByteBit3(x, y); }
    else if k == 4 { ByteBit4(x, y); }
    else if k == 5 { ByteBit5(x, y); }
    else if k == 6 { ByteBit6(x, y); }
    else { ByteBit7(x, y); }
  }

  lemma PackSplit(k: nat, b5: bool, b4: bool, b3: bool, b2: bool, b1: bool, b0: bool)
    requires k < 8
    ensures k == (if b5 then 4 else 0) + (if b4 then 2 else 0) + (if b3 then 1 else 0) ==>
      Pack6(b5, b4, b3, b2, b1, b0) == Up(k, Pack6(false, false, false, b2, b1, b0))
    ensures Below8(Pack6(false, false, false, b2, b1, b0))
  {
    hide Pack6, Up;
    PackLow(b2, b1, b0);
    if b5 {
      if b4 {
        if b3 { PackUp7(b2, b1, b0); } else { PackUp6(b2, b1, b0); }
      } else {
        if b3 { PackUp5(b2, b1, b0); } else { PackUp4(b2, b1, b0); }
      }
    } else {
      if b4 {
        if b3 { PackUp3(b2, b1, b0); } else { PackUp2(b2, b1, b0); }
      } else {
        if b3 { PackUp1(b2, b1, b0); } else { PackUp0(b2, b1, b0); }
      }
    }
  }

  lemma PackLow(b2: bool, b1: bool, b0: bool)
    ensures Below8(Pack6(false, false, false, b2, b1, b0))
  {
  }

  lemma PackUp0(b2: bool, b1: bool, b0: bool)
    ensures Pack6(false, false, false, b2, b1, b0) == Up(0, Pack6(false, false, false, b2, b1, b0))
  {
  }

  lemma PackUp1(b2: bool, b1: bool, b0: bool)
    ensures Pack6(false, false, true, b2, b1, b0) == Up(1, Pack6(false, false, false, b2, b1, b0))
  {
  }

  lemma PackUp2(b2: bool, b1: bool, b0: bool)
    ensures Pack6(false, true, false, b2, b1, b0) == Up(2, Pack6(false, false, false, b2, b1, b0))
  {
  }

  lemma PackUp3(b2: bool, b1: bool, b0: bool)
    ensures Pack6(false, true, true, b2, b1, b0) == Up(3, Pack6(false, false, false, b2, b1, b0))
  {
  }

  lemma PackUp4(b2: bool, b1: bool, b0: bool)
    ensures Pack6(true, false, false, b2, b1, b0) == Up(4, Pack6(false, false, false, b2, b1, b0))
  {
  }

  lemma PackUp5(b2: bool, b1: bool, b0: bool)
    ensures Pack6(true, false, true, b2, b1, b0) == Up(5, Pack6(false, false, false, b2, b1, b0))
  {
  }

  lemma PackUp6(b2: bool, b1: bool, b0: bool)
    ensures Pack6(true, true, false, b2, b1, b0) == Up(6, Pack6(false, false, false, b2, b1, b0))
  {
  }

  lemma PackUp7(b2: bool, b1: bool, b0: bool)
    ensures Pack6(true, true, true, b2, b1, b0) == Up(7, Pack6(false, false, false, b2, b1, b0))
  {
  }

  /** The binary digits of 8 * k + i. */
  lemma ByteDigits(k: nat, i: nat)
    requires k < 8 && i < 8
    ensures k == (if Digit(k, 4) then 4 else 0) + (if Digit(k, 2) then 2 else 0) + (if Digit(k, 1) then 1 else 0)
    ensures !Digit(i, 32) && !Digit(i, 16) && !Digit(i, 8)
    ensures Digit(8 * k + i, 32) == Digit(k, 4) && Digit(8 * k + i, 16) == Digit(k, 2) && Digit(8 * k + i, 8) == Digit(k, 1)
    ensures Digit(8 * k + i, 4) == Digit(i, 4) && Digit(8 * k + i, 2) == Digit(i, 2) && Digit(8 * k + i, 1) == Digit(i, 1)
  {
    hide Dig;
    Digits(k);
    Digits(i);
    DigitsUnique(Dig(k, 4), Dig(k, 2), Dig(k, 1), Dig(i, 4), Dig(i, 2), Dig(i, 1));
  }

  lemma ByteIndex(k: nat, i: nat)
    requires k < 8 && i < 8
    ensures Index(8 * k + i) == Up(k, Index(i)) && Below8(Index(i))
  {
    hide Digit, Pack6, Up, Below8;
    ByteDigits(k, i);
    PackSplit(k, Digit(k, 4), Digit(k, 2), Digit(k, 1), Digit(i, 4), Digit(i, 2), Digit(i, 1));
  }

  /** Bit i of byte k is bit 8 * k + i of the word. */
  lemma ByteBit(x: bv64, k: nat, i: nat)
    requires k < 8 && i < 8
    ensures Bit8(Byte(x, k), i) == Bit(x, 8 * k + i)
  {
    hide Lsb, Lsb8, Index, Byte, Up, Below8;
    ByteIndex(k, i);
    ByteBitWord(x, k, Index(i));
  }

  lemma BytesOf(b0: bv8, b1: bv8, b2: bv8, b3: bv8, b4: bv8, b5: bv8, b6: bv8, b7: bv8)
    ensures var x := Assemble(b0, b1, b2, b3, b4, b5, b6, b7);
      && Byte(x, 0) == b0 && Byte(x, 1) == b1 && Byte(x, 2) == b2 && Byte(x, 3) == b3
      && Byte(x, 4) == b4 && Byte(x, 5) == b5 && Byte(x, 6) == b6 && Byte(x, 7) == b7
  {
  }

  lemma BytesOfWord(b: seq<bv8>, k: nat)
    requires |b| == 8 && k < 8
    ensures Byte(Uint64(b), k) == b[k]
  {
    hide Byte, Assemble;
    BytesOf(b[0], b[1], b[2], b[3], b[4], b[5], b[6], b[7]);
  }

  /** Bit j of a little-endian word is bit j % 8 of its byte j / 8. */
  lemma WordBit(b: seq<bv8>, j: nat)
    requires |b| == 8 && j < 64
    ensures Bit(Uint64(b), j) == Bit8(b[j / 8], j % 8)
  {
    hide Uint64, Byte, Bit, Bit8;
    BytesOfWord(b, j / 8);
    ByteBit(Uint64(b), j / 8, j % 8);
    assert 8 * (j / 8) + j % 8 == j;
  }

  // ----- single bytes

  lemma IndexOf(b2: nat, b1: nat, b0: nat)
    requires b2 <= 1 && b1 <= 1 && b0 <= 1
    ensures Index(4 * b2 + 2 * b1 + b0) == Pack6(false, false, false, b2 == 1, b1 == 1, b0 == 1)
  {
    hide Dig, Pack6;
    DigitsUnique(0, 0, 0, b2, b1, b0);
  }

  lemma Packs()
    ensures Pack6(false, false, false, false, false, false) == 0 && Pack6(false, false, false, false, false, true) == 1
    ensures Pack6(false, false, false, false, true, false) == 2 && Pack6(false, false, false, false, true, true) == 3
    ensures Pack6(false, false, false, true, false, false) == 4 && Pack6(false, false, false, true, false, true) == 5
    ensures Pack6(false, false, false, true, true, false) == 6 && Pack6(false, false, false, true, true, true) == 7
  {
  }

  lemma SmallIndices()
    ensures Index(0) == 0 && Index(1) == 1 && Index(2) == 2 && Index(3) == 3
    ensures Index(4) == 4 && Index(5) == 5 && Index(6) == 6 && Index(7) == 7
  {
    hide Index, Pack6;
    Packs();
    IndexOf(0, 0, 0);
    IndexOf(0, 0, 1);
    IndexOf(0, 1, 0);
    IndexOf(0, 1, 1);
    IndexOf(1, 0, 0);
    IndexOf(1, 0, 1);
    IndexOf(1, 1, 0);
    IndexOf(1, 1, 1);
  }

  lemma SameBits(x: bv8, y: bv8)
    requires Lsb8(x, 0) == Lsb8(y, 0) && Lsb8(x, 1) == Lsb8(y, 1) && Lsb8(x, 2) == Lsb8(y, 2) && Lsb8(x, 3) == Lsb8(y, 3)
    requires Lsb8(x, 4) == Lsb8(y, 4) && Lsb8(x, 5) == Lsb8(y, 5) && Lsb8(x, 6) == Lsb8(y, 6) && Lsb8(x, 7) == Lsb8(y, 7)
    ensures x == y
  {
  }

  /** A byte is determined by its bits. */
  lemma ByteExtensional(x: bv8, y: bv8)
    requires forall i :: 0 <= i < 8 ==> Bit8(x, i) == Bit8(y, i)
    ensures x == y
  {
    hide Lsb8, Index;
    SmallIndices();
    assert Bit8(x, 0) == Bit8(y, 0) && Bit8(x, 1) == Bit8(y, 1) && Bit8(x, 2) == Bit8(y, 2) && Bit8(x, 3) == Bit8(y, 3);
    assert Bit8(x, 4) == Bit8(y, 4) && Bit8(x, 5) == Bit8(y, 5) && Bit8(x, 6) == Bit8(y, 6) && Bit8(x, 7) == Bit8(y, 7);
    SameBits(x, y);
  }

  /** x with bit k or-ed in. */
  function OrBit8(x: bv8, k: nat, b: bool): bv8
    requires k < 8
  {
    if !b then x
    else if k == 0 then x | 1 else if k == 1 then x | 2 else if k == 2 then x | 4 else if k == 3 then x | 8
    else if k == 4 then x | 16 else if k == 5 then x | 32 else if k == 6 then x | 64 else x | 128
  }

  lemma OrBitWord(x: bv8, k: nat, j: bv64)
    requires k < 8
    ensures Below8(j) ==> Lsb8(OrBit8(x, k, true), j) == (Lsb8(x, j) || j == Small8(k))
  {
  }

  lemma OrNothing(x: bv8, k: nat)
    requires k < 8
    ensures OrBit8(x, k, false) == x
  {
  }

  function Small8(k: nat): bv64
    requires k < 8
  {
    if k == 0 then 0 else if k == 1 then 1 else if k == 2 then 2 else if k == 3 then 3
    else if k == 4 then 4 else if k == 5 then 5 else if k == 6 then 6 else 7
  }

  lemma SmallIndex(k: nat)
    requires k < 8
    ensures Index(k) == Small8(k)
  {
    hide Index;
    SmallIndices();
  }

  lemma OrBitBits(x: bv8, k: nat, b: bool, i: nat)
    requires k < 8 && i < 8
    ensures Bit8(OrBit8(x, k, b), i) == (Bit8(x, i) || (b && i == k))
  {
    hide Lsb8, Index, Below8, OrBit8;
    SmallIndex(k);
    SmallIndex(i);
    ByteIndex(0, i);
    OrBitWord(x, k, Index(i));
    OrNothing(x, k);
  }
}
