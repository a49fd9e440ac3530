/** Transposing packed bit matrices: the 64 x 64 butterfly against the bit-by-bit loop
    (pkg/ot/bits.go). */
module BitTranspose {
  import NumberTheory
  import opened PackedBits

  // ----- transpose64

  /** Row r after stage s. */
  function StageRow(B: seq<bv64>, s: nat, r: nat): bv64
    requires |B| == 64 && s < 6 && r < 64
  {
    if Digit(r, Step(s)) then
      DigitsDown(s, r);
      High(s, B[r - Step(s)], B[r])
    else
      DigitUp(s, r);
      Low(s, B[r], B[r + Step(s)])
  }

  function StageOf(B: seq<bv64>, s: nat): (R: seq<bv64>)
    requires |B| == 64 && s < 6
    ensures |R| == 64
  {
    seq(64, r requires 0 <= r < 64 => StageRow(B, s, r))
  }

  lemma PairDigits(base: nat, i: nat, d: nat)
    requires d > 0 && base % (2 * d) == 0 && i < d
    ensures !Digit(base + i, d) && Digit(base + i + d, d)
  {
    var q := base / (2 * d);
    assert base == 2 * d * q;
    DigitAt(d, q, 0, i);
    DigitAt(d, q, 1, i);
    assert 2 * d * q + d * 0 + i == base + i;
    assert 2 * d * q + d * 1 + i == base + i + d;
  }

  /** Row r has been rewritten: it lies below base or in one of the first i pairs from base on. */
  predicate Done(r: nat, base: nat, step: nat, i: nat) {
    r < base + i || base + step <= r < base + step + i
  }

  /** The rows below base have been rewritten. */
  ghost predicate StagedBelow(rows: seq<bv64>, B: seq<bv64>, s: nat, base: nat)
    requires |rows| == |B| == 64 && s < 6
  {
    forall r :: 0 <= r < 64 ==> rows[r] == if r < base then StageRow(B, s, r) else B[r]
  }

  /** One stage, block by block, in place. */
  method Stage(block: array<bv64>, s: nat)
    requires block.Length == 64 && s < 6
    modifies block
    ensures block[..] == StageOf(old(block[..]), s)
  {
    ghost var B := block[..];
    var step := Step(s);
    assert 64 % (2 * step) == 0 by { hide *; }
    var base := 0;
    assert StagedBelow(block[..], B, s, 0);
    while base < 64
      invariant base <= 64 && base % (2 * step) == 0
      invariant StagedBelow(block[..], B, s, base)
    {
      hide StagedBelow;
      NextBase(base, step);
      StageBlock(block, s, base, B);
      base := base + 2 * step;
    }
    assert StagedBelow(block[..], B, s, 64);
  }

  lemma PairRows(B: seq<bv64>, s: nat, base: nat, i: nat)
    requires |B| == 64 && s < 6 && base + 2 * Step(s) <= 64 && base % (2 * Step(s)) == 0 && i < Step(s)
    ensures var step := Step(s);
      && StageRow(B, s, base + i) == Low(s, B[base + i], B[base + i + step])
      && StageRow(B, s, base + i + step) == High(s, B[base + i], B[base + i + step])
  {
    hide Digit, Low, High;
    PairDigits(base, i, Step(s));
  }

  /** One block of a stage, pair of rows by pair of rows. */
  method StageBlock(block: array<bv64>, s: nat, base: nat, ghost B: seq<bv64>)
    requires block.Length == |B| == 64 && s < 6 && base + 2 * Step(s) <= 64 && base % (2 * Step(s)) == 0
    requires StagedBelow(block[..], B, s, base)
    modifies block
    ensures StagedBelow(block[..], B, s, base + 2 * Step(s))
  {
    hide Digit, Low, High, StageRow, Step;
    var step := Step(s);
    for i := 0 to step
      invariant forall r :: 0 <= r < 64 ==> block[r] == if Done(r, base, step, i) then StageRow(B, s, r) else B[r]
    {
      PairRows(B, s, base, i);
      var a := block[base + i];
      var b := block[base + i + step];
      block[base + i] := Low(s, a, b);
      block[base + i + step] := High(s, a, b);
    }
  }

  lemma NextBase(base: nat, d: nat)
    requires 0 < d && base < 64 && base % (2 * d) == 0 && 64 % (2 * d) == 0
    ensures base + 2 * d <= 64 && (base + 2 * d) % (2 * d) == 0
  {
    var e := 2 * d;
    ExactQuotient(base, e);
    ExactQuotient(64, e);
    NextMultiple(base / e, 64 / e, e);
  }

  lemma NextMultiple(q: nat, n: nat, e: nat)
    requires e > 0 && q * e < n * e
    ensures q * e + e <= n * e && (q * e + e) % e == 0
  {
    if q >= n {
      NumberTheory.MulMono(n, q, e);
    }
    NumberTheory.MulMono(q + 1, n, e);
    assert (q + 1) * e == q * e + e;
    NumberTheory.MultipleMod(q + 1, e);
  }

  lemma ExactQuotient(x: nat, e: nat)
    requires e > 0 && x % e == 0
    ensures x == (x / e) * e
  {
  }

  /** Index r with its low s binary digits taken from j. */
  function Mix(r: nat, j: nat, s: nat): (k: nat)
    requires s <= 6
  {
    r - r % Step(s) + j % Step(s)
  }

  ghost predicate ExchangedAt(B0: seq<bv64>, B: seq<bv64>, s: nat, r: nat, j: nat)
    requires |B0| == |B| == 64 && s <= 6 && r < 64 && j < 64
  {
    Mix(r, j, s) < 64 && Bit(B[r], j) == Bit(B0[Mix(r, j, s)], Mix(j, r, s))
  }

  /** The low s binary digits of row and column indices have been exchanged. */
  ghost predicate Exchanged(B0: seq<bv64>, B: seq<bv64>, s: nat)
    requires |B0| == |B| == 64 && s <= 6
  {
    forall r, j :: 0 <= r < 64 && 0 <= j < 64 ==> ExchangedAt(B0, B, s, r, j)
  }

  lemma DoubleMod(x: nat, d: nat)
    requires d > 0
    ensures x % (2 * d) == x % d + (if Digit(x, d) then d else 0)
  {
    var q, r := x / d, x % d;
    var h, b := q / 2, q % 2;
    assert x == q * d + r && q == 2 * h + b;
    SplitProduct(h, b, d);
    assert b == 0 || b == 1;
    NumberTheory.DivModUnique(x, 2 * d, h, b * d + r);
  }

  lemma SplitProduct(h: int, b: int, d: int)
    ensures (2 * h + b) * d == h * (2 * d) + b * d
  {
  }

  lemma ShiftMod(x: nat, d: nat)
    requires d > 0
    ensures (x + d) % d == x % d
  {
    NumberTheory.DivModUnique(x + d, d, x / d + 1, x % d);
  }

  /** Exchanging one more digit. */
  lemma MixStep(r: nat, j: nat, s: nat)
    requires s < 6 && r < 64 && j < 64
    ensures Digit(r, Step(s)) == Digit(j, Step(s)) ==> Mix(r, j, s + 1) == Mix(r, j, s)
    ensures Digit(r, Step(s)) && !Digit(j, Step(s)) ==> r >= Step(s) && Mix(r, j, s + 1) == Mix(r - Step(s), j + Step(s), s)
    ensures !Digit(r, Step(s)) && Digit(j, Step(s)) ==> j >= Step(s) && Mix(r, j, s + 1) == Mix(r + Step(s), j - Step(s), s)
  {
    var d := Step(s);
    assert Step(s + 1) == 2 * d;
    hide Digit, Step;
    DoubleMod(r, d);
    DoubleMod(j, d);
    ShiftMod(r, d);
    ShiftMod(j, d);
    if Digit(r, d) {
      DigitsDown(s, r);
      ShiftMod(r - d, d);
    }
    if Digit(j, d) {
      DigitsDown(s, j);
      ShiftMod(j - d, d);
    }
  }

  lemma BitOfStage(B: seq<bv64>, s: nat, r: nat, j: nat)
    requires |B| == 64 && s < 6 && r < 64 && j < 64
    ensures Digit(r, Step(s)) == Digit(j, Step(s)) ==> Bit(StageRow(B, s, r), j) == Bit(B[r], j)
    ensures Digit(r, Step(s)) && !Digit(j, Step(s)) ==> r >= Step(s) && Bit(StageRow(B, s, r), j) == Bit(B[r - Step(s)], j + Step(s))
    ensures !Digit(r, Step(s)) && Digit(j, Step(s)) ==> j >= Step(s) && r + Step(s) < 64 && Bit(StageRow(B, s, r), j) == Bit(B[r + Step(s)], j - Step(s))
  {
    hide Digit, Low, High, Bit, Cleared, Step;
    var d := Step(s);
    if Digit(r, d) {
      DigitsDown(s, r);
    } else {
      DigitUp(s, r);
    }
    var a, b := if Digit(r, d) then B[r - d] else B[r], if Digit(r, d) then B[r] else B[r + d];
    if Digit(j, d) {
      DigitsDown(s, j);
      ButterflyPair(s, a, b, j - d, j);
    } else {
      DigitUp(s, j);
      DigitsDown(s, j + d);
      ButterflyPair(s, a, b, j, j + d);
    }
  }

  lemma ExchangeStep(B0: seq<bv64>, B: seq<bv64>, s: nat)
    requires |B0| == |B| == 64 && s < 6 && Exchanged(B0, B, s)
    ensures Exchanged(B0, StageOf(B, s), s + 1)
  {
    var R, next := StageOf(B, s), s + 1;
    forall r, j | 0 <= r < 64 && 0 <= j < 64 ensures ExchangedAt(B0, R, next, r, j) {
      ExchangeBit(B0, B, s, r, j);
    }
  }

  lemma ExchangeBit(B0: seq<bv64>, B: seq<bv64>, s: nat, r: nat, j: nat)
    requires |B0| == |B| == 64 && s < 6 && Exchanged(B0, B, s) && r < 64 && j < 64
    ensures ExchangedAt(B0, StageOf(B, s), s + 1, r, j)
  {
    hide Digit, Mix, StageRow, Bit, Step;
    var d := Step(s);
    MixStep(r, j, s);
    MixStep(j, r, s);
    BitOfStage(B, s, r, j);
    if Digit(r, d) == Digit(j, d) {
      assert ExchangedAt(B0, B, s, r, j);
    } else if Digit(r, d) {
      DigitUp(s, j);
      assert ExchangedAt(B0, B, s, r - d, j + d);
    } else {
      DigitUp(s, r);
      assert ExchangedAt(B0, B, s, r + d, j - d);
    }
  }

  /** out[i] bit j == in[j] bit i */
  ghost predicate Transposed(B0: seq<bv64>, B: seq<bv64>)
    requires |B0| == |B| == 64
  {
    forall r, j :: 0 <= r < 64 && 0 <= j < 64 ==> Bit(B[r], j) == Bit(B0[j], r)
  }

  lemma MixEnds(r: nat, j: nat)
    requires r < 64 && j < 64
    ensures Mix(r, j, 0) == r && Mix(r, j, 6) == j
  {
    NumberTheory.DivModUnique(r, 64, 0, r);
    NumberTheory.DivModUnique(j, 64, 0, j);
  }

  method Transpose64(block: array<bv64>)
    requires block.Length == 64
    modifies block
    ensures Transposed(old(block[..]), block[..])
  {
    hide Bit, Mix, StageOf;
    ghost var B0 := block[..];
    forall r, j | 0 <= r < 64 && 0 <= j < 64 ensures Mix(r, j, 0) == r && Mix(r, j, 6) == j {
      MixEnds(r, j);
    }
    assert Exchanged(B0, block[..], 0);
    for s := 0 to 6
      invariant Exchanged(B0, block[..], s)
    {
      ExchangeStep(B0, block[..], s);
      Stage(block, s);
    }
    forall r, j | 0 <= r < 64 && 0 <= j < 64 ensures Bit(block[r], j) == Bit(B0[j], r) {
      assert ExchangedAt(B0, block[..], 6, r, j);
    }
  }

  // ----- byte matrices

  ghost predicate Rectangular(M: seq<seq<bv8>>, n: nat) {
    forall r :: 0 <= r < |M| ==> |M[r]| == n
  }

  predicate BitAt(M: seq<seq<bv8>>, r: nat, c: nat)
    requires r < |M| && c / 8 < |M[r]|
  {
    Bit8(M[r][c / 8], c % 8)
  }

  /** T has the rows of M as its columns. */
  ghost predicate IsTranspose(M: seq<seq<bv8>>, T: seq<seq<bv8>>, n: nat) {
    && Rectangular(M, n) && |M| % 8 == 0 && |T| == 8 * n && Rectangular(T, |M| / 8)
    && forall r, c :: 0 <= r < |M| && 0 <= c < 8 * n ==> BitAt(T, c, r) == BitAt(M, r, c)
  }

  lemma BitOfByte(M: seq<seq<bv8>>, r: nat, k: nat, i: nat)
    requires r < |M| && k < |M[r]| && i < 8
    ensures (8 * k + i) / 8 == k && BitAt(M, r, 8 * k + i) == Bit8(M[r][k], i)
  {
  }

  /** A matrix has one transpose. */
  lemma TransposeUnique(M: seq<seq<bv8>>, T: seq<seq<bv8>>, U: seq<seq<bv8>>, n: nat)
    requires IsTranspose(M, T, n) && IsTranspose(M, U, n)
    ensures T == U
  {
    hide Bit8;
    forall c | 0 <= c < 8 * n ensures T[c] == U[c] {
      forall k | 0 <= k < |M| / 8 ensures T[c][k] == U[c][k] {
        forall i | 0 <= i < 8 ensures Bit8(T[c][k], i) == Bit8(U[c][k], i) {
          BitOfByte(T, c, k, i);
          BitOfByte(U, c, k, i);
          assert BitAt(T, c, 8 * k + i) == BitAt(M, 8 * k + i, c);
        }
        ByteExtensional(T[c][k], U[c][k]);
      }
    }
  }

  /** Transposing is symmetric: M is the transpose of its transpose. */
  lemma TransposeSymmetric(M: seq<seq<bv8>>, T: seq<seq<bv8>>, n: nat)
    requires IsTranspose(M, T, n)
    ensures IsTranspose(T, M, |M| / 8)
  {
  }

  datatype Result<+T> = Ok(value: T) | Err

  // ----- the bit-by-bit loop

  /** What the loop has written before it reaches bit (row, col): the bits of earlier rows, the
      bits of this row up to col, and zeros elsewhere. */
  ghost predicate Written(M: seq<seq<bv8>>, T: seq<seq<bv8>>, n: nat, row: nat, col: nat) {
    && Rectangular(M, n) && |M| % 8 == 0 && |T| == 8 * n && Rectangular(T, |M| / 8)
    && forall r, c :: 0 <= r < |M| && 0 <= c < 8 * n ==>
         BitAt(T, c, r) == ((r < row || (r == row && c < col)) && BitAt(M, r, c))
  }

  lemma WriteBit(M: seq<seq<bv8>>, T: seq<seq<bv8>>, n: nat, row: nat, col: nat)
    requires Written(M, T, n, row, col) && row < |M| && col < 8 * n
    ensures Written(M, T[col := T[col][row / 8 := OrBit8(T[col][row / 8], row % 8, BitAt(M, row, col))]], n, row, col + 1)
  {
    hide Bit8, OrBit8;
    var b := BitAt(M, row, col);
    var x := T[col][row / 8];
    var y := OrBit8(x, row % 8, b);
    var U := T[col := T[col][row / 8 := y]];
    forall r, c | 0 <= r < |M| && 0 <= c < 8 * n
      ensures BitAt(U, c, r) == ((r < row || (r == row && c < col + 1)) && BitAt(M, r, c))
    {
      assert BitAt(T, c, r) == ((r < row || (r == row && c < col)) && BitAt(M, r, c));
      if c == col && r / 8 == row / 8 {
        OrBitBits(x, row % 8, b, r % 8);
        assert r % 8 == row % 8 <==> r == row;
      }
    }
  }

  lemma ZeroByte(i: nat)
    ensures !Bit8(0, i)
  {
    hide Index;
  }

  method TransposeSlow(M: seq<seq<bv8>>) returns (res: Result<seq<seq<bv8>>>)
    ensures res.Err? <==> |M| == 0 || |M| % 8 != 0 || !Rectangular(M, |M[0]|)
    ensures res.Ok? ==> IsTranspose(M, res.value, |M[0]|)
  {
    hide Bit8, OrBit8;
    if |M| % 8 != 0 || |M| == 0 {
      return Err;
    }
    var rectangular := IsRectangular(M);
    if !rectangular {
      return Err;
    }
    var n := |M[0]|;
    var T := seq(8 * n, _ => seq(|M| / 8, _ => 0 as bv8));
    forall r, c | 0 <= r < |M| && 0 <= c < 8 * n ensures !BitAt(T, c, r) {
      ZeroByte(r % 8);
    }
    for row := 0 to |M|
      invariant Written(M, T, n, row, 0)
    {
      for col := 0 to 8 * n
        invariant Written(M, T, n, row, col)
      {
        var bit := BitAt(M, row, col);
        WriteBit(M, T, n, row, col);
        T := T[col := T[col][row / 8 := OrBit8(T[col][row / 8], row % 8, bit)]];
      }
    }
    return Ok(T);
  }

  // ----- the block transpose

  /** Byte k of output row c holds the right eight bits. */
  ghost predicate ByteDone(M: seq<seq<bv8>>, n: nat, c: nat, k: nat, x: bv8)
    requires Rectangular(M, n) && c < 8 * n && 8 * k + 8 <= |M|
  {
    forall i :: 0 <= i < 8 ==> Bit8(x, i) == BitAt(M, 8 * k + i, c)
  }

  ghost predicate Shaped(M: seq<seq<bv8>>, T: seq<seq<bv8>>, n: nat) {
    Rectangular(M, n) && |M| % 64 == 0 && n % 8 == 0 && |T| == 8 * n && Rectangular(T, |M| / 8)
  }

  /** Every block before (rb, cb) has been written. */
  ghost predicate BlocksDone(M: seq<seq<bv8>>, T: seq<seq<bv8>>, n: nat, rb: nat, cb: nat) {
    && Shaped(M, T, n)
    && forall c, k :: 0 <= c < 8 * n && 0 <= k < |M| / 8 && (8 * k < rb || (8 * k < rb + 64 && c < cb)) ==>
         ByteDone(M, n, c, k, T[c][k])
  }

  /** The eight bytes of x, lowest first, put into a row at offset k. */
  function PutUint64(row: seq<bv8>, k: nat, x: bv64): (r: seq<bv8>)
    requires k + 8 <= |row|
    ensures |r| == |row|
    ensures forall j :: 0 <= j < |row| ==> r[j] == if k <= j < k + 8 then Byte(x, j - k) else row[j]
  {
    row[..k] + seq(8, j requires 0 <= j < 8 => Byte(x, j)) + row[k + 8..]
  }

  lemma LoadedBit(M: seq<seq<bv8>>, n: nat, r: nat, cb: nat, j: nat)
    requires Rectangular(M, n) && r < |M| && cb % 8 == 0 && cb + 64 <= 8 * n && j < 64
    ensures Bit(Uint64(M[r][cb / 8..cb / 8 + 8]), j) == BitAt(M, r, cb + j)
  {
    hide Bit, Bit8, Uint64;
    var b := M[r][cb / 8..cb / 8 + 8];
    WordBit(b, j);
    assert (cb + j) / 8 == cb / 8 + j / 8 && (cb + j) % 8 == j % 8;
  }

  /** Loads, transposes and checks out one block: word i holds column cb + i of rows rb .. rb + 63. */
  method LoadBlock(M: seq<seq<bv8>>, n: nat, rb: nat, cb: nat) returns (words: seq<bv64>)
    requires Rectangular(M, n) && rb + 64 <= |M| && cb % 8 == 0 && cb + 64 <= 8 * n
    ensures |words| == 64
    ensures forall i, j :: 0 <= i < 64 && 0 <= j < 64 ==> Bit(words[i], j) == BitAt(M, rb + j, cb + i)
  {
    hide Bit, Bit8, Uint64;
    var block := new bv64[64];
    for i := 0 to 64
      invariant forall k :: 0 <= k < i ==> block[k] == Uint64(M[rb + k][cb / 8..cb / 8 + 8])
    {
      block[i] := Uint64(M[rb + i][cb / 8..cb / 8 + 8]);
    }
    ghost var B := block[..];
    Transpose64(block);
    words := block[..];
    forall i, j | 0 <= i < 64 && 0 <= j < 64 ensures Bit(words[i], j) == BitAt(M, rb + j, cb + i) {
      LoadedBit(M, n, rb + j, cb, i);
      assert Bit(words[i], j) == Bit(B[j], i);
    }
  }

  lemma StoredByte(M: seq<seq<bv8>>, n: nat, rb: nat, c: nat, x: bv64, k: nat)
    requires Rectangular(M, n) && rb % 8 == 0 && rb + 64 <= |M| && c < 8 * n && k < 8
    requires forall j :: 0 <= j < 64 ==> Bit(x, j) == BitAt(M, rb + j, c)
    ensures ByteDone(M, n, c, rb / 8 + k, Byte(x, k))
  {
    hide Bit, Bit8, Byte, BitAt;
    forall i | 0 <= i < 8 ensures Bit8(Byte(x, k), i) == BitAt(M, 8 * (rb / 8 + k) + i, c) {
      ByteBit(x, k, i);
      assert 8 * (rb / 8 + k) + i == rb + (8 * k + i);
    }
  }

  lemma StoreRow(M: seq<seq<bv8>>, T: seq<seq<bv8>>, n: nat, rb: nat, c: nat, x: bv64)
    requires BlocksDone(M, T, n, rb, c) && rb % 64 == 0 && rb + 64 <= |M| && c < 8 * n
    requires forall j :: 0 <= j < 64 ==> Bit(x, j) == BitAt(M, rb + j, c)
    ensures BlocksDone(M, T[c := PutUint64(T[c], rb / 8, x)], n, rb, c + 1)
  {
    hide Bit, Bit8, Byte, ByteDone, BitAt;
    var U := T[c := PutUint64(T[c], rb / 8, x)];
    forall d, k | 0 <= d < 8 * n && 0 <= k < |M| / 8 && (8 * k < rb || (8 * k < rb + 64 && d < c + 1))
      ensures ByteDone(M, n, d, k, U[d][k])
    {
      if d == c && 8 * k >= rb {
        StoredByte(M, n, rb, c, x, k - rb / 8);
      } else {
        assert ByteDone(M, n, d, k, T[d][k]);
      }
    }
  }

  method StoreBlock(M: seq<seq<bv8>>, T: seq<seq<bv8>>, n: nat, rb: nat, cb: nat, words: seq<bv64>) returns (U: seq<seq<bv8>>)
    requires BlocksDone(M, T, n, rb, cb) && rb % 64 == 0 && rb + 64 <= |M| && cb + 64 <= 8 * n && |words| == 64
    requires forall i, j :: 0 <= i < 64 && 0 <= j < 64 ==> Bit(words[i], j) == BitAt(M, rb + j, cb + i)
    ensures BlocksDone(M, U, n, rb, cb + 64)
  {
    hide Bit, Bit8, Byte, ByteDone, BitAt;
    U := T;
    for i := 0 to 64
      invariant BlocksDone(M, U, n, rb, cb + i)
    {
      StoreRow(M, U, n, rb, cb + i, words[i]);
      U := U[cb + i := PutUint64(U[cb + i], rb / 8, words[i])];
    }
  }

  lemma RowOfBlocksDone(M: seq<seq<bv8>>, T: seq<seq<bv8>>, n: nat, rb: nat)
    requires BlocksDone(M, T, n, rb, 8 * n) && rb % 64 == 0
    ensures BlocksDone(M, T, n, rb + 64, 0)
  {
    hide ByteDone;
  }

  lemma DoneBit(M: seq<seq<bv8>>, T: seq<seq<bv8>>, n: nat, r: nat, c: nat)
    requires BlocksDone(M, T, n, |M|, 0) && r < |M| && c < 8 * n
    ensures BitAt(T, c, r) == BitAt(M, r, c)
  {
    hide Bit8;
    var k, i := r / 8, r % 8;
    assert ByteDone(M, n, c, k, T[c][k]);
    assert Bit8(T[c][k], i) == BitAt(M, 8 * k + i, c);
  }

  lemma DoneIsShaped(M: seq<seq<bv8>>, T: seq<seq<bv8>>, n: nat)
    requires BlocksDone(M, T, n, |M|, 0)
    ensures Shaped(M, T, n)
  {
  }

  lemma ShapeOf(M: seq<seq<bv8>>, T: seq<seq<bv8>>, n: nat)
    requires Shaped(M, T, n)
    ensures |M| % 8 == 0
    ensures forall r :: 0 <= r < |M| ==> r / 8 < |M| / 8
    ensures forall c :: 0 <= c < 8 * n ==> c / 8 < n
  {
    NumberTheory.DivModUnique(|M|, 8, 8 * (|M| / 64), 0);
    forall r | 0 <= r < |M| ensures r / 8 < |M| / 8 {
      EighthBelow(r, |M| / 8);
    }
    forall c | 0 <= c < 8 * n ensures c / 8 < n {
      EighthBelow(c, n);
    }
  }

  lemma EighthBelow(x: nat, n: nat)
    requires x < 8 * n
    ensures x / 8 < n
  {
  }

  lemma AllBlocksDone(M: seq<seq<bv8>>, T: seq<seq<bv8>>, n: nat)
    requires BlocksDone(M, T, n, |M|, 0)
    ensures IsTranspose(M, T, n)
  {
    hide BitAt, ByteDone, BlocksDone;
    DoneIsShaped(M, T, n);
    ShapeOf(M, T, n);
    forall r, c | 0 <= r < |M| && 0 <= c < 8 * n ensures BitAt(T, c, r) == BitAt(M, r, c) {
      DoneBit(M, T, n, r, c);
    }
  }

  /** Whether all rows are as long as the first. */
  method IsRectangular(M: seq<seq<bv8>>) returns (ok: bool)
    requires |M| > 0
    ensures ok <==> Rectangular(M, |M[0]|)
  {
    for i := 0 to |M|
      invariant forall r :: 0 <= r < i ==> |M[r]| == |M[0]|
    {
      if |M[i]| != |M[0]| {
        return false;
      }
    }
    return true;
  }

  method TransposeFast(M: seq<seq<bv8>>) returns (res: Result<seq<seq<bv8>>>)
    requires forall r :: 0 <= r < |M| ==> |M[r]| % 8 == 0
    ensures res.Err? <==> |M| == 0 || |M| % 64 != 0 || |M[0]| == 0 || !Rectangular(M, |M[0]|)
    ensures res.Ok? ==> IsTranspose(M, res.value, |M[0]|)
  {
    hide IsTranspose, Rectangular;
    if |M| == 0 || |M| % 64 != 0 {
      return Err;
    }
    WholeBytes(|M|);
    if |M[0]| == 0 || |M| % 8 != 0 {
      return Err;
    }
    var rectangular := IsRectangular(M);
    if !rectangular {
      return Err;
    }
    var T := TransposeBlocks(M, |M[0]|);
    return Ok(T);
  }

  lemma NothingDone(M: seq<seq<bv8>>, T: seq<seq<bv8>>, n: nat)
    requires Shaped(M, T, n)
    ensures BlocksDone(M, T, n, 0, 0)
  {
  }

  lemma WholeBytes(n: nat)
    requires n % 64 == 0
    ensures n % 8 == 0
  {
    NumberTheory.DivModUnique(n, 8, 8 * (n / 64), 0);
  }

  lemma EightTimes(n: nat)
    requires n % 8 == 0
    ensures (8 * n) % 64 == 0
  {
    NumberTheory.DivModUnique(8 * n, 64, n / 8, 0);
  }

  lemma BlockStep(b: nat, n: nat)
    requires b < n && b % 64 == 0 && n % 64 == 0
    ensures b + 64 <= n && (b + 64) % 64 == 0
  {
    assert b == 64 * (b / 64) && n == 64 * (n / 64);
    NumberTheory.DivModUnique(b + 64, 64, b / 64 + 1, 0);
  }

  method TransposeBlocks(M: seq<seq<bv8>>, n: nat) returns (T: seq<seq<bv8>>)
    requires Rectangular(M, n) && |M| % 64 == 0 && n % 8 == 0
    ensures IsTranspose(M, T, n)
  {
    hide Bit, Bit8, Byte, ByteDone;
    T := seq(8 * n, _ => seq(|M| / 8, _ => 0 as bv8));
    NothingDone(M, T, n);
    hide BlocksDone, IsTranspose, Rectangular;
    var rb := 0;
    while rb < |M|
      invariant rb <= |M| && rb % 64 == 0 && BlocksDone(M, T, n, rb, 0)
    {
      BlockStep(rb, |M|);
      T := TransposeBlockRow(M, T, n, rb);
      rb := rb + 64;
    }
    AllBlocksDone(M, T, n);
  }

  /** The blocks of 64 rows, from row rb on. */
  method TransposeBlockRow(M: seq<seq<bv8>>, T0: seq<seq<bv8>>, n: nat, rb: nat) returns (T: seq<seq<bv8>>)
    requires Rectangular(M, n) && |M| % 64 == 0 && n % 8 == 0
    requires rb % 64 == 0 && rb + 64 <= |M| && BlocksDone(M, T0, n, rb, 0)
    ensures BlocksDone(M, T, n, rb + 64, 0)
  {
    hide BlocksDone, Rectangular, Bit, Bit8, Byte, ByteDone, BitAt;
    EightTimes(n);
    T := T0;
    var cb := 0;
    while cb < 8 * n
      invariant cb <= 8 * n && cb % 64 == 0 && BlocksDone(M, T, n, rb, cb)
    {
      BlockStep(cb, 8 * n);
      WholeBytes(cb);
      var words := LoadBlock(M, n, rb, cb);
      T := StoreBlock(M, T, n, rb, cb, words);
      cb := cb + 64;
    }
    RowOfBlocksDone(M, T, n, rb);
  }

  /** The dispatcher: whichever path it takes, the result is the transpose, and it fails just when
      the input is empty, ragged or not a multiple of eight rows, or has no columns while its row
      count is a multiple of 64. */
  method TransposePackedBits(M: seq<seq<bv8>>) returns (res: Result<seq<seq<bv8>>>)
    ensures res.Err? <==>
      |M| == 0 || |M| % 8 != 0 || !Rectangular(M, |M[0]|) || (|M| % 64 == 0 && |M[0]| == 0)
    ensures res.Ok? ==> IsTranspose(M, res.value, |M[0]|)
  {
    if |M| % 64 != 0 {
      res := TransposeSlow(M);
      return;
    }
    for i := 0 to |M|
      invariant forall r :: 0 <= r < i ==> |M[r]| % 8 == 0
    {
      if |M[i]| % 8 != 0 {
        assert !(Rectangular(M, |M[0]|) && |M[0]| == 0);
        res := TransposeSlow(M);
        return;
      }
    }
    res := TransposeFast(M);
  }

  /** Where both paths accept the input they return the same matrix. */
  method FastEqualsSlow(M: seq<seq<bv8>>) returns (same: bool)
    requires |M| > 0 && |M| % 64 == 0 && |M[0]| > 0 && |M[0]| % 8 == 0 && Rectangular(M, |M[0]|)
    ensures same
  {
    var a := TransposeFast(M);
    var b := TransposeSlow(M);
    TransposeUnique(M, a.value, b.value, |M[0]|);
    same := a == b;
  }

  /** Transposing twice gives the input back, for every matrix that has a column; without columns
      there is no second transpose. */
  method TransposeTwice(M: seq<seq<bv8>>) returns (res: Result<seq<seq<bv8>>>)
    ensures res == if |M| == 0 || |M| % 8 != 0 || |M[0]| == 0 || !Rectangular(M, |M[0]|) then Err else Ok(M)
  {
    res := TransposePackedBits(M);
    if res.Ok? {
      var T := res.value;
      TransposeShape(M, T, |M[0]|);
      res := TransposePackedBits(T);
      if res.Ok? {
        TransposeSymmetric(M, T, |M[0]|);
        TransposeUnique(T, res.value, M, |M| / 8);
      }
    }
  }

  lemma TransposeShape(M: seq<seq<bv8>>, T: seq<seq<bv8>>, n: nat)
    requires IsTranspose(M, T, n) && |M| > 0
    ensures |T| == 8 * n && |T| % 8 == 0 && Rectangular(T, |M| / 8) && |M| / 8 > 0
    ensures n > 0 ==> |T[0]| == |M| / 8
  {
  }

  /** The two paths disagree on every column-free input that both may get: the fast one refuses it,
      the slow one returns the empty matrix. */
  method ColumnFree(M: seq<seq<bv8>>) returns (fast: Result<seq<seq<bv8>>>, slow: Result<seq<seq<bv8>>>)
    requires |M| > 0 && |M| % 64 == 0 && forall r :: 0 <= r < |M| ==> M[r] == []
    ensures fast == Err && slow == Ok([])
  {
    WholeBytes(|M|);
    fast := TransposeFast(M);
    slow := TransposeSlow(M);
    assert Rectangular(M, |M[0]|);
    NoColumns(M, slow.value);
  }

  lemma NoColumns(M: seq<seq<bv8>>, T: seq<seq<bv8>>)
    requires IsTranspose(M, T, 0)
    ensures T == []
  {
  }
}
