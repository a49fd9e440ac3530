/** Base58 encoding and decoding (pkg/base/base58/base58.go). */
module Base58 {
  import opened Options
  import NumberTheory

  const Radix: nat := 58

  /** The alphabet is 1-9, A-H, J-N, P-Z, a-k, m-z. */
  function Letter(i: nat): char
    requires i < Radix
  {
    if i < 9 then '1' + i as char
    else if i < 17 then 'A' + (i - 9) as char
    else if i < 22 then 'J' + (i - 17) as char
    else if i < 33 then 'P' + (i - 22) as char
    else if i < 44 then 'a' + (i - 33) as char
    else 'm' + (i - 44) as char
  }

  ghost predicate IsLetter(c: char) {
    exists d :: 0 <= d < Radix && c == Letter(d)
  }

  // ----- Positional notation, most significant digit first

  type Digits = seq<nat>

  ghost predicate InBase(b: nat, ds: Digits) {
    forall i :: 0 <= i < |ds| ==> ds[i] < b
  }

  /** The number written by ds in base b. */
  function Value(b: nat, ds: Digits): nat {
    if |ds| == 0 then 0 else Value(b, ds[..|ds| - 1]) * b + ds[|ds| - 1]
  }

  /** The shortest way to write x in base b. */
  function Shortest(b: nat, x: nat): (r: Digits)
    requires b >= 2
    ensures InBase(b, r)
    ensures |r| > 0 ==> r[0] != 0
    ensures |r| == 0 <==> x == 0
    decreases x
  {
    if x == 0 then [] else DivSmaller(b, x); Shortest(b, x / b) + [x % b]
  }

  lemma DivSmaller(b: nat, x: nat)
    requires b >= 2 && x > 0
    ensures x / b < x
  {
  }

  function Zeros(n: nat): (r: Digits)
    ensures |r| == n
  {
    seq(n, i => 0)
  }

  function LeadingZeros(ds: Digits): (n: nat)
    ensures n <= |ds|
    ensures forall i :: 0 <= i < n ==> ds[i] == 0
    ensures n < |ds| ==> ds[n] != 0
  {
    if |ds| > 0 && ds[0] == 0 then 1 + LeadingZeros(ds[1..]) else 0
  }

  lemma ValueNext(b: nat, ds: Digits, d: nat)
    ensures Value(b, ds + [d]) == Value(b, ds) * b + d
  {
    assert (ds + [d])[..|ds|] == ds;
  }

  lemma {:induction false} ValuePositive(b: nat, ds: Digits)
    requires b > 0 && |ds| > 0 && ds[0] != 0
    ensures Value(b, ds) > 0
  {
    var init := ds[..|ds| - 1];
    if |init| > 0 {
      ValuePositive(b, init);
      assert Value(b, init) * b > 0;
    }
  }

  lemma ShortestNext(b: nat, q: nat, d: nat)
    requires b >= 2 && d < b && q * b + d > 0
    ensures Shortest(b, q * b + d) == Shortest(b, q) + [d]
  {
    DivModDigit(b, q, d);
  }

  lemma {:induction false} ValueOfShortest(b: nat, x: nat)
    requires b >= 2
    ensures Value(b, Shortest(b, x)) == x
    decreases x
  {
    if x > 0 {
      DivSmaller(b, x);
      ValueOfShortest(b, x / b);
      ValueNext(b, Shortest(b, x / b), x % b);
      DivMod(b, x);
    }
  }

  lemma DivModDigit(b: nat, q: nat, d: nat)
    requires d < b
    ensures (q * b + d) / b == q && (q * b + d) % b == d
  {
    NumberTheory.DivModUnique(q * b + d, b, q, d);
  }

  lemma DivMod(b: nat, x: nat)
    requires b > 0
    ensures x / b * b + x % b == x
  {
  }

  /** Writing the value of a number that does not start with zero gives it back. */
  lemma {:induction false} ShortestOfValue(b: nat, ds: Digits)
    requires b >= 2 && InBase(b, ds) && (|ds| > 0 ==> ds[0] != 0)
    ensures Shortest(b, Value(b, ds)) == ds
  {
    if |ds| > 0 {
      var init, last := ds[..|ds| - 1], ds[|ds| - 1];
      ShortestOfValue(b, init);
      ValuePositive(b, ds);
      ShortestNext(b, Value(b, init), last);
      assert ds == init + [last];
    }
  }

  lemma {:induction false} ValueOfPadded(b: nat, n: nat, ds: Digits)
    ensures Value(b, Zeros(n) + ds) == Value(b, ds)
  {
    if |ds| > 0 {
      ValueOfPadded(b, n, ds[..|ds| - 1]);
      assert (Zeros(n) + ds)[..n + |ds| - 1] == Zeros(n) + ds[..|ds| - 1];
    } else {
      assert Zeros(n) + ds == Zeros(n);
      ValueOfZeros(b, n);
    }
  }

  lemma {:induction false} ValueOfZeros(b: nat, n: nat)
    ensures Value(b, Zeros(n)) == 0
  {
    if n > 0 {
      assert Zeros(n)[..n - 1] == Zeros(n - 1);
      ValueOfZeros(b, n - 1);
    }
  }

  lemma {:induction false} LeadingZerosOfPadded(n: nat, ds: Digits)
    requires |ds| > 0 ==> ds[0] != 0
    ensures LeadingZeros(Zeros(n) + ds) == n
  {
    if n > 0 {
      assert (Zeros(n) + ds)[1..] == Zeros(n - 1) + ds;
      LeadingZerosOfPadded(n - 1, ds);
    } else {
      assert Zeros(0) + ds == ds;
    }
  }

  /** Changing the base, keeping one leading zero digit for each. */
  function Transcode(b: nat, c: nat, ds: Digits): (r: Digits)
    requires c >= 2
    ensures InBase(c, r)
  {
    Zeros(LeadingZeros(ds)) + Shortest(c, Value(b, ds))
  }

  /** Changing the base and back is the identity. */
  lemma TranscodeRoundTrip(b: nat, c: nat, ds: Digits)
    requires b >= 2 && c >= 2 && InBase(b, ds)
    ensures Transcode(c, b, Transcode(b, c, ds)) == ds
  {
    var z := LeadingZeros(ds);
    var rest := ds[z..];
    assert ds == Zeros(z) + rest;
    var x := Value(b, ds);
    ValueOfPadded(b, z, rest);
    ShortestOfValue(b, rest);
    LeadingZerosOfPadded(z, Shortest(c, x));
    ValueOfPadded(c, z, Shortest(c, x));
    ValueOfShortest(c, x);
  }

  // ----- The alphabet

  lemma LettersIncrease(i: nat, j: nat)
    requires i < j < Radix
    ensures Letter(i) < Letter(j)
  {
  }

  lemma LetterRange(i: nat)
    requires i < Radix
    ensures Letter(i) as int < 128 && (Letter(i) == '1' <==> i == 0)
  {
  }

  lemma LetterInjective(i: nat, j: nat)
    requires i < Radix && j < Radix && Letter(i) == Letter(j)
    ensures i == j
  {
    if i < j {
      LettersIncrease(i, j);
    } else if j < i {
      LettersIncrease(j, i);
    }
  }

  lemma LettersDigits(i: nat)
    requires 0 <= i < 9
    ensures Letter(i) == ("123456789ABCDEFGHJKLMNPQRSTUVWXYZ" + "abcdefghijkmnopqrstuvwxyz")[i]
  {
    assert i == 0 || i == 1 || i == 2 || i == 3 || i == 4 || i == 5 || i == 6 || i == 7 || i == 8;
  }

  lemma LettersUpToH(i: nat)
    requires 9 <= i < 17
    ensures Letter(i) == ("123456789ABCDEFGHJKLMNPQRSTUVWXYZ" + "abcdefghijkmnopqrstuvwxyz")[i]
  {
    assert i == 9 || i == 10 || i == 11 || i == 12 || i == 13 || i == 14 || i == 15 || i == 16;
  }

  lemma LettersUpToN(i: nat)
    requires 17 <= i < 22
    ensures Letter(i) == ("123456789ABCDEFGHJKLMNPQRSTUVWXYZ" + "abcdefghijkmnopqrstuvwxyz")[i]
  {
    assert i == 17 || i == 18 || i == 19 || i == 20 || i == 21;
  }

  lemma LettersUpToZ(i: nat)
    requires 22 <= i < 33
    ensures Letter(i) == ("123456789ABCDEFGHJKLMNPQRSTUVWXYZ" + "abcdefghijkmnopqrstuvwxyz")[i]
  {
    assert i == 22 || i == 23 || i == 24 || i == 25 || i == 26 || i == 27 || i == 28 || i == 29 || i == 30 || i == 31 || i == 32;
  }

  lemma LettersUpToSmallK(i: nat)
    requires 33 <= i < 44
    ensures Letter(i) == ("123456789ABCDEFGHJKLMNPQRSTUVWXYZ" + "abcdefghijkmnopqrstuvwxyz")[i]
  {
    assert i == 33 || i == 34 || i == 35 || i == 36 || i == 37 || i == 38 || i == 39 || i == 40 || i == 41 || i == 42 || i == 43;
  }

  lemma LettersUpToSmallZ(i: nat)
    requires 44 <= i < 58
    ensures Letter(i) == ("123456789ABCDEFGHJKLMNPQRSTUVWXYZ" + "abcdefghijkmnopqrstuvwxyz")[i]
  {
    assert i == 44 || i == 45 || i == 46 || i == 47 || i == 48 || i == 49 || i == 50 || i == 51 || i == 52 || i == 53 || i == 54 || i == 55 || i == 56 || i == 57;
  }

  /** The letters are those of the alphabet written out. */
  lemma LetterIsAlphabet(i: nat)
    requires i < 58
    ensures i < Radix && Letter(i) == ("123456789ABCDEFGHJKLMNPQRSTUVWXYZ" + "abcdefghijkmnopqrstuvwxyz")[i]
  {
    if i < 9 {
      LettersDigits(i);
    } else if i < 17 {
      LettersUpToH(i);
    } else if i < 22 {
      LettersUpToN(i);
    } else if i < 33 {
      LettersUpToZ(i);
    } else if i < 44 {
      LettersUpToSmallK(i);
    } else {
      LettersUpToSmallZ(i);
    }
  }

  lemma LettersOnly(c: char, alphabet: string)
    requires alphabet == ("123456789ABCDEFGHJKLMNPQRSTUVWXYZ" + "abcdefghijkmnopqrstuvwxyz")
    ensures IsLetter(c) <==> c in alphabet
  {
    assert |alphabet| == 58;
    forall d | 0 <= d < Radix ensures Letter(d) == alphabet[d] {
      LetterIsAlphabet(d);
    }
    hide Letter;
    if IsLetter(c) {
      var d :| 0 <= d < Radix && c == Letter(d);
      assert alphabet[d] in alphabet;
    }
    if c in alphabet {
      var d :| 0 <= d < |alphabet| && alphabet[d] == c;
      assert Letter(d) == c;
    }
  }

  ghost predicate InAlphabet(s: string) {
    forall i :: 0 <= i < |s| ==> IsLetter(s[i])
  }

  /** s spells the digits ds. */
  ghost predicate Spells(s: string, ds: Digits) {
    |s| == |ds| && forall i :: 0 <= i < |s| ==> ds[i] < Radix && s[i] == Letter(ds[i])
  }

  lemma SpellsUnique(s: string, ds: Digits, es: Digits)
    requires Spells(s, ds) && Spells(s, es)
    ensures ds == es
  {
    forall i | 0 <= i < |s| ensures ds[i] == es[i] {
      LetterInjective(ds[i], es[i]);
    }
  }

  // ----- The operations

  type Bytes = seq<nat>

  ghost predicate AreBytes(d: Bytes) { InBase(256, d) }

  /** The encoding of a byte string. */
  ghost predicate Encodes(d: Bytes, s: string) {
    Spells(s, Transcode(256, Radix, d))
  }

  /** The decoding table: digit values by character code, 0xFF for characters outside the alphabet. */
  ghost predicate IsTable(t: seq<nat>) {
    && |t| == 256
    && (forall i :: 0 <= i < Radix ==> Letter(i) as int < 256 && t[Letter(i) as int] == i)
    && (forall c :: 0 <= c < 256 && t[c] != 0xFF ==> t[c] < Radix && Letter(t[c]) as int == c)
  }

  method BuildTable() returns (t: array<nat>)
    ensures fresh(t) && IsTable(t[..])
  {
    t := new nat[256](i => 0xFF);
    for i := 0 to Radix
      invariant forall k :: 0 <= k < i ==> Letter(k) as int < 256 && t[Letter(k) as int] == k
      invariant forall c :: 0 <= c < 256 && t[c] != 0xFF ==> t[c] < i && Letter(t[c]) as int == c
    {
      LetterRange(i);
      forall k | 0 <= k < i ensures Letter(k) < Letter(i) {
        LettersIncrease(k, i);
      }
      t[Letter(i) as int] := i;
    }
  }

  method Encode(data: Bytes) returns (s: string)
    requires AreBytes(data)
    ensures Encodes(data, s)
  {
    if |data| == 0 {
      return "";
    }
    ghost var all := Shortest(Radix, Value(256, data));
    var answer := EncodeDigits(Value(256, data));
    var zeros := CountLeading(data);
    hide Spells, Shortest, Value, Letter, AreBytes, Reverse;
    assert Zeros(0) + all == all;
    for i := 0 to zeros
      invariant Spells(Reverse(answer), Zeros(i) + all)
    {
      OneMore(answer, i, all);
      answer := answer + ['1'];
    }
    s := Reverse(answer);
  }

  lemma OneMore(answer: string, i: nat, all: Digits)
    requires Spells(Reverse(answer), Zeros(i) + all)
    ensures Spells(Reverse(answer + ['1']), Zeros(i + 1) + all)
  {
    hide Spells;
    ReverseSnoc(answer, '1');
    SpellsCons('1', 0, Reverse(answer), Zeros(i) + all);
    assert Zeros(i + 1) + all == [0] + (Zeros(i) + all);
  }

  /** The digits of x, least significant first. */
  method EncodeDigits(x0: nat) returns (answer: string)
    ensures Spells(Reverse(answer), Shortest(Radix, x0))
  {
    hide Spells, Letter;
    var x := x0;
    answer := "";
    ghost var done: Digits := [];
    SpellsNothing();
    while x > 0
      invariant x >= 0 && Shortest(Radix, x0) == Shortest(Radix, x) + done
      invariant Spells(Reverse(answer), done)
    {
      ReverseSnoc(answer, Letter(x % Radix));
      SpellsCons(Letter(x % Radix), x % Radix, Reverse(answer), done);
      SplitDigit(x, done);
      done := [x % Radix] + done;
      answer := answer + [Letter(x % Radix)];
      x := x / Radix;
    }
    assert Shortest(Radix, 0) + done == done;
  }

  lemma SplitDigit(x: nat, done: Digits)
    requires x > 0
    ensures Shortest(Radix, x) + done == Shortest(Radix, x / Radix) + ([x % Radix] + done)
  {
    hide Shortest;
    ShortestStep(Radix, x);
    assert (Shortest(Radix, x / Radix) + [x % Radix]) + done == Shortest(Radix, x / Radix) + ([x % Radix] + done);
  }

  lemma ShortestStep(b: nat, x: nat)
    requires b >= 2 && x > 0
    ensures Shortest(b, x) == Shortest(b, x / b) + [x % b]
  {
  }

  lemma SpellsCons(c: char, d: nat, s: string, ds: Digits)
    requires Spells(s, ds) && d < Radix && c == Letter(d)
    ensures Spells([c] + s, [d] + ds)
  {
  }

  function Reverse(s: string): (r: string)
    ensures |r| == |s|
  {
    if |s| == 0 then "" else [s[|s| - 1]] + Reverse(s[..|s| - 1])
  }

  lemma ReverseSnoc(s: string, c: char)
    ensures Reverse(s + [c]) == [c] + Reverse(s)
  {
    assert (s + [c])[..|s|] == s;
  }

  method CountLeading(data: Bytes) returns (i: nat)
    ensures i == LeadingZeros(data)
  {
    i := 0;
    while i < |data| && data[i] == 0
      invariant i <= |data| && LeadingZeros(data) == i + LeadingZeros(data[i..])
    {
      assert data[i..][1..] == data[i + 1..];
      i := i + 1;
    }
    assert LeadingZeros(data[i..]) == 0;
  }

  method Decode(t: array<nat>, s: string) returns (r: Option<Bytes>)
    requires IsTable(t[..])
    ensures r.None? <==> !InAlphabet(s)
    ensures r.None? <==> exists i :: 0 <= i < |s| && s[i] !in ("123456789ABCDEFGHJKLMNPQRSTUVWXYZ" + "abcdefghijkmnopqrstuvwxyz")
    ensures r.Some? ==> exists ds :: Spells(s, ds) && r.value == Transcode(Radix, 256, ds)
    ensures r.Some? ==> AreBytes(r.value)
  {
    OutsideAlphabet(s);
    hide IsTable, Spells, InAlphabet;
    var answer, ds := DecodeValue(t, s);
    if answer.None? {
      return None;
    }
    var bytes := Shortest(256, answer.value);
    var zeros := CountOnes(s, ds);
    r := Some(Zeros(zeros) + bytes);
  }

  lemma OutsideAlphabet(s: string)
    ensures !InAlphabet(s) <==> exists i :: 0 <= i < |s| && s[i] !in ("123456789ABCDEFGHJKLMNPQRSTUVWXYZ" + "abcdefghijkmnopqrstuvwxyz")
  {
    forall i | 0 <= i < |s| ensures IsLetter(s[i]) <==> s[i] in ("123456789ABCDEFGHJKLMNPQRSTUVWXYZ" + "abcdefghijkmnopqrstuvwxyz") {
      LettersOnly(s[i], ("123456789ABCDEFGHJKLMNPQRSTUVWXYZ" + "abcdefghijkmnopqrstuvwxyz"));
    }
  }

  /** Accumulates the value from the last character to the first. */
  method DecodeValue(t: array<nat>, s: string) returns (r: Option<nat>, ghost ds: Digits)
    requires IsTable(t[..])
    ensures r.None? <==> !InAlphabet(s)
    ensures r.Some? ==> Spells(s, ds) && r.value == Value(Radix, ds)
  {
    hide IsTable, Spells, Value;
    var answer: nat, j: nat := 0, 1;
    ds := [];
    SpellsNothing();
    var i := |s|;
    assert s[i..] == "";
    while i > 0
      invariant 0 <= i <= |s| && |ds| == |s| - i && Spells(s[i..], ds)
      invariant j == Power(|s| - i) && answer == Value(Radix, ds)
    {
      i := i - 1;
      var c := s[i] as int;
      TableSize(t[..]);
      if c >= 256 || t[c] == 0xFF {
        NotInAlphabet(t[..], s, i);
        return None, ds;
      }
      assert s[i..] == [s[i]] + s[i + 1..];
      SpellsHead(t[..], s[i], s[i + 1..], ds);
      ValueOfHead(t[c], ds);
      ds := [t[c]] + ds;
      answer := answer + t[c] * j;
      j := j * Radix;
    }
    assert s[0..] == s;
    SpelledInAlphabet(s, ds);
    r := Some(answer);
  }

  lemma SpellsNothing()
    ensures Spells("", []) && Value(Radix, []) == 0
  {
  }

  lemma TableSize(t: seq<nat>)
    requires IsTable(t)
    ensures |t| == 256
  {
  }

  lemma SpellsHead(t: seq<nat>, c: char, s: string, ds: Digits)
    requires IsTable(t) && c as int < 256 && t[c as int] != 0xFF && Spells(s, ds)
    ensures Spells([c] + s, [t[c as int]] + ds)
  {
  }

  lemma SpelledInAlphabet(s: string, ds: Digits)
    requires Spells(s, ds)
    ensures InAlphabet(s)
  {
  }

  method CountOnes(s: string, ghost ds: Digits) returns (zeros: nat)
    requires Spells(s, ds)
    ensures zeros == LeadingZeros(ds)
  {
    zeros := 0;
    while zeros < |s| && s[zeros] == '1'
      invariant zeros <= |s| && forall k :: 0 <= k < zeros ==> ds[k] == 0
    {
      DigitZero(s, ds, zeros);
      zeros := zeros + 1;
    }
    if zeros < |s| {
      DigitZero(s, ds, zeros);
    }
    LeadingZerosUnique(ds, zeros);
  }

  lemma NotInAlphabet(t: seq<nat>, s: string, i: nat)
    requires IsTable(t) && i < |s| && (s[i] as int >= 256 || t[s[i] as int] == 0xFF)
    ensures !InAlphabet(s)
  {
    assert !IsLetter(s[i]);
  }

  lemma DigitZero(s: string, ds: Digits, i: nat)
    requires Spells(s, ds) && i < |s|
    ensures s[i] == '1' <==> ds[i] == 0
  {
    LetterRange(ds[i]);
  }

  lemma {:induction false} LeadingZerosUnique(ds: Digits, n: nat)
    requires n <= |ds| && (forall i :: 0 <= i < n ==> ds[i] == 0) && (n < |ds| ==> ds[n] != 0)
    ensures LeadingZeros(ds) == n
  {
  }

  ghost function Power(n: nat): nat {
    if n == 0 then 1 else Power(n - 1) * Radix
  }

  /** The leading digit counts with the power of its position. */
  lemma {:induction false} ValueOfHead(d: nat, ds: Digits)
    ensures Value(Radix, [d] + ds) == Value(Radix, ds) + d * Power(|ds|)
  {
    if |ds| > 0 {
      var init := ds[..|ds| - 1];
      assert ([d] + ds)[..|ds|] == [d] + init;
      ValueOfHead(d, init);
      Distribute(Value(Radix, init), d, Power(|init|), Radix);
    }
  }

  lemma Distribute(v: nat, d: nat, p: nat, r: nat)
    ensures (v + d * p) * r == v * r + d * (p * r)
  {
  }

  // ----- Known answers

  /** A single byte below 58 is the letter at its place in the alphabet. */
  method EncodeByte(d: nat) returns (s: string)
    requires d < 58
    ensures s == [("123456789ABCDEFGHJKLMNPQRSTUVWXYZ" + "abcdefghijkmnopqrstuvwxyz")[d]]
  {
    s := Encode([d]);
    LetterIsAlphabet(d);
    OneDigit(d);
    SpelledOne(s, d);
  }

  lemma OneDigit(d: nat)
    requires d < 58
    ensures Transcode(256, Radix, [d]) == [d]
  {
    assert [d][..0] == [];
    assert Value(256, [d]) == d;
    if d > 0 {
      assert d / Radix == 0 && d % Radix == d;
      assert Shortest(Radix, d) == Shortest(Radix, 0) + [d];
      assert Zeros(0) + [d] == [d];
    } else {
      assert Zeros(1) + Shortest(Radix, 0) == [0];
    }
  }

  lemma SpelledOne(s: string, d: nat)
    requires d < Radix && Spells(s, [d])
    ensures s == [Letter(d)]
  {
  }

  /** Both bases are written with the most significant digit first, and leading zeros are kept. */
  method EncodeExamples() returns (abc: string, minusOne: string, zeros: string)
    ensures abc == "ZiCa" && minusOne == "4SU" && zeros == "115R"
  {
    hide Spells, Transcode, Letter;
    SomeLetters();
    abc := Encode([97, 98, 99]);
    DigitsOfAbc();
    SpelledFour(abc, 32, 41, 11, 33);
    minusOne := Encode([45, 49]);
    DigitsOfMinusOne();
    SpelledThree(minusOne, 3, 25, 27);
    zeros := Encode([0, 0, 1, 0]);
    DigitsOfZeros();
    SpelledFour(zeros, 0, 0, 4, 24);
  }

  lemma SomeLetters()
    ensures Letter(32) == 'Z' && Letter(41) == 'i' && Letter(11) == 'C' && Letter(33) == 'a'
    ensures Letter(3) == '4' && Letter(25) == 'S' && Letter(27) == 'U'
    ensures Letter(0) == '1' && Letter(4) == '5' && Letter(24) == 'R'
  {
  }

  lemma DigitsOfAbc()
    ensures Transcode(256, Radix, [97, 98, 99]) == [32, 41, 11, 33]
  {
    hide Value, Shortest;
    ValueOfNone(256);
    ValueNext(256, [], 97);
    ValueNext(256, [97], 98);
    ValueNext(256, [97, 98], 99);
    assert [] + [97] == [97] && [97] + [98] == [97, 98] && [97, 98] + [99] == [97, 98, 99];
    ShortestOfNone(58);
    ShortestStep(58, 32);
    ShortestStep(58, 1897);
    ShortestStep(58, 110037);
    ShortestStep(58, 6382179);
  }

  lemma DigitsOfMinusOne()
    ensures Transcode(256, Radix, [45, 49]) == [3, 25, 27]
  {
    hide Value, Shortest;
    ValueOfNone(256);
    ValueNext(256, [], 45);
    ValueNext(256, [45], 49);
    assert [] + [45] == [45] && [45] + [49] == [45, 49];
    ShortestOfNone(58);
    ShortestStep(58, 3);
    ShortestStep(58, 199);
    ShortestStep(58, 11569);
  }

  lemma DigitsOfZeros()
    ensures Transcode(256, Radix, [0, 0, 1, 0]) == [0, 0, 4, 24]
  {
    hide Value, Shortest, LeadingZeros;
    assert Zeros(2) + [1, 0] == [0, 0, 1, 0] && Zeros(2) + [4, 24] == [0, 0, 4, 24];
    ValueOfPadded(256, 2, [1, 0]);
    LeadingZerosOfPadded(2, [1, 0]);
    Digits256();
  }

  lemma Digits256()
    ensures Value(256, [1, 0]) == 256 && Shortest(58, 256) == [4, 24]
  {
    hide Value, Shortest;
    ValueOfNone(256);
    ValueNext(256, [], 1);
    ValueNext(256, [1], 0);
    assert [] + [1] == [1] && [1] + [0] == [1, 0];
    ShortestOfNone(58);
    ShortestStep(58, 4);
    ShortestStep(58, 256);
  }

  lemma ValueOfNone(b: nat)
    ensures Value(b, []) == 0
  {
  }

  lemma ShortestOfNone(b: nat)
    requires b >= 2
    ensures Shortest(b, 0) == []
  {
  }

  lemma SpelledThree(s: string, a: nat, b: nat, c: nat)
    requires a < Radix && b < Radix && c < Radix && Spells(s, [a, b, c])
    ensures s == [Letter(a), Letter(b), Letter(c)]
  {
  }

  lemma SpelledFour(s: string, a: nat, b: nat, c: nat, d: nat)
    requires a < Radix && b < Radix && c < Radix && d < Radix && Spells(s, [a, b, c, d])
    ensures s == [Letter(a), Letter(b), Letter(c), Letter(d)]
  {
  }

  // ----- A bijection

  /** Decoding an encoding gives the bytes back. */
  method DecodeEncoded(t: array<nat>, data: Bytes) returns (r: Option<Bytes>)
    requires IsTable(t[..]) && AreBytes(data)
    ensures r == Some(data)
  {
    var s := Encode(data);
    ghost var ds := Transcode(256, Radix, data);
    SpelledInAlphabet(s, ds);
    r := Decode(t, s);
    ghost var es :| Spells(s, es) && r.value == Transcode(Radix, 256, es);
    SpellsUnique(s, ds, es);
    TranscodeRoundTrip(256, Radix, data);
  }

  /** Encoding a decoding gives the string back, for every string over the alphabet. */
  method EncodeDecoded(t: array<nat>, s: string) returns (r: string)
    requires IsTable(t[..]) && InAlphabet(s)
    ensures r == s
  {
    var d := Decode(t, s);
    ghost var ds :| Spells(s, ds) && d.value == Transcode(Radix, 256, ds);
    r := Encode(d.value);
    TranscodeRoundTrip(Radix, 256, ds);
    assert forall i :: 0 <= i < |s| ==> r[i] == s[i];
  }
}
