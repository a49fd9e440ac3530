/** The determinant by Laplace expansion, and how row operations act on it. */
module Determinants {
  import opened Fields
  import opened Vectors
  import opened RowOperations

  function Signed<S(!new)>(F: Field<S>, i: nat, x: S): S {
    if i % 2 == 0 then x else F.neg(x)
  }

  /** A without row i and column 0. */
  ghost function Minor<S>(A: Mat<S>, n: nat, i: nat): (r: Mat<S>)
    requires IsMat(A, n, n) && i < n
    ensures IsMat(r, n - 1, n - 1)
  {
    seq(n - 1, k requires 0 <= k < n - 1 => A[if k < i then k else k + 1][1..])
  }

  /** The determinant, expanded along the first column. */
  ghost function Det<S(!new)>(F: Field<S>, A: Mat<S>, n: nat): S
    requires IsMat(A, n, n)
    decreases n, n + 1
  {
    if n == 0 then F.one else Expand(F, A, n, 0)
  }

  /** The terms of the expansion from row i on. */
  ghost function Expand<S(!new)>(F: Field<S>, A: Mat<S>, n: nat, i: nat): S
    requires IsMat(A, n, n) && i <= n && n > 0
    decreases n, n - i
  {
    if i == n then F.zero else F.add(Term(F, A, n, i), Expand(F, A, n, i + 1))
  }

  ghost function Term<S(!new)>(F: Field<S>, A: Mat<S>, n: nat, i: nat): S
    requires IsMat(A, n, n) && i < n
    decreases n, 0
  {
    F.mul(Signed(F, i, A[i][0]), Det(F, Minor(A, n, i), n - 1))
  }

  lemma MinorOfUpdate<S>(A: Mat<S>, n: nat, r: nat, u: Vec<S>, i: nat)
    requires IsMat(A, n, n) && r < n && |u| == n && i < n
    ensures i == r ==> Minor(A[r := u], n, i) == Minor(A, n, i)
    ensures i > r ==> Minor(A[r := u], n, i) == Minor(A, n, i)[r := u[1..]]
    ensures i < r ==> Minor(A[r := u], n, i) == Minor(A, n, i)[r - 1 := u[1..]]
  {
  }

  lemma SignedLinear<S(!new)>(F: Field<S>, i: nat, x: S, c: S, y: S)
    requires F.Lawful()
    ensures Signed(F, i, F.add(x, F.mul(c, y))) == F.add(Signed(F, i, x), F.mul(c, Signed(F, i, y)))
  {
    F.NegAdd(x, F.mul(c, y));
    F.NegMul(c, y);
  }

  // ----- linearity in each row

  lemma {:induction false} RowLinear<S(!new)>(F: Field<S>, A: Mat<S>, n: nat, r: nat, u: Vec<S>, c: S, w: Vec<S>)
    requires F.Lawful() && IsMat(A, n, n) && r < n && |u| == |w| == n
    ensures Det(F, A[r := AddScaled(F, u, c, w)], n) == F.add(Det(F, A[r := u], n), F.mul(c, Det(F, A[r := w], n)))
    decreases n, n + 1
  {
    RowLinearFrom(F, A, n, r, u, c, w, 0);
  }

  lemma {:induction false} RowLinearFrom<S(!new)>(F: Field<S>, A: Mat<S>, n: nat, r: nat, u: Vec<S>, c: S, w: Vec<S>, i: nat)
    requires F.Lawful() && IsMat(A, n, n) && r < n && |u| == |w| == n && i <= n
    ensures Expand(F, A[r := AddScaled(F, u, c, w)], n, i)
         == F.add(Expand(F, A[r := u], n, i), F.mul(c, Expand(F, A[r := w], n, i)))
    decreases n, n - i
  {
    if i == n {
      F.MulZero(c);
      assert F.AddZero(F.zero);
    } else {
      var U, W := A[r := u], A[r := w];
      RowLinearTerm(F, A, n, r, u, c, w, i);
      RowLinearFrom(F, A, n, r, u, c, w, i + 1);
      F.AddSwap4(Term(F, U, n, i), F.mul(c, Term(F, W, n, i)), Expand(F, U, n, i + 1), F.mul(c, Expand(F, W, n, i + 1)));
      assert F.Distrib(c, Term(F, W, n, i), Expand(F, W, n, i + 1));
    }
  }

  lemma {:induction false} RowLinearTerm<S(!new)>(F: Field<S>, A: Mat<S>, n: nat, r: nat, u: Vec<S>, c: S, w: Vec<S>, i: nat)
    requires F.Lawful() && IsMat(A, n, n) && r < n && |u| == |w| == n && i < n
    ensures Term(F, A[r := AddScaled(F, u, c, w)], n, i)
         == F.add(Term(F, A[r := u], n, i), F.mul(c, Term(F, A[r := w], n, i)))
    decreases n, 0
  {
    var x := AddScaled(F, u, c, w);
    MinorOfUpdate(A, n, r, u, i);
    MinorOfUpdate(A, n, r, w, i);
    MinorOfUpdate(A, n, r, x, i);
    var B := Minor(A, n, i);
    if i == r {
      var D := Det(F, B, n - 1);
      SignedLinear(F, i, u[0], c, w[0]);
      F.DistribRight(Signed(F, i, u[0]), F.mul(c, Signed(F, i, w[0])), D);
      assert F.MulAssoc(c, Signed(F, i, w[0]), D);
    } else {
      var r' := if i > r then r else r - 1;
      var s := Signed(F, i, A[i][0]);
      assert x[1..] == AddScaled(F, u[1..], c, w[1..]);
      RowLinear(F, B, n - 1, r', u[1..], c, w[1..]);
      var D, E := Det(F, B[r' := u[1..]], n - 1), Det(F, B[r' := w[1..]], n - 1);
      assert F.Distrib(s, D, F.mul(c, E));
      assert F.MulAssoc(s, c, E) && F.MulComm(s, c) && F.MulAssoc(c, s, E);
    }
  }

  lemma ZeroRow<S(!new)>(F: Field<S>, A: Mat<S>, n: nat, r: nat)
    requires F.Lawful() && IsMat(A, n, n) && r < n
    ensures Det(F, A[r := Zeros(F, n)], n) == F.zero
  {
    var z := Zeros(F, n);
    F.MulZero(F.one);
    assert F.AddZero(F.zero);
    assert AddScaled(F, z, F.one, z) == z;
    RowLinear(F, A, n, r, z, F.one, z);
    var D := Det(F, A[r := z], n);
    F.OneMul(D);
    F.ZeroAdd(D);
    F.AddCancel(D, F.zero, D);
  }

  /** Scaling a row scales the determinant. */
  lemma RowScaled<S(!new)>(F: Field<S>, A: Mat<S>, n: nat, r: nat, c: S)
    requires F.Lawful() && IsMat(A, n, n) && r < n
    ensures Det(F, ScaleRow(F, A, r, c), n) == F.mul(c, Det(F, A, n))
  {
    var z := Zeros(F, n);
    forall j | 0 <= j < n ensures F.add(F.zero, F.mul(c, A[r][j])) == F.mul(c, A[r][j]) {
      F.ZeroAdd(F.mul(c, A[r][j]));
    }
    assert AddScaled(F, z, c, A[r]) == Scale(F, c, A[r]);
    RowLinear(F, A, n, r, z, c, A[r]);
    ZeroRow(F, A, n, r);
    assert A[r := A[r]] == A;
    F.ZeroAdd(F.mul(c, Det(F, A, n)));
  }

  // ----- equal rows

  lemma {:induction false} AdjacentEqual<S(!new)>(F: Field<S>, A: Mat<S>, n: nat, r: nat)
    requires F.Lawful() && IsMat(A, n, n) && r + 1 < n && A[r] == A[r + 1]
    ensures Det(F, A, n) == F.zero
    decreases n, n + 1
  {
    AdjacentEqualFrom(F, A, n, r, 0);
  }

  lemma {:induction false} AdjacentEqualFrom<S(!new)>(F: Field<S>, A: Mat<S>, n: nat, r: nat, i: nat)
    requires F.Lawful() && IsMat(A, n, n) && r + 1 < n && A[r] == A[r + 1] && i <= n && i != r + 1
    ensures Expand(F, A, n, i) == F.zero
    decreases n, n - i
  {
    assert F.AddZero(F.zero);
    if i == r {
      AdjacentEqualFrom(F, A, n, r, r + 2);
      TermsCancel(F, A, n, r);
      assert F.AddZero(Term(F, A, n, r + 1));
      assert Expand(F, A, n, r + 1) == F.add(Term(F, A, n, r + 1), Expand(F, A, n, r + 2));
    } else if i < n {
      AdjacentEqualFrom(F, A, n, r, i + 1);
      OtherTermsVanish(F, A, n, r, i);
    }
  }

  lemma TermsCancel<S(!new)>(F: Field<S>, A: Mat<S>, n: nat, r: nat)
    requires F.Lawful() && IsMat(A, n, n) && r + 1 < n && A[r] == A[r + 1]
    ensures F.add(Term(F, A, n, r), Term(F, A, n, r + 1)) == F.zero
  {
    var B, C := Minor(A, n, r), Minor(A, n, r + 1);
    forall k | 0 <= k < n - 1 ensures B[k] == C[k] {
      assert B[k] == A[if k < r then k else k + 1][1..];
      assert C[k] == A[if k < r + 1 then k else k + 1][1..];
    }
    assert B == C;
    var t := F.mul(A[r][0], Det(F, B, n - 1));
    F.NegMul(A[r][0], Det(F, B, n - 1));
    assert F.AddNeg(t) && F.AddComm(t, F.neg(t));
  }

  lemma {:induction false} OtherTermsVanish<S(!new)>(F: Field<S>, A: Mat<S>, n: nat, r: nat, i: nat)
    requires F.Lawful() && IsMat(A, n, n) && r + 1 < n && A[r] == A[r + 1] && i < n && i != r && i != r + 1
    ensures Term(F, A, n, i) == F.zero
    decreases n, 0
  {
    var B := Minor(A, n, i);
    var r' := if i < r then r - 1 else r;
    assert B[r'] == A[r][1..] && B[r' + 1] == A[r + 1][1..];
    AdjacentEqual(F, B, n - 1, r');
    F.MulZero(Signed(F, i, A[i][0]));
  }

  /** If equal rows at i and j make the determinant vanish, swapping those rows negates it. */
  lemma SwapFromEqual<S(!new)>(F: Field<S>, A: Mat<S>, n: nat, i: nat, j: nat)
    requires F.Lawful() && IsMat(A, n, n) && i < n && j < n && i != j
    requires forall u: Vec<S> :: |u| == n ==> Det(F, A[i := u][j := u], n) == F.zero
    ensures Det(F, SwapRows(A, i, j), n) == F.neg(Det(F, A, n))
  {
    var u, w := A[i], A[j];
    var s := AddScaled(F, u, F.one, w);
    var X, Y := Det(F, A[i := u][j := w], n), Det(F, A[i := w][j := u], n);
    var UU, WW := Det(F, A[i := u][j := u], n), Det(F, A[i := w][j := w], n);
    // D(s, s) == (D(u, u) + D(u, w)) + (D(w, u) + D(w, w))
    var Au, Aw, As := A[i := u], A[i := w], A[i := s];
    RowLinear(F, As, n, j, u, F.one, w);
    RowLinear(F, A[j := u], n, i, u, F.one, w);
    RowLinear(F, A[j := w], n, i, u, F.one, w);
    assert A[j := u][i := s] == As[j := u] && A[j := w][i := s] == As[j := w];
    assert A[j := u][i := u] == Au[j := u] && A[j := u][i := w] == Aw[j := u];
    assert A[j := w][i := u] == Au[j := w] && A[j := w][i := w] == Aw[j := w];
    F.OneMul(Det(F, As[j := w], n));
    F.OneMul(Y);
    F.OneMul(WW);
    F.ZeroAdd(Y);
    assert F.AddZero(X);
    assert F.add(Y, X) == F.zero;
    F.NegUnique(Y, X);
    assert A[i := u][j := w] == A && A[i := w][j := u] == SwapRows(A, i, j);
  }

  lemma AdjacentSwap<S(!new)>(F: Field<S>, A: Mat<S>, n: nat, r: nat)
    requires F.Lawful() && IsMat(A, n, n) && r + 1 < n
    ensures Det(F, SwapRows(A, r, r + 1), n) == F.neg(Det(F, A, n))
  {
    forall u: Vec<S> | |u| == n ensures Det(F, A[r := u][r + 1 := u], n) == F.zero {
      AdjacentEqual(F, A[r := u][r + 1 := u], n, r);
    }
    SwapFromEqual(F, A, n, r, r + 1);
  }

  /** Two equal rows make the determinant vanish. */
  lemma {:induction false} EqualRows<S(!new)>(F: Field<S>, A: Mat<S>, n: nat, i: nat, j: nat)
    requires F.Lawful() && IsMat(A, n, n) && i < j < n && A[i] == A[j]
    ensures Det(F, A, n) == F.zero
    decreases j - i
  {
    if j == i + 1 {
      AdjacentEqual(F, A, n, i);
    } else {
      AdjacentSwap(F, A, n, j - 1);
      EqualRows(F, SwapRows(A, j - 1, j), n, i, j - 1);
      F.NegNeg(Det(F, A, n));
      F.NegZero();
    }
  }

  /** Swapping two rows negates the determinant. */
  lemma RowsSwapped<S(!new)>(F: Field<S>, A: Mat<S>, n: nat, i: nat, j: nat)
    requires F.Lawful() && IsMat(A, n, n) && i < n && j < n && i != j
    ensures Det(F, SwapRows(A, i, j), n) == F.neg(Det(F, A, n))
  {
    forall u: Vec<S> | |u| == n ensures Det(F, A[i := u][j := u], n) == F.zero {
      EqualRows(F, A[i := u][j := u], n, if i < j then i else j, if i < j then j else i);
    }
    SwapFromEqual(F, A, n, i, j);
  }

  /** Adding a multiple of another row keeps the determinant. */
  lemma RowAdded<S(!new)>(F: Field<S>, A: Mat<S>, n: nat, i: nat, c: S, p: nat)
    requires F.Lawful() && IsMat(A, n, n) && i < n && p < n && i != p
    ensures Det(F, A[i := AddScaled(F, A[i], c, A[p])], n) == Det(F, A, n)
  {
    RowLinear(F, A, n, i, A[i], c, A[p]);
    EqualRows(F, A[i := A[p]], n, if i < p then i else p, if i < p then p else i);
    assert A[i := A[i]] == A;
    F.MulZero(c);
    assert F.AddZero(Det(F, A, n));
  }

  // ----- block form

  lemma {:induction false} VanishingTerms<S(!new)>(F: Field<S>, A: Mat<S>, n: nat, i: nat)
    requires F.Lawful() && IsMat(A, n, n) && 0 < n && i <= n
    requires forall k :: i <= k < n ==> A[k][0] == F.zero
    ensures Expand(F, A, n, i) == F.zero
    decreases n - i
  {
    if i < n {
      VanishingTerms(F, A, n, i + 1);
      F.NegZero();
      F.MulZero(Det(F, Minor(A, n, i), n - 1));
      assert F.AddZero(F.zero);
    }
  }

  /** With zeros below the corner, the determinant is the corner times that of the rest. */
  lemma CornerExpansion<S(!new)>(F: Field<S>, A: Mat<S>, n: nat)
    requires F.Lawful() && IsMat(A, n, n) && 0 < n
    requires forall k :: 1 <= k < n ==> A[k][0] == F.zero
    ensures Det(F, A, n) == F.mul(A[0][0], Det(F, Minor(A, n, 0), n - 1))
  {
    VanishingTerms(F, A, n, 1);
    assert F.AddZero(Term(F, A, n, 0));
  }
}
