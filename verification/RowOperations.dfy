/** Elementary row operations and the reduced echelon form they build. */
module RowOperations {
  import opened Fields
  import opened Vectors

  ghost function SwapRows<S>(A: Mat<S>, i: nat, j: nat): (r: Mat<S>)
    requires i < |A| && j < |A|
  {
    A[i := A[j]][j := A[i]]
  }

  ghost function ScaleRow<S(!new)>(F: Field<S>, A: Mat<S>, i: nat, c: S): (r: Mat<S>)
    requires i < |A|
  {
    A[i := Scale(F, c, A[i])]
  }

  /** Row i less the multiple of row p that clears its entry in column c. */
  ghost function ClearedRow<S(!new)>(F: Field<S>, A: Mat<S>, m: nat, n: nat, p: nat, c: nat, i: nat): (r: Vec<S>)
    requires IsMat(A, m, n) && p < m && c < n && i < m
    ensures |r| == n
  {
    if i == p then A[p] else AddScaled(F, A[i], F.neg(A[i][c]), A[p])
  }

  /** Clears column c from every row but row p. */
  ghost function ClearColumn<S(!new)>(F: Field<S>, A: Mat<S>, m: nat, n: nat, p: nat, c: nat): (r: Mat<S>)
    requires IsMat(A, m, n) && p < m && c < n
    ensures IsMat(r, m, n)
  {
    seq(m, i requires 0 <= i < m => ClearedRow(F, A, m, n, p, c, i))
  }

  /** How far ClearColumn has come when rows below i are done. */
  ghost function ClearedUpTo<S(!new)>(F: Field<S>, C: Mat<S>, m: nat, n: nat, p: nat, c: nat, i: nat): (r: Mat<S>)
    requires IsMat(C, m, n) && p < m && c < n && i <= m
    ensures IsMat(r, m, n)
    ensures i == 0 ==> r == C
    ensures i == m ==> r == ClearColumn(F, C, m, n, p, c)
  {
    ClearColumn(F, C, m, n, p, c)[..i] + C[i..]
  }

  /** The matrix after the elimination loop has handled row i. */
  ghost function ClearRow<S(!new)>(F: Field<S>, X: Mat<S>, m: nat, n: nat, p: nat, c: nat, i: nat): (r: Mat<S>)
    requires IsMat(X, m, n) && p < m && c < n && i < m
    ensures IsMat(r, m, n)
  {
    if i == p || X[i][c] == F.zero then X else X[i := AddScaled(F, X[i], F.neg(X[i][c]), X[p])]
  }

  lemma ClearNextRow<S(!new)>(F: Field<S>, C: Mat<S>, m: nat, n: nat, p: nat, c: nat, i: nat)
    requires F.Lawful() && IsMat(C, m, n) && p < m && c < n && i < m
    ensures ClearedUpTo(F, C, m, n, p, c, i + 1) == ClearRow(F, ClearedUpTo(F, C, m, n, p, c, i), m, n, p, c, i)
  {
    var X := ClearedUpTo(F, C, m, n, p, c, i);
    assert X[i] == C[i] && X[p] == C[p];
    if i != p && C[i][c] == F.zero {
      F.NegZero();
      forall j | 0 <= j < n ensures F.add(C[i][j], F.mul(F.neg(F.zero), C[p][j])) == C[i][j] {
        F.MulZero(C[p][j]);
        assert F.AddZero(C[i][j]);
      }
      assert AddScaled(F, C[i], F.neg(F.zero), C[p]) == C[i];
    }
  }

  /** One Gauss-Jordan step: bring row pr to place p, normalise it at column c, clear column c. */
  ghost function PivotStep<S(!new)>(F: Field<S>, A: Mat<S>, m: nat, n: nat, p: nat, pr: nat, c: nat): (r: Mat<S>)
    requires IsMat(A, m, n) && p < m && pr < m && c < n
    ensures IsMat(r, m, n)
  {
    var B := SwapRows(A, p, pr);
    ClearColumn(F, ScaleRow(F, B, p, F.inv(B[p][c])), m, n, p, c)
  }

  /** y is orthogonal to every row of A. */
  ghost predicate Kills<S(!new)>(F: Field<S>, A: Mat<S>, m: nat, n: nat, y: Vec<S>)
    requires IsMat(A, m, n) && |y| == n
  {
    forall i :: 0 <= i < m ==> Dot(F, A[i], y) == F.zero
  }

  lemma SwapRowsKeepsKernel<S(!new)>(F: Field<S>, A: Mat<S>, m: nat, n: nat, i: nat, j: nat, y: Vec<S>)
    requires IsMat(A, m, n) && |y| == n && i < m && j < m
    ensures IsMat(SwapRows(A, i, j), m, n)
    ensures Kills(F, SwapRows(A, i, j), m, n, y) <==> Kills(F, A, m, n, y)
  {
    var B := SwapRows(A, i, j);
    if Kills(F, B, m, n, y) {
      forall k | 0 <= k < m ensures Dot(F, A[k], y) == F.zero {
        assert A[k] == B[if k == i then j else if k == j then i else k];
      }
    }
  }

  lemma ScaleRowKeepsKernel<S(!new)>(F: Field<S>, A: Mat<S>, m: nat, n: nat, i: nat, c: S, y: Vec<S>)
    requires F.Lawful() && IsMat(A, m, n) && |y| == n && i < m && c != F.zero
    ensures IsMat(ScaleRow(F, A, i, c), m, n)
    ensures Kills(F, ScaleRow(F, A, i, c), m, n, y) <==> Kills(F, A, m, n, y)
  {
    var B := ScaleRow(F, A, i, c);
    DotScale(F, c, A[i], y);
    F.NoZeroDivisors(c, Dot(F, A[i], y));
    if Kills(F, B, m, n, y) {
      forall k | 0 <= k < m ensures Dot(F, A[k], y) == F.zero {
        assert Dot(F, B[k], y) == F.zero;
      }
    }
  }

  lemma ClearColumnKeepsKernel<S(!new)>(F: Field<S>, A: Mat<S>, m: nat, n: nat, p: nat, c: nat, y: Vec<S>)
    requires F.Lawful() && IsMat(A, m, n) && |y| == n && p < m && c < n
    ensures Kills(F, ClearColumn(F, A, m, n, p, c), m, n, y) <==> Kills(F, A, m, n, y)
  {
    var B := ClearColumn(F, A, m, n, p, c);
    forall i | 0 <= i < m && Dot(F, A[p], y) == F.zero
      ensures Dot(F, B[i], y) == Dot(F, A[i], y)
    {
      if i != p {
        DotAddScaled(F, A[i], F.neg(A[i][c]), A[p], y);
        F.MulZero(F.neg(A[i][c]));
        assert F.AddZero(Dot(F, A[i], y));
      }
    }
    assert B[p] == A[p];
    if Kills(F, B, m, n, y) {
      forall i | 0 <= i < m ensures Dot(F, A[i], y) == F.zero {
        assert Dot(F, B[i], y) == F.zero;
      }
    }
  }

  /** A Gauss-Jordan step keeps the solution set. */
  lemma PivotStepKeepsKernel<S(!new)>(F: Field<S>, A: Mat<S>, m: nat, n: nat, p: nat, pr: nat, c: nat, y: Vec<S>)
    requires F.Lawful() && IsMat(A, m, n) && |y| == n && p < m && pr < m && c < n && A[pr][c] != F.zero
    ensures Kills(F, PivotStep(F, A, m, n, p, pr, c), m, n, y) <==> Kills(F, A, m, n, y)
  {
    SwapRowsKeepsKernel(F, A, m, n, p, pr, y);
    var B := SwapRows(A, p, pr);
    F.InvNonZero(B[p][c]);
    ScaleRowKeepsKernel(F, B, m, n, p, F.inv(B[p][c]), y);
    ClearColumnKeepsKernel(F, ScaleRow(F, B, p, F.inv(B[p][c])), m, n, p, c, y);
  }

  ghost predicate SameKernel<S(!new)>(F: Field<S>, A: Mat<S>, B: Mat<S>, m: nat, n: nat)
    requires IsMat(A, m, n) && IsMat(B, m, n)
  {
    forall y: Vec<S> :: |y| == n ==> (Kills(F, A, m, n, y) <==> Kills(F, B, m, n, y))
  }

  lemma SameKernelStep<S(!new)>(F: Field<S>, A: Mat<S>, B: Mat<S>, m: nat, n: nat, p: nat, pr: nat, c: nat)
    requires F.Lawful() && IsMat(A, m, n) && IsMat(B, m, n) && SameKernel(F, B, A, m, n)
    requires p < m && pr < m && c < n && B[pr][c] != F.zero
    ensures SameKernel(F, PivotStep(F, B, m, n, p, pr, c), A, m, n)
  {
    forall y: Vec<S> | |y| == n
      ensures Kills(F, PivotStep(F, B, m, n, p, pr, c), m, n, y) <==> Kills(F, A, m, n, y)
    {
      PivotStepKeepsKernel(F, B, m, n, p, pr, c, y);
    }
  }

  /** Columns below c are in reduced echelon form with pivots at piv, rows |piv|.. vanish there. */
  ghost predicate Echelon<S(!new)>(F: Field<S>, A: Mat<S>, m: nat, n: nat, piv: seq<nat>, c: nat)
    requires IsMat(A, m, n)
  {
    && |piv| <= m && c <= n
    && (forall k :: 0 <= k < |piv| ==> piv[k] < c)
    && (forall k, l :: 0 <= k < l < |piv| ==> piv[k] < piv[l])
    && (forall k, i :: 0 <= k < |piv| && 0 <= i < m ==> A[i][piv[k]] == if i == k then F.one else F.zero)
    && (forall k, j :: 0 <= k < |piv| && 0 <= j < piv[k] ==> A[k][j] == F.zero)
    && (forall i, j :: |piv| <= i < m && 0 <= j < c ==> A[i][j] == F.zero)
  }

  /** The entries of a Gauss-Jordan step: left of the pivot column only rows p and pr trade
      places, and the pivot column becomes a unit column. */
  lemma PivotStepEntries<S(!new)>(F: Field<S>, A: Mat<S>, m: nat, n: nat, p: nat, pr: nat, c: nat)
    requires F.Lawful() && IsMat(A, m, n) && p <= pr < m && c < n && A[pr][c] != F.zero
    requires forall i, j :: p <= i < m && 0 <= j < c ==> A[i][j] == F.zero
    ensures var R := PivotStep(F, A, m, n, p, pr, c);
      && (forall i :: 0 <= i < m ==> R[i][c] == if i == p then F.one else F.zero)
      && (forall i, j :: 0 <= i < m && 0 <= j < c ==> R[i][j] == A[i][j])
  {
    var B := SwapRows(A, p, pr);
    var v := F.inv(B[p][c]);
    var C := ScaleRow(F, B, p, v);
    var R := PivotStep(F, A, m, n, p, pr, c);
    assert F.MulInv(B[p][c]) && F.MulComm(B[p][c], v);
    assert C[p][c] == F.one;
    F.MulZero(v);
    forall i | 0 <= i < m
      ensures R[i][c] == if i == p then F.one else F.zero
      ensures forall j :: 0 <= j < c ==> R[i][j] == A[i][j]
    {
      if i != p {
        var x := C[i][c];
        F.MulZero(F.neg(x));
        assert R[i][c] == F.add(x, F.mul(F.neg(x), F.one));
        assert F.MulOne(F.neg(x)) && F.AddNeg(x);
        forall j | 0 <= j < c ensures R[i][j] == A[i][j] {
          assert R[i][j] == F.add(C[i][j], F.mul(F.neg(x), C[p][j]));
          assert C[p][j] == F.mul(v, B[p][j]) == F.zero;
          assert F.AddZero(C[i][j]);
        }
      }
    }
  }

  lemma EchelonPivot<S(!new)>(F: Field<S>, A: Mat<S>, m: nat, n: nat, piv: seq<nat>, pr: nat, c: nat)
    requires F.Lawful() && IsMat(A, m, n) && Echelon(F, A, m, n, piv, c)
    requires |piv| <= pr < m && c < n && A[pr][c] != F.zero
    ensures Echelon(F, PivotStep(F, A, m, n, |piv|, pr, c), m, n, piv + [c], c + 1)
  {
    PivotStepEntries(F, A, m, n, |piv|, pr, c);
  }

  lemma EchelonStart<S(!new)>(F: Field<S>, A: Mat<S>, m: nat, n: nat)
    requires IsMat(A, m, n)
    ensures Echelon(F, A, m, n, [], 0) && SameKernel(F, A, A, m, n)
  {
  }

  /** A column without a pivot leaves the form as it is. */
  lemma EchelonSkip<S(!new)>(F: Field<S>, A: Mat<S>, m: nat, n: nat, piv: seq<nat>, c: nat)
    requires IsMat(A, m, n) && Echelon(F, A, m, n, piv, c) && c < n
    requires forall k :: |piv| <= k < m ==> A[k][c] == F.zero
    ensures Echelon(F, A, m, n, piv, c + 1)
  {
  }
}
