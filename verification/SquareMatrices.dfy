/** Inverse and determinant of square matrices (pkg/base/mat/square.go). */
module SquareMatrices {
  import opened Options
  import opened Fields
  import opened Vectors
  import opened RowOperations
  import opened FlatMatrix
  import opened Determinants
  import opened LinearSolver

  // ----- two matrices reduced in lock step, read as one matrix of long rows

  ghost function Join<S>(A: Mat<S>, B: Mat<S>, n: nat): (r: Mat<S>)
    requires IsMat(A, n, n) && IsMat(B, n, n)
    ensures IsMat(r, n, 2 * n)
    ensures forall i :: 0 <= i < n ==> r[i][..n] == A[i] && r[i][n..] == B[i]
  {
    seq(n, i requires 0 <= i < n => A[i] + B[i])
  }

  lemma JoinSwap<S>(A: Mat<S>, B: Mat<S>, n: nat, i: nat, j: nat)
    requires IsMat(A, n, n) && IsMat(B, n, n) && i < n && j < n
    ensures Join(SwapRows(A, i, j), SwapRows(B, i, j), n) == SwapRows(Join(A, B, n), i, j)
  {
  }

  lemma JoinScale<S(!new)>(F: Field<S>, A: Mat<S>, B: Mat<S>, n: nat, i: nat, c: S)
    requires IsMat(A, n, n) && IsMat(B, n, n) && i < n
    ensures Join(ScaleRow(F, A, i, c), ScaleRow(F, B, i, c), n) == ScaleRow(F, Join(A, B, n), i, c)
  {
    assert Scale(F, c, A[i]) + Scale(F, c, B[i]) == Scale(F, c, A[i] + B[i]);
  }

  lemma JoinAdd<S(!new)>(F: Field<S>, A: Mat<S>, B: Mat<S>, n: nat, i: nat, c: S, p: nat)
    requires IsMat(A, n, n) && IsMat(B, n, n) && i < n && p < n
    ensures Join(A[i := AddScaled(F, A[i], c, A[p])], B[i := AddScaled(F, B[i], c, B[p])], n)
         == Join(A, B, n)[i := AddScaled(F, Join(A, B, n)[i], c, Join(A, B, n)[p])]
  {
    assert AddScaled(F, A[i], c, A[p]) + AddScaled(F, B[i], c, B[p]) == AddScaled(F, A[i] + B[i], c, A[p] + B[p]);
  }

  /** One step of TryInv on both matrices. */
  method JointStep<S(==, !new)>(F: Field<S>, a: Matrix<S>, out: Matrix<S>, k: nat, pivot: nat)
    requires F.Lawful() && a.Valid() && out.Valid() && a.v != out.v && a.m == a.n == out.m == out.n
    requires k <= pivot < a.n && a.Get(pivot, k) != F.zero
    modifies a.v, out.v
    ensures Join(a.Rows(), out.Rows(), a.n) == PivotStep(F, old(Join(a.Rows(), out.Rows(), a.n)), a.n, 2 * a.n, k, pivot, k)
  {
    var n := a.n;
    JoinSwap(a.Rows(), out.Rows(), n, k, pivot);
    if pivot != k {
      a.SwapRowAssign(k, pivot);
      out.SwapRowAssign(k, pivot);
    }
    var invPivot := F.inv(a.Get(k, k));
    JoinScale(F, a.Rows(), out.Rows(), n, k, invPivot);
    a.ScaleRowAssign(F, k, invPivot);
    out.ScaleRowAssign(F, k, invPivot);
    JointClear(F, a, out, k);
  }

  method JointClearRow<S(==, !new)>(F: Field<S>, a: Matrix<S>, out: Matrix<S>, i: nat, k: nat)
    requires F.Lawful() && a.Valid() && out.Valid() && a.v != out.v && a.m == a.n == out.m == out.n
    requires i < a.n && k < a.n
    modifies a.v, out.v
    ensures Join(a.Rows(), out.Rows(), a.n) == ClearRow(F, old(Join(a.Rows(), out.Rows(), a.n)), a.n, 2 * a.n, k, k, i)
  {
    var factor := a.Get(i, k);
    assert factor == Join(a.Rows(), out.Rows(), a.n)[i][k];
    if i != k && factor != F.zero {
      JoinAdd(F, a.Rows(), out.Rows(), a.n, i, F.neg(factor), k);
      a.SubtractRowAssign(F, i, k, factor);
      out.SubtractRowAssign(F, i, k, factor);
    }
  }

  method JointClear<S(==, !new)>(F: Field<S>, a: Matrix<S>, out: Matrix<S>, k: nat)
    requires F.Lawful() && a.Valid() && out.Valid() && a.v != out.v && a.m == a.n == out.m == out.n && k < a.n
    modifies a.v, out.v
    ensures Join(a.Rows(), out.Rows(), a.n) == ClearColumn(F, old(Join(a.Rows(), out.Rows(), a.n)), a.n, 2 * a.n, k, k)
  {
    hide ClearRow, RowsOf;
    var n := a.n;
    ghost var C := Join(a.Rows(), out.Rows(), n);
    for i := 0 to n
      invariant Join(a.Rows(), out.Rows(), n) == ClearedUpTo(F, C, n, 2 * n, k, k, i)
    {
      ClearNextRow(F, C, n, 2 * n, k, k, i);
      JointClearRow(F, a, out, i, k);
    }
  }

  // ----- the determinant along the elimination

  ghost function LeftPart<S>(J: Mat<S>, n: nat): (r: Mat<S>)
    requires IsMat(J, n, 2 * n)
    ensures IsMat(r, n, n)
    ensures forall i :: 0 <= i < n ==> r[i] == J[i][..n]
  {
    seq(n, i requires 0 <= i < n => J[i][..n])
  }

  lemma LeftOfJoin<S>(A: Mat<S>, B: Mat<S>, n: nat)
    requires IsMat(A, n, n) && IsMat(B, n, n)
    ensures LeftPart(Join(A, B, n), n) == A
  {
  }

  lemma LeftOfPivotStep<S(!new)>(F: Field<S>, J: Mat<S>, n: nat, p: nat, pr: nat, c: nat)
    requires IsMat(J, n, 2 * n) && p < n && pr < n && c < n
    ensures LeftPart(PivotStep(F, J, n, 2 * n, p, pr, c), n) == PivotStep(F, LeftPart(J, n), n, n, p, pr, c)
  {
    var A := LeftPart(J, n);
    var B, K := SwapRows(A, p, pr), SwapRows(J, p, pr);
    var v := F.inv(B[p][c]);
    var C, L := ScaleRow(F, B, p, v), ScaleRow(F, K, p, v);
    var P, Q := PivotStep(F, A, n, n, p, pr, c), PivotStep(F, J, n, 2 * n, p, pr, c);
    assert forall i :: 0 <= i < n ==> C[i] == L[i][..n];
    forall i | 0 <= i < n ensures P[i] == Q[i][..n] {
      assert P[i] == ClearedRow(F, C, n, n, p, c, i) && Q[i] == ClearedRow(F, L, n, 2 * n, p, c, i);
    }
  }

  lemma {:induction false} ClearingKeepsDet<S(!new)>(F: Field<S>, C: Mat<S>, n: nat, p: nat, c: nat, i: nat)
    requires F.Lawful() && IsMat(C, n, n) && p < n && c < n && i <= n
    ensures Det(F, ClearedUpTo(F, C, n, n, p, c, i), n) == Det(F, C, n)
  {
    if i > 0 {
      ClearingKeepsDet(F, C, n, p, c, i - 1);
      ClearNextRow(F, C, n, n, p, c, i - 1);
      var X := ClearedUpTo(F, C, n, n, p, c, i - 1);
      if i - 1 != p {
        RowAdded(F, X, n, i - 1, F.neg(X[i - 1][c]), p);
      }
    }
  }

  /** A Gauss-Jordan step keeps the determinant zero or non-zero. */
  lemma PivotStepDet<S(!new)>(F: Field<S>, A: Mat<S>, n: nat, p: nat, pr: nat, c: nat)
    requires F.Lawful() && IsMat(A, n, n) && p < n && pr < n && c < n && A[pr][c] != F.zero
    ensures Det(F, PivotStep(F, A, n, n, p, pr, c), n) == F.zero <==> Det(F, A, n) == F.zero
  {
    var B := SwapRows(A, p, pr);
    if p != pr {
      RowsSwapped(F, A, n, p, pr);
      F.NegZero();
      F.NegNeg(Det(F, A, n));
    } else {
      assert B == A;
    }
    var v := F.inv(B[p][c]);
    F.InvNonZero(B[p][c]);
    RowScaled(F, B, n, p, v);
    F.NoZeroDivisors(v, Det(F, B, n));
    ClearingKeepsDet(F, ScaleRow(F, B, p, v), n, p, c, n);
  }

  /** The first k columns are unit columns. */
  ghost predicate UnitColumns<S(!new)>(F: Field<S>, A: Mat<S>, m: nat, n: nat, k: nat)
    requires IsMat(A, m, n) && k <= n
  {
    forall i, j :: 0 <= i < m && 0 <= j < k ==> A[i][j] == if i == j then F.one else F.zero
  }

  lemma CornerIsUnit<S(!new)>(F: Field<S>, A: Mat<S>, n: nat, k: nat)
    requires F.Lawful() && IsMat(A, n, n) && 0 < k <= n && UnitColumns(F, A, n, n, k)
    ensures UnitColumns(F, Minor(A, n, 0), n - 1, n - 1, k - 1)
    ensures Det(F, A, n) == Det(F, Minor(A, n, 0), n - 1)
  {
    CornerExpansion(F, A, n);
    F.OneMul(Det(F, Minor(A, n, 0), n - 1));
    var B := Minor(A, n, 0);
    forall i, j | 0 <= i < n - 1 && 0 <= j < k - 1 ensures B[i][j] == if i == j then F.one else F.zero {
      assert B[i][j] == A[i + 1][j + 1];
    }
  }

  lemma {:induction false} UnitMatrixDet<S(!new)>(F: Field<S>, A: Mat<S>, n: nat)
    requires F.Lawful() && IsMat(A, n, n) && UnitColumns(F, A, n, n, n)
    ensures Det(F, A, n) == F.one
    decreases n
  {
    if n > 0 {
      CornerIsUnit(F, A, n, n);
      UnitMatrixDet(F, Minor(A, n, 0), n - 1);
    }
  }

  /** A column without a pivot makes the determinant vanish. */
  lemma {:induction false} StuckColumn<S(!new)>(F: Field<S>, A: Mat<S>, n: nat, k: nat)
    requires F.Lawful() && IsMat(A, n, n) && k < n && UnitColumns(F, A, n, n, k)
    requires forall i :: k <= i < n ==> A[i][k] == F.zero
    ensures Det(F, A, n) == F.zero
    decreases n
  {
    if k == 0 {
      VanishingTerms(F, A, n, 0);
    } else {
      CornerIsUnit(F, A, n, k);
      var B := Minor(A, n, 0);
      forall i | k - 1 <= i < n - 1 ensures B[i][k - 1] == F.zero {
        assert B[i][k - 1] == A[i + 1][k];
      }
      StuckColumn(F, B, n - 1, k - 1);
    }
  }

  // ----- the inverse

  /** N undoes M on both sides. */
  ghost predicate Inverses<S(!new)>(F: Field<S>, M: Mat<S>, N: Mat<S>, n: nat)
    requires IsMat(M, n, n) && IsMat(N, n, n)
  {
    MatMul(F, N, M, n, n, n) == Identity(F, n) && MatMul(F, M, N, n, n, n) == Identity(F, n)
  }

  lemma UnitDot<S(!new)>(F: Field<S>, n: nat, k: nat, y: Vec<S>)
    requires F.Lawful() && |y| == n && k < n
    ensures Dot(F, Unit(F, n, k), y) == y[k] == Dot(F, y, Unit(F, n, k))
  {
    DotSingle(F, Unit(F, n, k), y, k);
    F.OneMul(y[k]);
    DotComm(F, Unit(F, n, k), y);
  }

  lemma MatVecUnit<S(!new)>(F: Field<S>, M: Mat<S>, n: nat, j: nat)
    requires F.Lawful() && IsMat(M, n, n) && j < n
    ensures MatVec(F, M, Unit(F, n, j)) == Column(M, n, n, j)
  {
    forall i | 0 <= i < n ensures Dot(F, M[i], Unit(F, n, j)) == M[i][j] {
      UnitDot(F, n, j, M[i]);
    }
  }

  ghost function Negated<S(!new)>(F: Field<S>, w: Vec<S>): (r: Vec<S>)
    ensures |r| == |w|
  {
    Scale(F, F.neg(F.one), w)
  }

  lemma DotNegated<S(!new)>(F: Field<S>, a: Vec<S>, w: Vec<S>)
    requires F.Lawful() && |a| == |w|
    ensures Dot(F, a, Negated(F, w)) == F.neg(Dot(F, a, w))
  {
    DotComm(F, a, Negated(F, w));
    DotScale(F, F.neg(F.one), w, a);
    DotComm(F, a, w);
    F.NegMul(F.one, Dot(F, a, w));
    F.OneMul(Dot(F, a, w));
  }

  /** (y, -w) is orthogonal to the rows of [A | B] just when A * y == B * w. */
  lemma JoinKernel<S(!new)>(F: Field<S>, A: Mat<S>, B: Mat<S>, n: nat, y: Vec<S>, w: Vec<S>)
    requires F.Lawful() && IsMat(A, n, n) && IsMat(B, n, n) && |y| == |w| == n
    ensures Kills(F, Join(A, B, n), n, 2 * n, y + Negated(F, w)) <==> MatVec(F, A, y) == MatVec(F, B, w)
  {
    var J := Join(A, B, n);
    forall i | 0 <= i < n
      ensures Dot(F, J[i], y + Negated(F, w)) == F.zero <==> MatVec(F, A, y)[i] == MatVec(F, B, w)[i]
    {
      assert J[i] == A[i] + B[i];
      DotConcat(F, A[i], y, B[i], Negated(F, w));
      DotNegated(F, B[i], w);
      F.SubIsZero(Dot(F, A[i], y), Dot(F, B[i], w));
    }
  }

  lemma IdentityVec<S(!new)>(F: Field<S>, n: nat, y: Vec<S>)
    requires F.Lawful() && |y| == n
    ensures MatVec(F, Identity(F, n), y) == y
  {
    forall i | 0 <= i < n ensures Dot(F, Identity(F, n)[i], y) == y[i] {
      UnitDot(F, n, i, y);
    }
  }

  /** Reducing [M | I] to [I | N] without changing the kernel makes N undo M on every vector. */
  lemma ReducedUndoes<S(!new)>(F: Field<S>, M: Mat<S>, N: Mat<S>, n: nat, e: Vec<S>)
    requires F.Lawful() && IsMat(M, n, n) && IsMat(N, n, n) && |e| == n
    requires SameKernel(F, Join(Identity(F, n), N, n), Join(M, Identity(F, n), n), n, 2 * n)
    ensures MatVec(F, N, MatVec(F, M, e)) == e
    ensures MatVec(F, M, MatVec(F, N, e)) == e
  {
    var I := Identity(F, n);
    var m, w := MatVec(F, M, e), MatVec(F, N, e);
    IdentityVec(F, n, e);
    IdentityVec(F, n, m);
    IdentityVec(F, n, w);
    // M * e == I * m, hence I * e == N * m
    JoinKernel(F, M, I, n, e, m);
    JoinKernel(F, I, N, n, e, m);
    // I * w == N * e, hence M * w == I * e
    JoinKernel(F, I, N, n, w, e);
    JoinKernel(F, M, I, n, w, e);
  }

  lemma ProductEntry<S(!new)>(F: Field<S>, A: Mat<S>, B: Mat<S>, n: nat, i: nat, j: nat)
    requires F.Lawful() && IsMat(A, n, n) && IsMat(B, n, n) && i < n && j < n
    ensures MatMul(F, A, B, n, n, n)[i][j] == MatVec(F, A, MatVec(F, B, Unit(F, n, j)))[i]
  {
    MatVecUnit(F, B, n, j);
  }

  lemma SameEntries<S>(A: Mat<S>, B: Mat<S>, n: nat)
    requires IsMat(A, n, n) && IsMat(B, n, n)
    requires forall i, j :: 0 <= i < n && 0 <= j < n ==> A[i][j] == B[i][j]
    ensures A == B
  {
    forall i | 0 <= i < n ensures A[i] == B[i] {
    }
  }

  lemma ReducedToInverse<S(!new)>(F: Field<S>, M: Mat<S>, N: Mat<S>, n: nat)
    requires F.Lawful() && IsMat(M, n, n) && IsMat(N, n, n)
    requires SameKernel(F, Join(Identity(F, n), N, n), Join(M, Identity(F, n), n), n, 2 * n)
    ensures Inverses(F, M, N, n)
  {
    var P, Q, I := MatMul(F, N, M, n, n, n), MatMul(F, M, N, n, n, n), Identity(F, n);
    forall i, j | 0 <= i < n && 0 <= j < n ensures P[i][j] == I[i][j] && Q[i][j] == I[i][j] {
      ReducedUndoes(F, M, N, n, Unit(F, n, j));
      ProductEntry(F, N, M, n, i, j);
      ProductEntry(F, M, N, n, i, j);
    }
    SameEntries(P, I, n);
    SameEntries(Q, I, n);
  }

  /** The row-major data of the identity matrix. */
  method IdentityData<S(==, !new)>(F: Field<S>, n: nat) returns (data: seq<S>)
    ensures |data| == n * n
    ensures RowsOf(data, n, n) == Identity(F, n)
  {
    data := [];
    for i := 0 to n
      invariant |data| == i * n && RowsOf(data, i, n) == Identity(F, n)[..i]
    {
      var row := seq(n, j => if j == i then F.one else F.zero);
      assert row == Unit(F, n, i);
      AppendRow(data, i, n, row);
      data := data + row;
    }
  }

  /** What holds of the two matrices of TryInv before step k. */
  ghost predicate HalfInverted<S(!new)>(F: Field<S>, M: Mat<S>, A: Mat<S>, B: Mat<S>, n: nat, k: nat)
    requires IsMat(M, n, n) && IsMat(A, n, n) && IsMat(B, n, n) && k <= n
  {
    && UnitColumns(F, A, n, n, k)
    && SameKernel(F, Join(A, B, n), Join(M, Identity(F, n), n), n, 2 * n)
    && (Det(F, A, n) == F.zero <==> Det(F, M, n) == F.zero)
  }

  lemma StepOnTheLeft<S(!new)>(F: Field<S>, A: Mat<S>, B: Mat<S>, A': Mat<S>, B': Mat<S>, n: nat, k: nat, pivot: nat)
    requires IsMat(A, n, n) && IsMat(B, n, n) && IsMat(A', n, n) && IsMat(B', n, n) && k < n && pivot < n
    requires Join(A', B', n) == PivotStep(F, Join(A, B, n), n, 2 * n, k, pivot, k)
    ensures A' == PivotStep(F, A, n, n, k, pivot, k)
  {
    LeftOfJoin(A, B, n);
    LeftOfJoin(A', B', n);
    LeftOfPivotStep(F, Join(A, B, n), n, k, pivot, k);
  }

  lemma UnitColumnsStep<S(!new)>(F: Field<S>, A: Mat<S>, n: nat, k: nat, pivot: nat)
    requires F.Lawful() && IsMat(A, n, n) && k <= pivot < n && UnitColumns(F, A, n, n, k) && A[pivot][k] != F.zero
    ensures UnitColumns(F, PivotStep(F, A, n, n, k, pivot, k), n, n, k + 1)
  {
    PivotStepEntries(F, A, n, n, k, pivot, k);
  }

  lemma HalfInvertedStep<S(!new)>(F: Field<S>, M: Mat<S>, A: Mat<S>, B: Mat<S>, A': Mat<S>, B': Mat<S>, n: nat, k: nat, pivot: nat)
    requires F.Lawful() && IsMat(M, n, n) && IsMat(A, n, n) && IsMat(B, n, n) && IsMat(A', n, n) && IsMat(B', n, n)
    requires k <= pivot < n && HalfInverted(F, M, A, B, n, k) && A[pivot][k] != F.zero
    requires Join(A', B', n) == PivotStep(F, Join(A, B, n), n, 2 * n, k, pivot, k)
    ensures HalfInverted(F, M, A', B', n, k + 1)
  {
    StepOnTheLeft(F, A, B, A', B', n, k, pivot);
    UnitColumnsStep(F, A, n, k, pivot);
    PivotStepDet(F, A, n, k, pivot, k);
    assert Join(A, B, n)[pivot][..n][k] != F.zero;
    SameKernelStep(F, Join(M, Identity(F, n), n), Join(A, B, n), n, 2 * n, k, pivot, k);
  }

  lemma FullyInverted<S(!new)>(F: Field<S>, M: Mat<S>, A: Mat<S>, B: Mat<S>, n: nat)
    requires F.Lawful() && IsMat(M, n, n) && IsMat(A, n, n) && IsMat(B, n, n) && HalfInverted(F, M, A, B, n, n)
    ensures Det(F, M, n) != F.zero && Inverses(F, M, B, n)
  {
    UnitMatrixDet(F, A, n);
    var I := Identity(F, n);
    forall i | 0 <= i < n ensures A[i] == I[i] {
    }
    assert A == I;
    ReducedToInverse(F, M, B, n);
  }

  /** Step k of TryInv, or the news that column k has no pivot. */
  method InvertColumn<S(==, !new)>(F: Field<S>, a: Matrix<S>, out: Matrix<S>, k: nat, ghost M: Mat<S>) returns (found: bool)
    requires F.Lawful() && a.Valid() && out.Valid() && a.v != out.v && a.m == a.n == out.m == out.n && k < a.n
    requires IsMat(M, a.n, a.n) && HalfInverted(F, M, a.Rows(), out.Rows(), a.n, k)
    modifies a.v, out.v
    ensures found ==> HalfInverted(F, M, a.Rows(), out.Rows(), a.n, k + 1)
    ensures !found ==> Det(F, M, a.n) == F.zero
  {
    var pivot := FindPivot(F, a, k, k);
    ghost var A, B := a.Rows(), out.Rows();
    if pivot == a.n {
      StuckColumn(F, A, a.n, k);
      return false;
    }
    JointStep(F, a, out, k, pivot);
    HalfInvertedStep(F, M, A, B, a.Rows(), out.Rows(), a.n, k, pivot);
    return true;
  }

  /** Gauss-Jordan inversion: succeeds just when the determinant is not zero, and the result is
      the two-sided inverse. */
  method TryInv<S(==, !new)>(F: Field<S>, M: Matrix<S>) returns (r: Option<Matrix<S>>)
    requires F.Lawful() && M.Valid() && M.m == M.n
    ensures r.Some? <==> Det(F, M.Rows(), M.n) != F.zero
    ensures r.Some? ==> r.value.Valid() && r.value.m == r.value.n == M.n
    ensures r.Some? ==> Inverses(F, M.Rows(), r.value.Rows(), M.n)
  {
    var n := M.n;
    var a := new Matrix(n, n, M.v[..]);
    var id := IdentityData(F, n);
    var out := new Matrix(n, n, id);
    for k := 0 to n
      invariant HalfInverted(F, M.Rows(), a.Rows(), out.Rows(), n, k)
    {
      var found := InvertColumn(F, a, out, k, M.Rows());
      if !found {
        return None;
      }
    }
    FullyInverted(F, M.Rows(), a.Rows(), out.Rows(), n);
    return Some(out);
  }

  // ----- Determinant

  /** The block of A from row and column k on. */
  ghost function Trailing<S>(A: Mat<S>, n: nat, k: nat): (r: Mat<S>)
    requires IsMat(A, n, n) && k <= n
    ensures IsMat(r, n - k, n - k)
    ensures forall i, j :: 0 <= i < n - k && 0 <= j < n - k ==> r[i][j] == A[k + i][k + j]
  {
    seq(n - k, i requires 0 <= i < n - k => A[k + i][k..])
  }

  lemma TrailingMinor<S>(A: Mat<S>, n: nat, k: nat)
    requires IsMat(A, n, n) && k < n
    ensures Minor(Trailing(A, n, k), n - k, 0) == Trailing(A, n, k + 1)
  {
    var B, C := Minor(Trailing(A, n, k), n - k, 0), Trailing(A, n, k + 1);
    forall i | 0 <= i < n - k - 1 ensures B[i] == C[i] {
      assert B[i] == A[k + 1 + i][k..][1..];
    }
  }

  lemma TrailingSwap<S>(A: Mat<S>, n: nat, k: nat, i: nat)
    requires IsMat(A, n, n) && k <= i < n
    ensures Trailing(SwapRows(A, k, i), n, k) == SwapRows(Trailing(A, n, k), 0, i - k)
  {
  }

  /** Row a of the matrix with x times row p subtracted right of column k, and zero in column k. */
  ghost function EliminatedRow<S(!new)>(F: Field<S>, a: Vec<S>, p: Vec<S>, k: nat, x: S): (r: Vec<S>)
    requires |a| == |p| && k < |a|
    ensures |r| == |a|
  {
    a[..k] + [F.zero] + AddScaled(F, a[k + 1..], F.neg(x), p[k + 1..])
  }

  lemma EliminatedEntries<S(!new)>(F: Field<S>, s: seq<S>, u: seq<S>, m: nat, n: nat, i: nat, p: nat, k: nat, x: S)
    requires F.Lawful() && |s| == |u| == m * n && i < m && p < m && k < n && i * n + n <= m * n && p * n + n <= m * n
    requires Subtracted(F, s, u, i * n + k + 1, p * n + k + 1, n - k - 1, x)
    ensures RowsOf(u[i * n + k := F.zero], m, n) == RowsOf(s, m, n)[i := EliminatedRow(F, RowsOf(s, m, n)[i], RowsOf(s, m, n)[p], k, x)]
  {
    var A := RowsOf(s, m, n);
    var row := EliminatedRow(F, A[i], A[p], k, x);
    var a := i * n;
    var t := u[a + k := F.zero];
    forall l | a <= l < a + n ensures t[l] == row[l - a] {
      assert A[i][l - a] == s[l];
      if l - a > k {
        assert A[p][l - a] == s[l - a + p * n];
        F.SubMul(s[l], x, s[l - a + p * n]);
      }
    }
    ReplaceRow(s, t, m, n, i, row);
  }

  method EliminateRowAssign<S(==, !new)>(F: Field<S>, a: Matrix<S>, i: nat, p: nat, k: nat, x: S)
    requires F.Lawful() && a.Valid() && i < a.m && p < a.m && i != p && k < a.n
    modifies a.v
    ensures a.Rows() == old(a.Rows())[i := EliminatedRow(F, old(a.Rows())[i], old(a.Rows())[p], k, x)]
  {
    RowsDoNotOverlap(a.n, i, a.m);
    RowsDoNotOverlap(a.n, p, a.m);
    RowsDoNotOverlap(a.n, i, p);
    RowsDoNotOverlap(a.n, p, i);
    ghost var s := a.v[..];
    var ri, rp := i * a.n, p * a.n;
    SubtractStretch(F, a.v, ri + k + 1, rp + k + 1, a.n - k - 1, x);
    ghost var u := a.v[..];
    EliminatedEntries(F, s, u, a.m, a.n, i, p, k, x);
    a.v[ri + k] := F.zero;
    assert a.v[..] == u[ri + k := F.zero];
  }

  lemma TrailingElimination<S(!new)>(F: Field<S>, A: Mat<S>, n: nat, k: nat, i: nat, x: S)
    requires F.Lawful() && IsMat(A, n, n) && k < i < n && A[k][k] != F.zero && x == F.mul(A[i][k], F.inv(A[k][k]))
    ensures var T := Trailing(A, n, k);
      Trailing(A[i := EliminatedRow(F, A[i], A[k], k, x)], n, k) == T[i - k := AddScaled(F, T[i - k], F.neg(x), T[0])]
  {
    var T := Trailing(A, n, k);
    var row := EliminatedRow(F, A[i], A[k], k, x);
    var w := AddScaled(F, T[i - k], F.neg(x), T[0]);
    assert w[0] == F.zero by {
      var pv := A[k][k];
      F.SubMul(A[i][k], x, pv);
      assert F.MulAssoc(A[i][k], F.inv(pv), pv) && F.MulComm(F.inv(pv), pv) && F.MulInv(pv) && F.MulOne(A[i][k]);
      F.SubSelf(A[i][k]);
    }
    assert row[k..] == w;
  }

  /** Forward elimination below the pivot of column k. */
  method ClearBelow<S(==, !new)>(F: Field<S>, a: Matrix<S>, k: nat)
    requires F.Lawful() && a.Valid() && a.m == a.n && k < a.n && a.Rows()[k][k] != F.zero
    modifies a.v
    ensures Det(F, Trailing(a.Rows(), a.n, k), a.n - k) == Det(F, Trailing(old(a.Rows()), a.n, k), a.n - k)
    ensures a.Rows()[k] == old(a.Rows())[k]
    ensures forall r :: k < r < a.n ==> a.Rows()[r][k] == F.zero
  {
    hide Det, Trailing, RowsOf, AddScaled;
    var n := a.n;
    for i := k + 1 to n
      invariant Det(F, Trailing(a.Rows(), n, k), n - k) == Det(F, Trailing(old(a.Rows()), n, k), n - k)
      invariant a.Rows()[k] == old(a.Rows())[k]
      invariant forall r :: k < r < i ==> a.Rows()[r][k] == F.zero
    {
      ghost var A := a.Rows();
      var factor := F.mul(a.Get(i, k), F.inv(a.Get(k, k)));
      EliminateRowAssign(F, a, i, k, k, factor);
      TrailingElimination(F, A, n, k, i, factor);
      RowAdded(F, Trailing(A, n, k), n - k, i - k, F.neg(factor), 0);
    }
  }

  /** What is left to multiply: (det * sign) times the determinant of the trailing block. */
  ghost predicate PartialProduct<S(!new)>(F: Field<S>, M: Mat<S>, A: Mat<S>, n: nat, k: nat, det: S, sign: S)
    requires IsMat(M, n, n) && IsMat(A, n, n) && k <= n
  {
    F.mul(F.mul(det, sign), Det(F, Trailing(A, n, k), n - k)) == Det(F, M, n)
  }

  lemma ProductAfterSwap<S(!new)>(F: Field<S>, M: Mat<S>, A: Mat<S>, n: nat, k: nat, i: nat, det: S, sign: S)
    requires F.Lawful() && IsMat(M, n, n) && IsMat(A, n, n) && k < i < n && PartialProduct(F, M, A, n, k, det, sign)
    ensures PartialProduct(F, M, SwapRows(A, k, i), n, k, det, F.neg(sign))
  {
    TrailingSwap(A, n, k, i);
    var T := Trailing(A, n, k);
    var D := Det(F, T, n - k);
    RowsSwapped(F, T, n - k, 0, i - k);
    F.NegMul(det, sign);
    F.NegMul(F.mul(det, sign), F.neg(D));
    F.NegMul(F.mul(det, sign), D);
    F.NegNeg(F.mul(F.mul(det, sign), D));
  }

  lemma ProductAfterPivot<S(!new)>(F: Field<S>, M: Mat<S>, A: Mat<S>, n: nat, k: nat, det: S, sign: S)
    requires F.Lawful() && IsMat(M, n, n) && IsMat(A, n, n) && k < n && PartialProduct(F, M, A, n, k, det, sign)
    requires forall r :: k < r < n ==> A[r][k] == F.zero
    ensures PartialProduct(F, M, A, n, k + 1, F.mul(det, A[k][k]), sign)
  {
    var T := Trailing(A, n, k);
    CornerExpansion(F, T, n - k);
    TrailingMinor(A, n, k);
    var pv, E := A[k][k], Det(F, Trailing(A, n, k + 1), n - k - 1);
    assert F.MulAssoc(F.mul(det, sign), pv, E);
    assert F.MulAssoc(det, sign, pv) && F.MulComm(sign, pv) && F.MulAssoc(det, pv, sign);
  }

  lemma ProductStuck<S(!new)>(F: Field<S>, M: Mat<S>, A: Mat<S>, n: nat, k: nat, det: S, sign: S)
    requires F.Lawful() && IsMat(M, n, n) && IsMat(A, n, n) && k < n && PartialProduct(F, M, A, n, k, det, sign)
    requires forall r :: k <= r < n ==> A[r][k] == F.zero
    ensures Det(F, M, n) == F.zero
  {
    VanishingTerms(F, Trailing(A, n, k), n - k, 0);
    F.MulZero(F.mul(det, sign));
  }

  /** Step k of Determinant, or the news that column k has no pivot. */
  method FactorOut<S(==, !new)>(F: Field<S>, a: Matrix<S>, k: nat, det: S, sign: S, ghost M: Mat<S>)
    returns (found: bool, det': S, sign': S)
    requires F.Lawful() && a.Valid() && a.m == a.n && k < a.n
    requires IsMat(M, a.n, a.n) && PartialProduct(F, M, a.Rows(), a.n, k, det, sign)
    modifies a.v
    ensures found ==> PartialProduct(F, M, a.Rows(), a.n, k + 1, det', sign')
    ensures !found ==> Det(F, M, a.n) == F.zero
  {
    det', sign' := det, sign;
    var pivot := FindPivot(F, a, k, k);
    if pivot == a.n {
      ProductStuck(F, M, a.Rows(), a.n, k, det, sign);
      return false, det', sign';
    }
    if pivot != k {
      ProductAfterSwap(F, M, a.Rows(), a.n, k, pivot, det, sign);
      a.SwapRowAssign(k, pivot);
      sign' := F.neg(sign);
    }
    det' := F.mul(det, a.Get(k, k));
    ClearBelow(F, a, k);
    ProductAfterPivot(F, M, a.Rows(), a.n, k, det, sign');
    return true, det', sign';
  }

  /** Gaussian elimination computes the Laplace determinant. */
  method Determinant<S(==, !new)>(F: Field<S>, M: Matrix<S>) returns (d: S)
    requires F.Lawful() && M.Valid() && M.m == M.n
    ensures d == Det(F, M.Rows(), M.n)
  {
    var n := M.n;
    var a := new Matrix(n, n, M.v[..]);
    var sign, det := F.one, F.one;
    UntouchedProduct(F, M.Rows(), n);
    for k := 0 to n
      invariant PartialProduct(F, M.Rows(), a.Rows(), n, k, det, sign)
    {
      var found;
      found, det, sign := FactorOut(F, a, k, det, sign, M.Rows());
      if !found {
        return F.zero;
      }
    }
    assert F.MulOne(F.mul(det, sign));
    return F.mul(det, sign);
  }

  lemma UntouchedProduct<S(!new)>(F: Field<S>, M: Mat<S>, n: nat)
    requires F.Lawful() && IsMat(M, n, n)
    ensures PartialProduct(F, M, M, n, 0, F.one, F.one)
  {
    assert Trailing(M, n, 0) == M;
    F.OneMul(F.one);
    F.OneMul(Det(F, M, n));
  }
}
