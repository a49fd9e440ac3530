/** Solving M * x = b and x * M = r by Gauss-Jordan elimination (pkg/base/mat/solver.go). */
module LinearSolver {
  import opened Options
  import opened Fields
  import opened Vectors
  import opened RowOperations
  import opened FlatMatrix

  /** x solves the system whose coefficients are the first n columns of A and whose right-hand
      side is the last one. */
  ghost predicate Solves<S(!new)>(F: Field<S>, A: Mat<S>, m: nat, n: nat, x: Vec<S>)
    requires IsMat(A, m, n + 1)
  {
    |x| == n && forall i :: 0 <= i < m ==> Dot(F, A[i][..n], x) == A[i][n]
  }

  ghost predicate NoSolution<S(!new)>(F: Field<S>, A: Mat<S>, m: nat, n: nat)
    requires IsMat(A, m, n + 1)
  {
    forall x: Vec<S> :: !Solves(F, A, m, n, x)
  }

  /** Column c is a linear combination of the columns to its left: variable c is free. */
  ghost predicate FreeColumn<S(!new)>(F: Field<S>, A: Mat<S>, m: nat, n: nat, c: nat)
    requires IsMat(A, m, n + 1) && c < n
  {
    exists y: Vec<S> :: Dependency(F, A, m, n, c, y)
  }

  ghost predicate Dependency<S(!new)>(F: Field<S>, A: Mat<S>, m: nat, n: nat, c: nat, y: Vec<S>)
    requires IsMat(A, m, n + 1) && c < n
  {
    && |y| == n && y[c] != F.zero
    && (forall j :: c < j < n ==> y[j] == F.zero)
    && forall i :: 0 <= i < m ==> Dot(F, A[i][..n], y) == F.zero
  }

  /** The solution whose free variables are all zero. */
  ghost predicate CanonicalSolution<S(!new)>(F: Field<S>, A: Mat<S>, m: nat, n: nat, x: Vec<S>)
    requires IsMat(A, m, n + 1)
  {
    Solves(F, A, m, n, x) && forall c :: 0 <= c < n && FreeColumn(F, A, m, n, c) ==> x[c] == F.zero
  }

  // A system is homogeneous in the vector (x, -1).

  lemma SolvesIsKernel<S(!new)>(F: Field<S>, A: Mat<S>, m: nat, n: nat, x: Vec<S>)
    requires F.Lawful() && IsMat(A, m, n + 1) && |x| == n
    ensures Solves(F, A, m, n, x) <==> Kills(F, A, m, n + 1, x + [F.neg(F.one)])
  {
    forall i | 0 <= i < m
      ensures Dot(F, A[i], x + [F.neg(F.one)]) == F.Sub(Dot(F, A[i][..n], x), A[i][n])
      ensures Dot(F, A[i], x + [F.neg(F.one)]) == F.zero <==> Dot(F, A[i][..n], x) == A[i][n]
    {
      LastTerm(F, A[i], x, F.neg(F.one));
      F.NegMul(A[i][n], F.one);
      assert F.MulOne(A[i][n]);
      F.SubIsZero(Dot(F, A[i][..n], x), A[i][n]);
    }
  }

  lemma LastTerm<S(!new)>(F: Field<S>, a: Vec<S>, x: Vec<S>, t: S)
    requires F.Lawful() && |a| == |x| + 1
    ensures Dot(F, a, x + [t]) == F.add(Dot(F, a[..|x|], x), F.mul(a[|x|], t))
  {
    assert a == a[..|x|] + [a[|x|]];
    DotConcat(F, a[..|x|], x, [a[|x|]], [t]);
    DotSingle(F, [a[|x|]], [t], 0);
  }

  lemma DependencyIsKernel<S(!new)>(F: Field<S>, A: Mat<S>, m: nat, n: nat, y: Vec<S>)
    requires F.Lawful() && IsMat(A, m, n + 1) && |y| == n
    ensures Kills(F, A, m, n + 1, y + [F.zero]) <==> forall i :: 0 <= i < m ==> Dot(F, A[i][..n], y) == F.zero
  {
    forall i | 0 <= i < m ensures Dot(F, A[i], y + [F.zero]) == Dot(F, A[i][..n], y) {
      LastTerm(F, A[i], y, F.zero);
      F.MulZero(A[i][n]);
      assert F.AddZero(Dot(F, A[i][..n], y));
    }
  }

  /** The canonical solution is unique. */
  lemma CanonicalIsUnique<S(!new)>(F: Field<S>, A: Mat<S>, m: nat, n: nat, x: Vec<S>, x': Vec<S>)
    requires F.Lawful() && IsMat(A, m, n + 1)
    requires CanonicalSolution(F, A, m, n, x) && CanonicalSolution(F, A, m, n, x')
    ensures x == x'
  {
    var y := AddScaled(F, x, F.neg(F.one), x');
    forall j | 0 <= j < n ensures y[j] == F.Sub(x[j], x'[j]) && (y[j] == F.zero <==> x[j] == x'[j]) {
      F.NegMul(F.one, x'[j]);
      F.OneMul(x'[j]);
      F.SubIsZero(x[j], x'[j]);
    }
    forall i | 0 <= i < m ensures Dot(F, A[i][..n], y) == F.zero {
      var a := A[i][..n];
      DotComm(F, a, y);
      DotAddScaled(F, x, F.neg(F.one), x', a);
      DotComm(F, x, a);
      DotComm(F, x', a);
      F.NegMul(F.one, A[i][n]);
      F.OneMul(A[i][n]);
      F.SubSelf(A[i][n]);
    }
    LastDifference(F, A, m, n, x, x', y, n);
  }

  /** No entry at or after c differs: the last one that did would witness a free column. */
  lemma {:induction false} LastDifference<S(!new)>(F: Field<S>, A: Mat<S>, m: nat, n: nat, x: Vec<S>, x': Vec<S>, y: Vec<S>, c: nat)
    requires F.Lawful() && IsMat(A, m, n + 1) && c <= n
    requires CanonicalSolution(F, A, m, n, x) && CanonicalSolution(F, A, m, n, x')
    requires |y| == n && forall j :: 0 <= j < n ==> (y[j] == F.zero <==> x[j] == x'[j])
    requires forall j :: c <= j < n ==> y[j] == F.zero
    requires forall i :: 0 <= i < m ==> Dot(F, A[i][..n], y) == F.zero
    ensures x == x'
  {
    hide FreeColumn;
    if c > 0 {
      DependencyFrees(F, A, m, n, c - 1, y);
      LastDifference(F, A, m, n, x, x', y, c - 1);
    }
  }

  /** A dependency among the columns that ends at column c makes variable c free. */
  lemma DependencyFrees<S(!new)>(F: Field<S>, A: Mat<S>, m: nat, n: nat, c: nat, y: Vec<S>)
    requires IsMat(A, m, n + 1) && c < n && |y| == n
    requires forall j :: c < j < n ==> y[j] == F.zero
    requires forall i :: 0 <= i < m ==> Dot(F, A[i][..n], y) == F.zero
    ensures y[c] == F.zero || FreeColumn(F, A, m, n, c)
  {
    if y[c] != F.zero {
      assert Dependency(F, A, m, n, c, y);
    }
  }

  /** A reduced row of zeros with a non-zero right-hand side rules out every solution. */
  lemma Inconsistent<S(!new)>(F: Field<S>, A: Mat<S>, R: Mat<S>, m: nat, n: nat, i: nat)
    requires F.Lawful() && IsMat(A, m, n + 1) && IsMat(R, m, n + 1) && SameKernel(F, R, A, m, n + 1)
    requires i < m && R[i][n] != F.zero && forall j :: 0 <= j < n ==> R[i][j] == F.zero
    ensures NoSolution(F, A, m, n)
  {
    forall x: Vec<S> ensures !Solves(F, A, m, n, x) {
      if |x| == n {
        DotVanish(F, R[i][..n], x);
        SolvesIsKernel(F, R, m, n, x);
        SolvesIsKernel(F, A, m, n, x);
      }
    }
  }

  /** Reading the pivots off a consistent reduced matrix gives a solution. */
  lemma EchelonSolution<S(!new)>(F: Field<S>, A: Mat<S>, m: nat, n: nat, piv: seq<nat>, c: nat, x: Vec<S>)
    requires F.Lawful() && IsMat(A, m, n + 1) && Echelon(F, A, m, n + 1, piv, c) && c <= n && |x| == n
    requires c == n || |piv| == m
    requires forall i :: |piv| <= i < m ==> A[i][n] == F.zero
    requires forall k :: 0 <= k < |piv| ==> x[piv[k]] == A[k][n]
    requires forall j :: 0 <= j < n && j !in piv ==> x[j] == F.zero
    ensures Solves(F, A, m, n, x)
  {
    forall i | 0 <= i < m ensures Dot(F, A[i][..n], x) == A[i][n] {
      var a := A[i][..n];
      if i < |piv| {
        forall j | 0 <= j < n && j != piv[i] ensures a[j] == F.zero || x[j] == F.zero {
          if j in piv {
            var k :| 0 <= k < |piv| && piv[k] == j;
            assert A[i][piv[k]] == F.zero;
          }
        }
        DotSingle(F, a, x, piv[i]);
        assert A[i][piv[i]] == F.one;
        F.OneMul(x[piv[i]]);
      } else {
        DotVanish(F, a, x);
      }
    }
  }

  /** A pivot column of a reduced matrix is not free. */
  lemma PivotColumnNotFree<S(!new)>(F: Field<S>, A: Mat<S>, m: nat, n: nat, piv: seq<nat>, c: nat, k: nat, y: Vec<S>)
    requires F.Lawful() && IsMat(A, m, n + 1) && Echelon(F, A, m, n + 1, piv, c) && c <= n && k < |piv| && |y| == n
    requires Kills(F, A, m, n + 1, y + [F.zero])
    requires forall j :: piv[k] < j < n ==> y[j] == F.zero
    ensures y[piv[k]] == F.zero
  {
    DotSingle(F, A[k], y + [F.zero], piv[k]);
    F.OneMul(y[piv[k]]);
  }

  /** The solution read off the reduced matrix is the canonical one of the original system. */
  lemma ReadOff<S(!new)>(F: Field<S>, A: Mat<S>, R: Mat<S>, m: nat, n: nat, piv: seq<nat>, c: nat, x: Vec<S>)
    requires F.Lawful() && IsMat(A, m, n + 1) && IsMat(R, m, n + 1) && SameKernel(F, R, A, m, n + 1)
    requires Echelon(F, R, m, n + 1, piv, c) && c <= n && |x| == n && (c == n || |piv| == m)
    requires forall i :: |piv| <= i < m ==> R[i][n] == F.zero
    requires forall k :: 0 <= k < |piv| ==> x[piv[k]] == R[k][n]
    requires forall j :: 0 <= j < n && j !in piv ==> x[j] == F.zero
    ensures CanonicalSolution(F, A, m, n, x)
  {
    EchelonSolution(F, R, m, n, piv, c, x);
    SolvesIsKernel(F, R, m, n, x);
    SolvesIsKernel(F, A, m, n, x);
    forall j | 0 <= j < n && FreeColumn(F, A, m, n, j) ensures x[j] == F.zero {
      FreeVariableIsZero(F, A, R, m, n, piv, c, j);
    }
  }

  /** The elimination loop: the matrix becomes reduced and its solution set stays the same. */
  method Reduce<S(==, !new)>(F: Field<S>, aug: Matrix<S>) returns (pivotCols: seq<nat>, ghost pc: nat)
    requires F.Lawful() && aug.Valid() && aug.n >= 1
    modifies aug.v
    ensures pc < aug.n && (pc == aug.n - 1 || |pivotCols| == aug.m)
    ensures Echelon(F, aug.Rows(), aug.m, aug.n, pivotCols, pc)
    ensures SameKernel(F, aug.Rows(), old(aug.Rows()), aug.m, aug.n)
  {
    var rows, cols := aug.m, aug.n;
    var numVars := cols - 1;
    ghost var A := aug.Rows();
    pivotCols, pc := [], 0;
    EchelonStart(F, A, rows, cols);
    hide Echelon, SameKernel, PivotStep;
    var col := 0;
    while col < numVars && |pivotCols| < rows
      invariant pc == col <= numVars
      invariant Echelon(F, aug.Rows(), rows, cols, pivotCols, col)
      invariant SameKernel(F, aug.Rows(), A, rows, cols)
    {
      ghost var B := aug.Rows();
      var pr := FindPivot(F, aug, col, |pivotCols|);
      if pr < rows {
        GaussJordanStep(F, aug, |pivotCols|, pr, col);
        EchelonPivot(F, B, rows, cols, pivotCols, pr, col);
        SameKernelStep(F, A, B, rows, cols, |pivotCols|, pr, col);
        pivotCols := pivotCols + [col];
      } else {
        assert aug.Rows() == B;
        EchelonSkip(F, B, rows, cols, pivotCols, col);
      }
      col, pc := col + 1, pc + 1;
    }
  }

  /** The first row at or below start with a non-zero entry in the column; m if there is none. */
  method FindPivot<S(==, !new)>(F: Field<S>, a: Matrix<S>, col: nat, start: nat) returns (r: nat)
    requires a.Valid() && col < a.n && start <= a.m
    ensures start <= r <= a.m
    ensures forall k :: start <= k < r ==> a.Rows()[k][col] == F.zero
    ensures r < a.m ==> a.Rows()[r][col] != F.zero
  {
    r := start;
    while r < a.m && a.Get(r, col) == F.zero
      invariant start <= r <= a.m
      invariant forall k :: start <= k < r ==> a.Rows()[k][col] == F.zero
    {
      r := r + 1;
    }
  }

  /** Gauss-Jordan elimination on [A | b]: returns the one solution whose free variables are
      zero, or nothing when there is no solution at all. */
  method SolveAugmented<S(==, !new)>(F: Field<S>, aug: Matrix<S>) returns (sol: Option<seq<S>>)
    requires F.Lawful() && aug.Valid() && aug.n >= 1
    modifies aug.v
    ensures sol.Some? ==> CanonicalSolution(F, old(aug.Rows()), aug.m, aug.n - 1, sol.value)
    ensures sol.None? ==> NoSolution(F, old(aug.Rows()), aug.m, aug.n - 1)
  {
    hide SameKernel, NoSolution, CanonicalSolution, RowsOf;
    var numVars := aug.n - 1;
    ghost var A := aug.Rows();
    var pivotCols, pc := Reduce(F, aug);
    ghost var R := aug.Rows();

    // a non-zero entry below the pivots in the last column refutes every solution
    var i := FindPivot(F, aug, numVars, |pivotCols|);
    if i < aug.m {
      Inconsistent(F, A, R, aug.m, numVars, i);
      return None;
    }

    // the pivot rows read off the pivot variables; the others stay zero
    var x := new S[numVars](_ => F.zero);
    for k := 0 to |pivotCols|
      invariant forall l :: 0 <= l < k ==> x[pivotCols[l]] == R[l][numVars]
      invariant forall j :: 0 <= j < numVars && j !in pivotCols ==> x[j] == F.zero
      invariant aug.Rows() == R
    {
      x[pivotCols[k]] := aug.Get(k, numVars);
    }
    ReadOff(F, A, R, aug.m, numVars, pivotCols, pc, x[..]);
    return Some(x[..]);
  }

  lemma FreeVariableIsZero<S(!new)>(F: Field<S>, A: Mat<S>, R: Mat<S>, m: nat, n: nat, piv: seq<nat>, c: nat, j: nat)
    requires F.Lawful() && IsMat(A, m, n + 1) && IsMat(R, m, n + 1) && Echelon(F, R, m, n + 1, piv, c) && c <= n
    requires SameKernel(F, R, A, m, n + 1)
    requires j < n && FreeColumn(F, A, m, n, j)
    ensures j !in piv
  {
    var y :| Dependency(F, A, m, n, j, y);
    DependencyIsKernel(F, A, m, n, y);
    if j in piv {
      var k :| 0 <= k < |piv| && piv[k] == j;
      PivotColumnNotFree(F, R, m, n, piv, c, k, y);
    }
  }

  /** Swap, scale and eliminate, as solveAugmented does for one pivot column. */
  method GaussJordanStep<S(==, !new)>(F: Field<S>, a: Matrix<S>, p: nat, pr: nat, c: nat)
    requires F.Lawful() && a.Valid() && p <= pr < a.m && c < a.n && a.Get(pr, c) != F.zero
    modifies a.v
    ensures a.Rows() == PivotStep(F, old(a.Rows()), a.m, a.n, p, pr, c)
  {
    if pr != p {
      a.SwapRowAssign(p, pr);
    }
    a.ScaleRowAssign(F, p, F.inv(a.Get(p, c)));
    ClearColumnAssign(F, a, p, c);
  }

  method ClearRowAssign<S(==, !new)>(F: Field<S>, a: Matrix<S>, p: nat, c: nat, i: nat)
    requires F.Lawful() && a.Valid() && p < a.m && c < a.n && i < a.m
    modifies a.v
    ensures a.Rows() == ClearRow(F, old(a.Rows()), a.m, a.n, p, c, i)
  {
    var factor := a.Get(i, c);
    if i != p && factor != F.zero {
      a.SubtractRowAssign(F, i, p, factor);
    }
  }

  method ClearColumnAssign<S(==, !new)>(F: Field<S>, a: Matrix<S>, p: nat, c: nat)
    requires F.Lawful() && a.Valid() && p < a.m && c < a.n
    modifies a.v
    ensures a.Rows() == ClearColumn(F, old(a.Rows()), a.m, a.n, p, c)
  {
    ghost var C := a.Rows();
    for i := 0 to a.m
      invariant a.Rows() == ClearedUpTo(F, C, a.m, a.n, p, c, i)
    {
      ClearNextRow(F, C, a.m, a.n, p, c, i);
      ClearRowAssign(F, a, p, c, i);
    }
  }

  datatype Outcome<+T> = Solution(x: T) | Unsolvable | DimensionMismatch

  /** [M | b] */
  ghost function Augmented<S>(M: Mat<S>, m: nat, n: nat, b: Vec<S>): (r: Mat<S>)
    requires IsMat(M, m, n) && |b| == m
    ensures IsMat(r, m, n + 1)
    ensures forall i :: 0 <= i < m ==> r[i][..n] == M[i] && r[i][n] == b[i]
  {
    seq(m, i requires 0 <= i < m => M[i] + [b[i]])
  }

  /** M * x == b */
  ghost predicate RightSolution<S(!new)>(F: Field<S>, M: Mat<S>, m: nat, n: nat, b: Vec<S>, x: Vec<S>)
    requires IsMat(M, m, n) && |b| == m
  {
    |x| == n && MatVec(F, M, x) == b
  }

  /** x * M == r */
  ghost predicate LeftSolution<S(!new)>(F: Field<S>, M: Mat<S>, m: nat, n: nat, r: Vec<S>, x: Vec<S>)
    requires IsMat(M, m, n) && |r| == n
  {
    |x| == m && forall j :: 0 <= j < n ==> Dot(F, x, Column(M, m, n, j)) == r[j]
  }

  lemma AugmentedSolution<S(!new)>(F: Field<S>, M: Mat<S>, m: nat, n: nat, b: Vec<S>, x: Vec<S>)
    requires IsMat(M, m, n) && |b| == m
    ensures Solves(F, Augmented(M, m, n, b), m, n, x) <==> RightSolution(F, M, m, n, b, x)
  {
    if |x| == n {
      var A := Augmented(M, m, n, b);
      assert forall i :: 0 <= i < m ==> MatVec(F, M, x)[i] == Dot(F, A[i][..n], x);
      if RightSolution(F, M, m, n, b, x) {
        forall i | 0 <= i < m ensures Dot(F, A[i][..n], x) == A[i][n] {
          assert MatVec(F, M, x)[i] == b[i];
        }
      }
    }
  }

  lemma TransposedSolution<S(!new)>(F: Field<S>, M: Mat<S>, m: nat, n: nat, r: Vec<S>, x: Vec<S>)
    requires F.Lawful() && IsMat(M, m, n) && |r| == n
    ensures RightSolution(F, Transpose(M, m, n), n, m, r, x) <==> LeftSolution(F, M, m, n, r, x)
  {
    if |x| == m {
      var T := Transpose(M, m, n);
      forall j | 0 <= j < n ensures MatVec(F, T, x)[j] == Dot(F, x, Column(M, m, n, j)) {
        DotComm(F, x, Column(M, m, n, j));
        assert T[j] == Column(M, m, n, j);
      }
    }
  }

  ghost predicate NoRightSolution<S(!new)>(F: Field<S>, M: Mat<S>, m: nat, n: nat, b: Vec<S>)
    requires IsMat(M, m, n) && |b| == m
  {
    forall x: Vec<S> :: !RightSolution(F, M, m, n, b, x)
  }

  ghost predicate NoLeftSolution<S(!new)>(F: Field<S>, M: Mat<S>, m: nat, n: nat, r: Vec<S>)
    requires IsMat(M, m, n) && |r| == n
  {
    forall x: Vec<S> :: !LeftSolution(F, M, m, n, r, x)
  }

  lemma AugmentedSystem<S(!new)>(F: Field<S>, M: Mat<S>, m: nat, n: nat, b: Vec<S>)
    requires IsMat(M, m, n) && |b| == m
    ensures forall x: Vec<S> :: CanonicalSolution(F, Augmented(M, m, n, b), m, n, x) ==> RightSolution(F, M, m, n, b, x)
    ensures NoSolution(F, Augmented(M, m, n, b), m, n) <==> NoRightSolution(F, M, m, n, b)
  {
    forall x: Vec<S>
      ensures Solves(F, Augmented(M, m, n, b), m, n, x) <==> RightSolution(F, M, m, n, b, x)
    {
      AugmentedSolution(F, M, m, n, b, x);
    }
  }

  lemma TransposedSystem<S(!new)>(F: Field<S>, M: Mat<S>, m: nat, n: nat, r: Vec<S>)
    requires F.Lawful() && IsMat(M, m, n) && |r| == n
    ensures forall x: Vec<S> :: RightSolution(F, Transpose(M, m, n), n, m, r, x) <==> LeftSolution(F, M, m, n, r, x)
    ensures NoRightSolution(F, Transpose(M, m, n), n, m, r) <==> NoLeftSolution(F, M, m, n, r)
  {
    forall x: Vec<S>
      ensures RightSolution(F, Transpose(M, m, n), n, m, r, x) <==> LeftSolution(F, M, m, n, r, x)
    {
      TransposedSolution(F, M, m, n, r, x);
    }
  }

  /** The row-major data of [M | b]. */
  method Augment<S(==, !new)>(M: Matrix<S>, b: seq<S>) returns (data: seq<S>)
    requires M.Valid() && |b| == M.m
    ensures |data| == M.m * (M.n + 1)
    ensures RowsOf(data, M.m, M.n + 1) == Augmented(M.Rows(), M.m, M.n, b)
  {
    ghost var A := Augmented(M.Rows(), M.m, M.n, b);
    data := [];
    for i := 0 to M.m
      invariant |data| == i * (M.n + 1) && RowsOf(data, i, M.n + 1) == A[..i]
    {
      var row := M.CopyRow(i);
      AppendRow(data, i, M.n + 1, row + [b[i]]);
      data := data + (row + [b[i]]);
    }
  }

  /** The row-major data of [M^T | t^T]. */
  method AugmentTransposed<S(==, !new)>(M: Matrix<S>, t: seq<S>) returns (data: seq<S>)
    requires M.Valid() && |t| == M.n
    ensures |data| == M.n * (M.m + 1)
    ensures RowsOf(data, M.n, M.m + 1) == Augmented(Transpose(M.Rows(), M.m, M.n), M.n, M.m, t)
  {
    ghost var A := Augmented(Transpose(M.Rows(), M.m, M.n), M.n, M.m, t);
    data := [];
    for i := 0 to M.n
      invariant |data| == i * (M.m + 1) && RowsOf(data, i, M.m + 1) == A[..i]
    {
      var col := M.CopyColumn(i);
      assert A[i] == col + [t[i]];
      AppendRow(data, i, M.m + 1, col + [t[i]]);
      data := data + (col + [t[i]]);
    }
  }

  /** Solves M * x = b: x is the one solution whose free variables are zero. */
  method SolveRight<S(==, !new)>(F: Field<S>, M: Matrix<S>, column: Matrix<S>) returns (r: Outcome<seq<S>>)
    requires F.Lawful() && M.Valid() && column.Valid()
    ensures r.DimensionMismatch? <==> column.n != 1 || column.m != M.m
    ensures r.Solution? ==>
      var b := Column(column.Rows(), M.m, 1, 0);
      && RightSolution(F, M.Rows(), M.m, M.n, b, r.x)
      && CanonicalSolution(F, Augmented(M.Rows(), M.m, M.n, b), M.m, M.n, r.x)
    ensures r.Unsolvable? ==>
      NoRightSolution(F, M.Rows(), M.m, M.n, Column(column.Rows(), M.m, 1, 0))
  {
    if column.n != 1 || column.m != M.m {
      return DimensionMismatch;
    }
    var b := column.CopyColumn(0);
    var data := Augment(M, b);
    r := Finish(F, M.m, M.n, data);
    AugmentedSystem(F, M.Rows(), M.m, M.n, b);
  }

  /** Solves x * M = r through the transposed system. */
  method SolveLeft<S(==, !new)>(F: Field<S>, M: Matrix<S>, row: Matrix<S>) returns (r: Outcome<seq<S>>)
    requires F.Lawful() && M.Valid() && row.Valid()
    ensures r.DimensionMismatch? <==> row.m != 1 || row.n != M.n
    ensures r.Solution? ==>
      var t := row.Rows()[0];
      && LeftSolution(F, M.Rows(), M.m, M.n, t, r.x)
      && CanonicalSolution(F, Augmented(Transpose(M.Rows(), M.m, M.n), M.n, M.m, t), M.n, M.m, r.x)
    ensures r.Unsolvable? ==> NoLeftSolution(F, M.Rows(), M.m, M.n, row.Rows()[0])
  {
    if row.m != 1 || row.n != M.n {
      return DimensionMismatch;
    }
    var t := row.CopyRow(0);
    var data := AugmentTransposed(M, t);
    r := Finish(F, M.n, M.m, data);
    AugmentedSystem(F, Transpose(M.Rows(), M.m, M.n), M.n, M.m, t);
    TransposedSystem(F, M.Rows(), M.m, M.n, t);
  }

  method Finish<S(==, !new)>(F: Field<S>, m: nat, n: nat, data: seq<S>) returns (r: Outcome<seq<S>>)
    requires F.Lawful() && |data| == m * (n + 1)
    ensures !r.DimensionMismatch?
    ensures r.Solution? ==> CanonicalSolution(F, RowsOf(data, m, n + 1), m, n, r.x)
    ensures r.Unsolvable? ==> NoSolution(F, RowsOf(data, m, n + 1), m, n)
  {
    var aug := new Matrix(m, n + 1, data);
    var sol := SolveAugmented(F, aug);
    r := if sol.Some? then Solution(sol.value) else Unsolvable;
  }
}
