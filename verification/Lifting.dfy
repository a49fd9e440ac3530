/** Matrices and polynomials with entries in a module: lifting scalars to multiples of a base
    point, and the action of scalar matrices (pkg/base/mat/module_valued.go,
    pkg/base/polynomials/polynomial_module.go). */
module Lifting {
  import opened Fields
  import opened Vectors
  import opened FlatMatrix
  import opened Modules
  import opened Polynomials

  datatype MatrixResult<+T> = Ok(value: T) | DimensionError

  /** Entry (i, j) is the combination of column j of X with the coefficients in row i of A. */
  ghost function ActMat<E(!new), S(!new)>(M: Module<E, S>, A: Mat<S>, X: Mat<E>, m: nat, p: nat, n: nat): (r: Mat<E>)
    requires IsMat(A, m, p) && IsMat(X, p, n)
    ensures IsMat(r, m, n)
  {
    seq(m, i requires 0 <= i < m => seq(n, j requires 0 <= j < n => Comb(M, A[i], Column(X, p, n, j))))
  }

  /** Entry (i, j) is the combination of row i of X with the coefficients in column j of A. */
  ghost function ActMatRight<E(!new), S(!new)>(M: Module<E, S>, X: Mat<E>, A: Mat<S>, m: nat, p: nat, n: nat): (r: Mat<E>)
    requires IsMat(X, m, p) && IsMat(A, p, n)
    ensures IsMat(r, m, n)
  {
    seq(m, i requires 0 <= i < m => seq(n, j requires 0 <= j < n => Comb(M, Column(A, p, n, j), X[i])))
  }

  ghost function LiftMat<E(!new), S(!new)>(M: Module<E, S>, A: Mat<S>, m: nat, n: nat, base: E): (r: Mat<E>)
    requires IsMat(A, m, n)
    ensures IsMat(r, m, n)
  {
    seq(m, i requires 0 <= i < m => LiftVec(M, A[i], base))
  }

  // ----- The laws

  /** Lifting commutes with linear maps from the left: A acts on lift(R) as lift(A * R). */
  lemma LeftActionOfLift<E(!new), S(!new)>(M: Module<E, S>, A: Mat<S>, R: Mat<S>, m: nat, p: nat, n: nat, base: E)
    requires M.Lawful() && IsMat(A, m, p) && IsMat(R, p, n)
    ensures ActMat(M, A, LiftMat(M, R, p, n, base), m, p, n) == LiftMat(M, MatMul(M.scalars, A, R, m, p, n), m, n, base)
  {
    var L := ActMat(M, A, LiftMat(M, R, p, n, base), m, p, n);
    var P := LiftMat(M, MatMul(M.scalars, A, R, m, p, n), m, n, base);
    forall i | 0 <= i < m ensures L[i] == P[i] {
      forall j | 0 <= j < n ensures L[i][j] == P[i][j] {
        assert Column(LiftMat(M, R, p, n, base), p, n, j) == LiftVec(M, Column(R, p, n, j), base);
        CombLift(M, A[i], Column(R, p, n, j), base);
      }
    }
  }

  /** ... and from the right. */
  lemma RightActionOfLift<E(!new), S(!new)>(M: Module<E, S>, R: Mat<S>, A: Mat<S>, m: nat, p: nat, n: nat, base: E)
    requires M.Lawful() && IsMat(R, m, p) && IsMat(A, p, n)
    ensures ActMatRight(M, LiftMat(M, R, m, p, base), A, m, p, n) == LiftMat(M, MatMul(M.scalars, R, A, m, p, n), m, n, base)
  {
    var L := ActMatRight(M, LiftMat(M, R, m, p, base), A, m, p, n);
    var P := LiftMat(M, MatMul(M.scalars, R, A, m, p, n), m, n, base);
    forall i | 0 <= i < m ensures L[i] == P[i] {
      forall j | 0 <= j < n ensures L[i][j] == P[i][j] {
        CombLift(M, Column(A, p, n, j), R[i], base);
        DotComm(M.scalars, Column(A, p, n, j), R[i]);
      }
    }
  }

  /** Acting twice is acting with the product, whatever the entries of X. */
  lemma LeftActionIsAction<E(!new), S(!new)>(M: Module<E, S>, A: Mat<S>, B: Mat<S>, X: Mat<E>, m: nat, p: nat, q: nat, n: nat)
    requires M.Lawful() && IsMat(A, m, p) && IsMat(B, p, q) && IsMat(X, q, n)
    ensures ActMat(M, A, ActMat(M, B, X, p, q, n), m, p, n) == ActMat(M, MatMul(M.scalars, A, B, m, p, q), X, m, q, n)
  {
    var BX := ActMat(M, B, X, p, q, n);
    var L := ActMat(M, A, BX, m, p, n);
    var R := ActMat(M, MatMul(M.scalars, A, B, m, p, q), X, m, q, n);
    forall i | 0 <= i < m ensures L[i] == R[i] {
      forall j | 0 <= j < n ensures L[i][j] == R[i][j] {
        var x := Column(X, q, n, j);
        assert Column(BX, p, n, j) == ActVec(M, B, x);
        Exchange(M, A[i], B, x);
        RowTimesIsProductRow(M.scalars, A, B, m, p, q, i);
      }
    }
  }

  lemma RowTimesIsProductRow<S(!new)>(F: Field<S>, A: Mat<S>, B: Mat<S>, m: nat, p: nat, q: nat, i: nat)
    requires IsMat(A, m, p) && IsMat(B, p, q) && i < m
    ensures RowTimes(F, A[i], B, q) == MatMul(F, A, B, m, p, q)[i]
  {
    forall k | 0 <= k < q ensures RowTimes(F, A[i], B, q)[k] == MatMul(F, A, B, m, p, q)[i][k] {
      RowTimesEntry(F, A[i], B, q, k);
    }
  }

  // ----- The operations on flat matrices

  method Lift<E(==, !new), S(==, !new)>(M: Module<E, S>, A: Matrix<S>, base: E) returns (r: MatrixResult<Matrix<E>>)
    requires A.Valid()
    ensures r.DimensionError? <==> A.m == 0 || A.n == 0
    ensures r.Ok? ==> fresh(r.value) && r.value.Valid() && r.value.m == A.m && r.value.n == A.n
    ensures r.Ok? ==> r.value.Rows() == LiftMat(M, A.Rows(), A.m, A.n, base)
    ensures r.Ok? ==> forall i, j :: 0 <= i < A.m && 0 <= j < A.n ==> r.value.Rows()[i][j] == M.act(A.Rows()[i][j], base)
  {
    if A.m == 0 || A.n == 0 {
      return DimensionError;
    }
    var elements: seq<E> := [];
    for i := 0 to A.v.Length
      invariant elements == LiftVec(M, A.v[..i], base)
    {
      elements := elements + [M.act(A.v[i], base)];
    }
    assert A.v[..A.v.Length] == A.v[..];
    LiftedRows(M, A.v[..], A.m, A.n, base);
    var out := new Matrix(A.m, A.n, elements);
    r := Ok(out);
  }

  lemma LiftedRows<E(!new), S(!new)>(M: Module<E, S>, s: seq<S>, m: nat, n: nat, base: E)
    requires |s| == m * n
    ensures RowsOf(LiftVec(M, s, base), m, n) == LiftMat(M, RowsOf(s, m, n), m, n, base)
  {
    var L, R := RowsOf(LiftVec(M, s, base), m, n), LiftMat(M, RowsOf(s, m, n), m, n, base);
    forall i | 0 <= i < m ensures L[i] == R[i] {
      forall j | 0 <= j < n ensures L[i][j] == R[i][j] {
        IndexInRange(m, n, i, j);
      }
    }
  }

  /** The accumulation over k: the combination of the elements x with the coefficients a. */
  method Accumulate<E(!new), S(!new)>(M: Module<E, S>, a: seq<S>, x: seq<E>) returns (sum: E)
    requires M.Abelian() && |a| == |x|
    ensures sum == Comb(M, a, x)
  {
    sum := M.id;
    for k := 0 to |a|
      invariant sum == Comb(M, a[..k], x[..k])
    {
      CombNext(M, a, x, k);
      sum := M.op(sum, M.act(a[k], x[k]));
    }
    assert a[..|a|] == a && x[..|x|] == x;
  }

  method ActRow<E(==, !new), S(==, !new)>(M: Module<E, S>, A: Matrix<S>, X: Matrix<E>, i: nat) returns (row: seq<E>)
    requires M.Lawful() && A.Valid() && X.Valid() && A.n == X.m && i < A.m
    ensures row == ActMat(M, A.Rows(), X.Rows(), A.m, A.n, X.n)[i]
  {
    ghost var expected := ActMat(M, A.Rows(), X.Rows(), A.m, A.n, X.n)[i];
    row := [];
    var a := A.CopyRow(i);
    for j := 0 to X.n
      invariant row == expected[..j]
    {
      var x := X.CopyColumn(j);
      var sum := Accumulate(M, a, x);
      row := row + [sum];
    }
  }

  /** The left action of a scalar matrix. */
  method LeftAction<E(==, !new), S(==, !new)>(M: Module<E, S>, A: Matrix<S>, X: Matrix<E>) returns (r: MatrixResult<Matrix<E>>)
    requires M.Lawful() && A.Valid() && X.Valid()
    ensures r.DimensionError? <==> A.n != X.m || A.m == 0 || X.n == 0
    ensures r.Ok? ==> fresh(r.value) && r.value.Valid() && r.value.m == A.m && r.value.n == X.n
    ensures r.Ok? ==> r.value.Rows() == ActMat(M, A.Rows(), X.Rows(), A.m, A.n, X.n)
  {
    if A.n != X.m || A.m == 0 || X.n == 0 {
      return DimensionError;
    }
    ghost var expected := ActMat(M, A.Rows(), X.Rows(), A.m, A.n, X.n);
    var elements: seq<E> := [];
    for i := 0 to A.m
      invariant |elements| == i * X.n
      invariant RowsOf(elements, i, X.n) == expected[..i]
    {
      var row := ActRow(M, A, X, i);
      AppendRow(elements, i, X.n, row);
      elements := elements + row;
    }
    var out := new Matrix(A.m, X.n, elements);
    r := Ok(out);
  }

  method ActRowRight<E(==, !new), S(==, !new)>(M: Module<E, S>, X: Matrix<E>, A: Matrix<S>, i: nat) returns (row: seq<E>)
    requires M.Lawful() && A.Valid() && X.Valid() && X.n == A.m && i < X.m
    ensures row == ActMatRight(M, X.Rows(), A.Rows(), X.m, X.n, A.n)[i]
  {
    ghost var expected := ActMatRight(M, X.Rows(), A.Rows(), X.m, X.n, A.n)[i];
    row := [];
    var x := X.CopyRow(i);
    for j := 0 to A.n
      invariant row == expected[..j]
    {
      var a := A.CopyColumn(j);
      var sum := Accumulate(M, a, x);
      row := row + [sum];
    }
  }

  /** The right action of a scalar matrix. */
  method RightAction<E(==, !new), S(==, !new)>(M: Module<E, S>, X: Matrix<E>, A: Matrix<S>) returns (r: MatrixResult<Matrix<E>>)
    requires M.Lawful() && A.Valid() && X.Valid()
    ensures r.DimensionError? <==> X.n != A.m || X.m == 0 || A.n == 0
    ensures r.Ok? ==> fresh(r.value) && r.value.Valid() && r.value.m == X.m && r.value.n == A.n
    ensures r.Ok? ==> r.value.Rows() == ActMatRight(M, X.Rows(), A.Rows(), X.m, X.n, A.n)
  {
    if X.n != A.m || X.m == 0 || A.n == 0 {
      return DimensionError;
    }
    ghost var expected := ActMatRight(M, X.Rows(), A.Rows(), X.m, X.n, A.n);
    var elements: seq<E> := [];
    for i := 0 to X.m
      invariant |elements| == i * A.n
      invariant RowsOf(elements, i, A.n) == expected[..i]
    {
      var row := ActRowRight(M, X, A, i);
      AppendRow(elements, i, A.n, row);
      elements := elements + row;
    }
    var out := new Matrix(X.m, A.n, elements);
    r := Ok(out);
  }

  /** The product of two scalar matrices is the left action over the field itself. */
  method TryMul<S(==, !new)>(F: Field<S>, A: Matrix<S>, B: Matrix<S>) returns (r: MatrixResult<Matrix<S>>)
    requires F.Lawful() && A.Valid() && B.Valid()
    ensures r.DimensionError? <==> A.n != B.m
    ensures r.Ok? ==> fresh(r.value) && r.value.Valid() && r.value.m == A.m && r.value.n == B.n
    ensures r.Ok? ==> r.value.Rows() == MatMul(F, A.Rows(), B.Rows(), A.m, A.n, B.n)
  {
    if A.n != B.m {
      return DimensionError;
    }
    FieldModuleLawful(F);
    ghost var expected := ActMat(FieldModule(F), A.Rows(), B.Rows(), A.m, A.n, B.n);
    var elements: seq<S> := [];
    for i := 0 to A.m
      invariant |elements| == i * B.n
      invariant RowsOf(elements, i, B.n) == expected[..i]
    {
      var row := ActRow(FieldModule(F), A, B, i);
      AppendRow(elements, i, B.n, row);
      elements := elements + row;
    }
    ActMatIsMatMul(F, A.Rows(), B.Rows(), A.m, A.n, B.n);
    var out := new Matrix(A.m, B.n, elements);
    r := Ok(out);
  }

  lemma ActMatIsMatMul<S(!new)>(F: Field<S>, A: Mat<S>, B: Mat<S>, m: nat, p: nat, n: nat)
    requires IsMat(A, m, p) && IsMat(B, p, n)
    ensures ActMat(FieldModule(F), A, B, m, p, n) == MatMul(F, A, B, m, p, n)
  {
    var L, R := ActMat(FieldModule(F), A, B, m, p, n), MatMul(F, A, B, m, p, n);
    forall i | 0 <= i < m ensures L[i] == R[i] {
      forall j | 0 <= j < n ensures L[i][j] == R[i][j] {
        CombIsDot(F, A[i], Column(B, p, n, j));
      }
    }
  }

  // ----- Polynomials

  /** 1, t, t^2, ... */
  ghost function Powers<S(!new)>(F: Field<S>, t: S, n: nat): (r: Vec<S>)
    ensures |r| == n
  {
    if n == 0 then [] else [F.one] + Scale(F, t, Powers(F, t, n - 1))
  }

  /** The value at t of the polynomial with coefficients x: the sum of t^i * x_i. */
  ghost function CoefficientSum<E(!new), S(!new)>(M: Module<E, S>, x: seq<E>, t: S): E {
    Comb(M, Powers(M.scalars, t, |x|), x)
  }

  /** One step of Horner's method. */
  lemma HornerStep<E(!new), S(!new)>(M: Module<E, S>, x: seq<E>, t: S)
    requires M.Lawful() && |x| > 0
    ensures CoefficientSum(M, x, t) == M.op(M.act(t, CoefficientSum(M, x[1..], t)), x[0])
  {
    var P := Powers(M.scalars, t, |x| - 1);
    assert Powers(M.scalars, t, |x|)[1..] == Scale(M.scalars, t, P);
    CombScaleElements(M, t, P, x[1..]);
    assert M.ActOne(x[0]) && M.OpComm(x[0], M.act(t, Comb(M, P, x[1..])));
  }

  /** Horner's method over a module; the coefficient list is never empty. */
  method EvalModule<E(!new), S(!new)>(M: Module<E, S>, coeffs: seq<E>, at: S) returns (out: E)
    requires M.Lawful() && |coeffs| > 0
    ensures out == CoefficientSum(M, coeffs, at)
  {
    var i := |coeffs| - 1;
    out := coeffs[i];
    HornerStep(M, coeffs[i..], at);
    M.ActId(at);
    M.IdOp(out);
    while i > 0
      invariant 0 <= i < |coeffs|
      invariant out == CoefficientSum(M, coeffs[i..], at)
    {
      i := i - 1;
      HornerStep(M, coeffs[i..], at);
      assert coeffs[i..][1..] == coeffs[i + 1..];
      out := M.op(M.act(at, out), coeffs[i]);
    }
    assert coeffs[0..] == coeffs;
  }

  /** Horner's method over the field; an empty coefficient list evaluates to zero. */
  method Eval<S(!new)>(F: Field<S>, p: Poly<S>, at: S) returns (out: S)
    requires F.Lawful()
    ensures out == CoefficientSum(FieldModule(F), p, at)
  {
    if |p| == 0 {
      return F.zero;
    }
    FieldModuleLawful(F);
    var i := |p| - 1;
    out := p[i];
    HornerStep(FieldModule(F), p[i..], at);
    F.MulZero(at);
    F.ZeroAdd(out);
    while i > 0
      invariant 0 <= i < |p|
      invariant out == CoefficientSum(FieldModule(F), p[i..], at)
    {
      i := i - 1;
      HornerStep(FieldModule(F), p[i..], at);
      assert p[i..][1..] == p[i + 1..];
      assert F.MulComm(out, at);
      out := F.add(F.mul(out, at), p[i]);
    }
    assert p[0..] == p;
  }

  method LiftPolynomial<E(!new), S(!new)>(M: Module<E, S>, p: Poly<S>, base: E) returns (coeffs: seq<E>)
    ensures coeffs == LiftVec(M, p, base)
  {
    coeffs := [];
    for i := 0 to |p|
      invariant coeffs == LiftVec(M, p[..i], base)
    {
      coeffs := coeffs + [M.act(p[i], base)];
    }
    assert p[..|p|] == p;
  }

  /** Evaluating a lifted polynomial lifts its evaluation. */
  lemma EvalOfLift<E(!new), S(!new)>(M: Module<E, S>, p: Poly<S>, base: E, t: S)
    requires M.Lawful()
    ensures CoefficientSum(M, LiftVec(M, p, base), t) == M.act(CoefficientSum(FieldModule(M.scalars), p, t), base)
  {
    CombLift(M, Powers(M.scalars, t, |p|), p, base);
    CombIsDot(M.scalars, Powers(M.scalars, t, |p|), p);
  }
}
