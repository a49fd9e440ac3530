/** Vectors and matrices over a field, as sequences. */
module Vectors {
  import opened Fields

  type Vec<S> = seq<S>
  type Mat<S> = seq<seq<S>>

  /** a . b */
  ghost function Dot<S(!new)>(F: Field<S>, a: Vec<S>, b: Vec<S>): S
    requires |a| == |b|
  {
    if |a| == 0 then F.zero else F.add(F.mul(a[0], b[0]), Dot(F, a[1..], b[1..]))
  }

  ghost function Scale<S(!new)>(F: Field<S>, c: S, a: Vec<S>): (r: Vec<S>)
    ensures |r| == |a|
  {
    seq(|a|, i requires 0 <= i < |a| => F.mul(c, a[i]))
  }

  /** a + c * b */
  ghost function AddScaled<S(!new)>(F: Field<S>, a: Vec<S>, c: S, b: Vec<S>): (r: Vec<S>)
    requires |a| == |b|
    ensures |r| == |a|
  {
    seq(|a|, i requires 0 <= i < |a| => F.add(a[i], F.mul(c, b[i])))
  }

  function Zeros<S(!new)>(F: Field<S>, n: nat): (r: Vec<S>)
    ensures |r| == n
  {
    seq(n, i => F.zero)
  }

  /** The unit vector e_k of length n. */
  function Unit<S(!new)>(F: Field<S>, n: nat, k: nat): (r: Vec<S>)
    ensures |r| == n
  {
    seq(n, i => if i == k then F.one else F.zero)
  }

  predicate IsMat<S>(A: Mat<S>, m: nat, n: nat) {
    |A| == m && forall i :: 0 <= i < m ==> |A[i]| == n
  }

  lemma {:induction false} DotAddScaled<S(!new)>(F: Field<S>, a: Vec<S>, c: S, b: Vec<S>, y: Vec<S>)
    requires F.Lawful() && |a| == |b| == |y|
    ensures Dot(F, AddScaled(F, a, c, b), y) == F.add(Dot(F, a, y), F.mul(c, Dot(F, b, y)))
  {
    var s := AddScaled(F, a, c, b);
    if |a| == 0 {
      F.MulZero(c);
      F.ZeroAdd(F.zero);
    } else {
      assert s[1..] == AddScaled(F, a[1..], c, b[1..]);
      var A, B := Dot(F, a[1..], y[1..]), Dot(F, b[1..], y[1..]);
      calc {
        Dot(F, s, y);
        { DotAddScaled(F, a[1..], c, b[1..], y[1..]); }
        F.add(F.mul(F.add(a[0], F.mul(c, b[0])), y[0]), F.add(A, F.mul(c, B)));
        { F.DistribRight(a[0], F.mul(c, b[0]), y[0]); assert F.MulAssoc(c, b[0], y[0]); }
        F.add(F.add(F.mul(a[0], y[0]), F.mul(c, F.mul(b[0], y[0]))), F.add(A, F.mul(c, B)));
        { F.AddSwap4(F.mul(a[0], y[0]), F.mul(c, F.mul(b[0], y[0])), A, F.mul(c, B)); }
        F.add(F.add(F.mul(a[0], y[0]), A), F.add(F.mul(c, F.mul(b[0], y[0])), F.mul(c, B)));
        { assert F.Distrib(c, F.mul(b[0], y[0]), B); }
        F.add(Dot(F, a, y), F.mul(c, Dot(F, b, y)));
      }
    }
  }

  lemma {:induction false} DotScale<S(!new)>(F: Field<S>, c: S, a: Vec<S>, y: Vec<S>)
    requires F.Lawful() && |a| == |y|
    ensures Dot(F, Scale(F, c, a), y) == F.mul(c, Dot(F, a, y))
  {
    if |a| == 0 {
      F.MulZero(c);
    } else {
      assert Scale(F, c, a)[1..] == Scale(F, c, a[1..]);
      DotScale(F, c, a[1..], y[1..]);
      assert F.MulAssoc(c, a[0], y[0]) && F.Distrib(c, F.mul(a[0], y[0]), Dot(F, a[1..], y[1..]));
    }
  }

  lemma {:induction false} DotComm<S(!new)>(F: Field<S>, a: Vec<S>, b: Vec<S>)
    requires F.Lawful() && |a| == |b|
    ensures Dot(F, a, b) == Dot(F, b, a)
  {
    if |a| > 0 {
      assert F.MulComm(a[0], b[0]);
      DotComm(F, a[1..], b[1..]);
    }
  }

  /** A dot product whose terms all vanish. */
  lemma {:induction false} DotVanish<S(!new)>(F: Field<S>, a: Vec<S>, b: Vec<S>)
    requires F.Lawful() && |a| == |b|
    requires forall i :: 0 <= i < |a| ==> a[i] == F.zero || b[i] == F.zero
    ensures Dot(F, a, b) == F.zero
  {
    if |a| > 0 {
      F.MulZero(a[0]);
      F.MulZero(b[0]);
      DotVanish(F, a[1..], b[1..]);
      F.ZeroAdd(F.zero);
    }
  }

  /** A dot product with a single surviving term. */
  lemma {:induction false} DotSingle<S(!new)>(F: Field<S>, a: Vec<S>, b: Vec<S>, k: nat)
    requires F.Lawful() && |a| == |b| && k < |a|
    requires forall i :: 0 <= i < |a| && i != k ==> a[i] == F.zero || b[i] == F.zero
    ensures Dot(F, a, b) == F.mul(a[k], b[k])
  {
    if k == 0 {
      DotVanish(F, a[1..], b[1..]);
      assert F.AddZero(F.mul(a[0], b[0]));
    } else {
      F.MulZero(a[0]);
      F.MulZero(b[0]);
      DotSingle(F, a[1..], b[1..], k - 1);
      F.ZeroAdd(Dot(F, a[1..], b[1..]));
    }
  }

  lemma {:induction false} DotConcat<S(!new)>(F: Field<S>, a: Vec<S>, b: Vec<S>, c: Vec<S>, d: Vec<S>)
    requires F.Lawful() && |a| == |b| && |c| == |d|
    ensures Dot(F, a + c, b + d) == F.add(Dot(F, a, b), Dot(F, c, d))
  {
    if |a| == 0 {
      assert a + c == c && b + d == d;
      F.ZeroAdd(Dot(F, c, d));
    } else {
      assert (a + c)[1..] == a[1..] + c && (b + d)[1..] == b[1..] + d;
      DotConcat(F, a[1..], b[1..], c, d);
      assert F.AddAssoc(F.mul(a[0], b[0]), Dot(F, a[1..], b[1..]), Dot(F, c, d));
    }
  }

  /** M * y */
  ghost function MatVec<S(!new)>(F: Field<S>, A: Mat<S>, y: Vec<S>): (r: Vec<S>)
    requires IsMat(A, |A|, |y|)
    ensures |r| == |A|
  {
    seq(|A|, i requires 0 <= i < |A| => Dot(F, A[i], y))
  }

  ghost function Column<S>(A: Mat<S>, m: nat, n: nat, j: nat): (r: Vec<S>)
    requires IsMat(A, m, n) && j < n
    ensures |r| == m
  {
    seq(m, i requires 0 <= i < m => A[i][j])
  }

  /** A * B for an m x k matrix A and a k x n matrix B. */
  ghost function MatMul<S(!new)>(F: Field<S>, A: Mat<S>, B: Mat<S>, m: nat, k: nat, n: nat): (r: Mat<S>)
    requires IsMat(A, m, k) && IsMat(B, k, n)
    ensures IsMat(r, m, n)
    ensures forall i, j :: 0 <= i < m && 0 <= j < n ==> r[i][j] == Dot(F, A[i], Column(B, k, n, j))
  {
    seq(m, i requires 0 <= i < m => seq(n, j requires 0 <= j < n => Dot(F, A[i], Column(B, k, n, j))))
  }

  ghost function Identity<S(!new)>(F: Field<S>, n: nat): (r: Mat<S>)
    ensures IsMat(r, n, n)
  {
    seq(n, i requires 0 <= i < n => Unit(F, n, i))
  }

  ghost function Transpose<S>(A: Mat<S>, m: nat, n: nat): (r: Mat<S>)
    requires IsMat(A, m, n)
    ensures IsMat(r, n, m)
    ensures forall i, j :: 0 <= i < n && 0 <= j < m ==> r[i][j] == A[j][i]
  {
    seq(n, j requires 0 <= j < n => Column(A, m, n, j))
  }
}
