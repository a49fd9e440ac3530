/** Modules over a field (a group with a scalar action) and linear combinations in them. */
module Modules {
  import opened Fields
  import opened Vectors

  datatype Module<!E(!new), !S(!new)> = Module(
    scalars: Field<S>,
    id: E,
    op: (E, E) -> E,
    neg: E -> E,
    act: (S, E) -> E)
  {
    ghost predicate OpComm(x: E, y: E) { op(x, y) == op(y, x) }
    ghost predicate OpAssoc(x: E, y: E, z: E) { op(op(x, y), z) == op(x, op(y, z)) }
    ghost predicate OpId(x: E) { op(x, id) == x }
    ghost predicate OpNeg(x: E) { op(x, neg(x)) == id }
    ghost predicate ActOne(x: E) { act(scalars.one, x) == x }
    ghost predicate ActMul(a: S, b: S, x: E) { act(scalars.mul(a, b), x) == act(a, act(b, x)) }
    ghost predicate ActAdd(a: S, b: S, x: E) { act(scalars.add(a, b), x) == op(act(a, x), act(b, x)) }
    ghost predicate ActOp(a: S, x: E, y: E) { act(a, op(x, y)) == op(act(a, x), act(a, y)) }

    /** The elements form an abelian group. */
    ghost predicate Abelian() {
      && (forall x, y :: OpComm(x, y))
      && (forall x, y, z :: OpAssoc(x, y, z))
      && (forall x :: OpId(x))
      && (forall x :: OpNeg(x))
    }

    /** The module axioms. */
    ghost predicate Lawful() {
      && scalars.Lawful() && Abelian()
      && (forall x :: ActOne(x))
      && (forall a, b, x :: ActMul(a, b, x))
      && (forall a, b, x :: ActAdd(a, b, x))
      && (forall a, x, y :: ActOp(a, x, y))
    }

    lemma OpCancel(x: E, y: E, z: E)
      requires Abelian()
      requires op(x, z) == op(y, z)
      ensures x == y
    {
      assert OpAssoc(x, z, neg(z)) && OpAssoc(y, z, neg(z)) && OpNeg(z) && OpId(x) && OpId(y);
    }

    lemma IdOp(x: E)
      requires Abelian()
      ensures op(id, x) == x
    {
      assert OpComm(id, x) && OpId(x);
    }

    lemma ActZero(x: E)
      requires Lawful()
      ensures act(scalars.zero, x) == id
    {
      var y := act(scalars.zero, x);
      assert scalars.AddZero(scalars.zero) && ActAdd(scalars.zero, scalars.zero, x);
      IdOp(y);
      OpCancel(y, id, y);
    }

    lemma ActId(a: S)
      requires Lawful()
      ensures act(a, id) == id
    {
      assert OpId(id) && ActOp(a, id, id);
      IdOp(act(a, id));
      OpCancel(act(a, id), id, act(a, id));
    }

    /** (w x) (y z) == (w y) (x z) */
    lemma OpSwap4(w: E, x: E, y: E, z: E)
      requires Abelian()
      ensures op(op(w, x), op(y, z)) == op(op(w, y), op(x, z))
    {
      assert OpAssoc(w, x, op(y, z)) && OpAssoc(x, y, z) && OpComm(x, y) && OpAssoc(y, x, z);
      assert OpAssoc(w, y, op(x, z));
    }
  }

  /** Every field is a module over itself. */
  function FieldModule<S(!new)>(F: Field<S>): Module<S, S> {
    Module(F, F.zero, F.add, F.neg, F.mul)
  }

  lemma FieldModuleLawful<S(!new)>(F: Field<S>)
    requires F.Lawful()
    ensures FieldModule(F).Lawful()
  {
    var M := FieldModule(F);
    forall x, y ensures M.OpComm(x, y) { assert F.AddComm(x, y); }
    forall x, y, z ensures M.OpAssoc(x, y, z) { assert F.AddAssoc(x, y, z); }
    forall x ensures M.OpId(x) { assert F.AddZero(x); }
    forall x ensures M.OpNeg(x) { assert F.AddNeg(x); }
    forall x ensures M.ActOne(x) { F.OneMul(x); }
    forall a, b, x ensures M.ActMul(a, b, x) { assert F.MulAssoc(a, b, x); }
    forall a, b, x ensures M.ActAdd(a, b, x) { F.DistribRight(a, b, x); }
    forall a, x, y ensures M.ActOp(a, x, y) { assert F.Distrib(a, x, y); }
  }

  /** The linear combination of the elements x with coefficients a. */
  ghost function Comb<E(!new), S(!new)>(M: Module<E, S>, a: Vec<S>, x: seq<E>): E
    requires |a| == |x|
  {
    if |a| == 0 then M.id else M.op(M.act(a[0], x[0]), Comb(M, a[1..], x[1..]))
  }

  lemma {:induction false} CombIsDot<S(!new)>(F: Field<S>, a: Vec<S>, b: Vec<S>)
    requires |a| == |b|
    ensures Comb(FieldModule(F), a, b) == Dot(F, a, b)
  {
    if |a| > 0 {
      CombIsDot(F, a[1..], b[1..]);
    }
  }

  lemma {:induction false} CombConcat<E(!new), S(!new)>(M: Module<E, S>, a: Vec<S>, x: seq<E>, b: Vec<S>, y: seq<E>)
    requires M.Abelian() && |a| == |x| && |b| == |y|
    ensures Comb(M, a + b, x + y) == M.op(Comb(M, a, x), Comb(M, b, y))
  {
    if |a| == 0 {
      assert a + b == b && x + y == y;
      M.IdOp(Comb(M, b, y));
    } else {
      assert (a + b)[1..] == a[1..] + b && (x + y)[1..] == x[1..] + y;
      CombConcat(M, a[1..], x[1..], b, y);
      assert M.OpAssoc(M.act(a[0], x[0]), Comb(M, a[1..], x[1..]), Comb(M, b, y));
    }
  }

  lemma CombSingle<E(!new), S(!new)>(M: Module<E, S>, a: S, x: E)
    requires M.Abelian()
    ensures Comb(M, [a], [x]) == M.act(a, x)
  {
    assert M.OpId(M.act(a, x));
  }

  /** Adding one more term on the right, as an accumulating loop does. */
  lemma CombNext<E(!new), S(!new)>(M: Module<E, S>, a: Vec<S>, x: seq<E>, k: nat)
    requires M.Abelian() && |a| == |x| && k < |a|
    ensures Comb(M, a[..k + 1], x[..k + 1]) == M.op(Comb(M, a[..k], x[..k]), M.act(a[k], x[k]))
  {
    assert a[..k + 1] == a[..k] + [a[k]] && x[..k + 1] == x[..k] + [x[k]];
    CombConcat(M, a[..k], x[..k], [a[k]], [x[k]]);
    CombSingle(M, a[k], x[k]);
  }

  lemma {:induction false} CombVanish<E(!new), S(!new)>(M: Module<E, S>, a: Vec<S>, x: seq<E>)
    requires M.Lawful() && |a| == |x|
    requires forall i :: 0 <= i < |a| ==> a[i] == M.scalars.zero
    ensures Comb(M, a, x) == M.id
  {
    if |a| > 0 {
      M.ActZero(x[0]);
      CombVanish(M, a[1..], x[1..]);
      M.IdOp(M.id);
    }
  }

  /** The combination with coefficients e_0 picks the first element. */
  lemma CombFirst<E(!new), S(!new)>(M: Module<E, S>, x: seq<E>)
    requires M.Lawful() && |x| > 0
    ensures Comb(M, Unit(M.scalars, |x|, 0), x) == x[0]
  {
    var e := Unit(M.scalars, |x|, 0);
    CombVanish(M, e[1..], x[1..]);
    assert M.ActOne(x[0]) && M.OpId(x[0]);
  }

  lemma {:induction false} CombScaleElements<E(!new), S(!new)>(M: Module<E, S>, c: S, a: Vec<S>, x: seq<E>)
    requires M.Lawful() && |a| == |x|
    ensures Comb(M, Scale(M.scalars, c, a), x) == M.act(c, Comb(M, a, x))
  {
    if |a| == 0 {
      M.ActId(c);
    } else {
      assert Scale(M.scalars, c, a)[1..] == Scale(M.scalars, c, a[1..]);
      CombScaleElements(M, c, a[1..], x[1..]);
      assert M.ActMul(c, a[0], x[0]) && M.ActOp(c, M.act(a[0], x[0]), Comb(M, a[1..], x[1..]));
    }
  }

  /** Elementwise sum. */
  function AddVec<S(!new)>(F: Field<S>, a: Vec<S>, b: Vec<S>): (r: Vec<S>)
    requires |a| == |b|
    ensures |r| == |a|
  {
    seq(|a|, i requires 0 <= i < |a| => F.add(a[i], b[i]))
  }

  function OpVec<E(!new), S(!new)>(M: Module<E, S>, x: seq<E>, y: seq<E>): (r: seq<E>)
    requires |x| == |y|
    ensures |r| == |x|
  {
    seq(|x|, i requires 0 <= i < |x| => M.op(x[i], y[i]))
  }

  lemma {:induction false} CombAddCoefficients<E(!new), S(!new)>(M: Module<E, S>, a: Vec<S>, b: Vec<S>, x: seq<E>)
    requires M.Lawful() && |a| == |b| == |x|
    ensures Comb(M, AddVec(M.scalars, a, b), x) == M.op(Comb(M, a, x), Comb(M, b, x))
  {
    if |a| == 0 {
      M.IdOp(M.id);
    } else {
      assert AddVec(M.scalars, a, b)[1..] == AddVec(M.scalars, a[1..], b[1..]);
      CombAddCoefficients(M, a[1..], b[1..], x[1..]);
      assert M.ActAdd(a[0], b[0], x[0]);
      M.OpSwap4(M.act(a[0], x[0]), M.act(b[0], x[0]), Comb(M, a[1..], x[1..]), Comb(M, b[1..], x[1..]));
    }
  }

  lemma {:induction false} CombOpElements<E(!new), S(!new)>(M: Module<E, S>, a: Vec<S>, x: seq<E>, y: seq<E>)
    requires M.Lawful() && |a| == |x| == |y|
    ensures Comb(M, a, OpVec(M, x, y)) == M.op(Comb(M, a, x), Comb(M, a, y))
  {
    if |a| == 0 {
      M.IdOp(M.id);
    } else {
      assert OpVec(M, x, y)[1..] == OpVec(M, x[1..], y[1..]);
      CombOpElements(M, a[1..], x[1..], y[1..]);
      assert M.ActOp(a[0], x[0], y[0]);
      M.OpSwap4(M.act(a[0], x[0]), M.act(a[0], y[0]), Comb(M, a[1..], x[1..]), Comb(M, a[1..], y[1..]));
    }
  }

  /** The scalar matrix A acting on the column x: entry i is the combination with row A[i]. */
  ghost function ActVec<E(!new), S(!new)>(M: Module<E, S>, A: Mat<S>, x: seq<E>): (r: seq<E>)
    requires IsMat(A, |A|, |x|)
    ensures |r| == |A|
  {
    seq(|A|, i requires 0 <= i < |A| => Comb(M, A[i], x))
  }

  /** The row vector c * A, built row by row. */
  ghost function RowTimes<S(!new)>(F: Field<S>, c: Vec<S>, A: Mat<S>, n: nat): (r: Vec<S>)
    requires IsMat(A, |c|, n)
    ensures |r| == n
  {
    if |c| == 0 then Zeros(F, n)
    else AddVec(F, Scale(F, c[0], A[0]), RowTimes(F, c[1..], A[1..], n))
  }

  lemma {:induction false} RowTimesEntry<S(!new)>(F: Field<S>, c: Vec<S>, A: Mat<S>, n: nat, j: nat)
    requires IsMat(A, |c|, n) && j < n
    ensures RowTimes(F, c, A, n)[j] == Dot(F, c, Column(A, |c|, n, j))
  {
    if |c| > 0 {
      RowTimesEntry(F, c[1..], A[1..], n, j);
      assert Column(A, |c|, n, j)[1..] == Column(A[1..], |c| - 1, n, j);
    }
  }

  /** Combining the rows first or last: c . (A x) == (c A) . x, for any elements x. */
  lemma {:induction false} Exchange<E(!new), S(!new)>(M: Module<E, S>, c: Vec<S>, A: Mat<S>, x: seq<E>)
    requires M.Lawful() && IsMat(A, |c|, |x|)
    ensures Comb(M, c, ActVec(M, A, x)) == Comb(M, RowTimes(M.scalars, c, A, |x|), x)
  {
    if |c| == 0 {
      CombVanish(M, Zeros(M.scalars, |x|), x);
    } else {
      assert ActVec(M, A, x)[1..] == ActVec(M, A[1..], x);
      Exchange(M, c[1..], A[1..], x);
      CombScaleElements(M, c[0], A[0], x);
      CombAddCoefficients(M, Scale(M.scalars, c[0], A[0]), RowTimes(M.scalars, c[1..], A[1..], |x|), x);
    }
  }

  // ----- Lifting scalars to multiples of a base point

  function LiftVec<E(!new), S(!new)>(M: Module<E, S>, r: Vec<S>, base: E): (x: seq<E>)
    ensures |x| == |r|
  {
    seq(|r|, i requires 0 <= i < |r| => M.act(r[i], base))
  }

  /** Combining lifted scalars lifts their dot product. */
  lemma {:induction false} CombLift<E(!new), S(!new)>(M: Module<E, S>, a: Vec<S>, r: Vec<S>, base: E)
    requires M.Lawful() && |a| == |r|
    ensures Comb(M, a, LiftVec(M, r, base)) == M.act(Dot(M.scalars, a, r), base)
  {
    if |a| == 0 {
      M.ActZero(base);
    } else {
      assert LiftVec(M, r, base)[1..] == LiftVec(M, r[1..], base);
      CombLift(M, a[1..], r[1..], base);
      assert M.ActMul(a[0], r[0], base);
      assert M.ActAdd(M.scalars.mul(a[0], r[0]), Dot(M.scalars, a[1..], r[1..]), base);
    }
  }

  lemma LiftAdd<E(!new), S(!new)>(M: Module<E, S>, a: Vec<S>, b: Vec<S>, base: E)
    requires M.Lawful() && |a| == |b|
    ensures LiftVec(M, AddVec(M.scalars, a, b), base) == OpVec(M, LiftVec(M, a, base), LiftVec(M, b, base))
  {
    forall i | 0 <= i < |a| ensures M.act(M.scalars.add(a[i], b[i]), base) == M.op(M.act(a[i], base), M.act(b[i], base)) {
      assert M.ActAdd(a[i], b[i], base);
    }
  }

  /** A matrix acting on a lifted column gives the lifted product. */
  lemma ActLift<E(!new), S(!new)>(M: Module<E, S>, A: Mat<S>, r: Vec<S>, base: E)
    requires M.Lawful() && IsMat(A, |A|, |r|)
    ensures ActVec(M, A, LiftVec(M, r, base)) == LiftVec(M, MatVec(M.scalars, A, r), base)
  {
    forall i | 0 <= i < |A|
      ensures ActVec(M, A, LiftVec(M, r, base))[i] == LiftVec(M, MatVec(M.scalars, A, r), base)[i]
    {
      CombLift(M, A[i], r, base);
    }
  }
}
