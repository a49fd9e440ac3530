/** Linear secret sharing from monotone span programs, and its Feldman verification
    (pkg/mpc/sharing/scheme/kw, pkg/mpc/sharing/vss/feldman).

    A column x of scalars is dealt as the entries of (matrix * x), each shareholder getting the
    entries of the rows it owns. The same definitions over a group give the lifted shares, so
    every result below is stated over an arbitrary module. */
module SpanPrograms {
  import opened Options
  import opened Fields
  import opened Vectors
  import opened FlatMatrix
  import opened Modules
  import opened LinearSolver
  import Lifting

  type Id = nat

  /** A matrix with d columns, each row labelled with its holder; the target vector is e_0. */
  datatype Msp<S> = Msp(rows: Mat<S>, d: nat, holders: seq<Id>) {
    predicate Valid() {
      |rows| == |holders| && d > 0 && IsMat(rows, |rows|, d) && 0 !in holders
    }
  }

  /** A shareholder's values, one for each of its rows in ascending row order. */
  datatype Share<E> = Share(id: Id, v: seq<E>)

  // ----- Selecting the rows of some holders

  /** The entries of xs whose holder is in keep, in order. */
  function Pick<T>(xs: seq<T>, holders: seq<Id>, keep: set<Id>): (r: seq<T>)
    requires |xs| == |holders|
  {
    if |xs| == 0 then []
    else (if holders[0] in keep then [xs[0]] else []) + Pick(xs[1..], holders[1..], keep)
  }

  lemma {:induction false} PickLength<T, U>(xs: seq<T>, ys: seq<U>, holders: seq<Id>, keep: set<Id>)
    requires |xs| == |ys| == |holders|
    ensures |Pick(xs, holders, keep)| == |Pick(ys, holders, keep)|
  {
    if |xs| > 0 {
      PickLength(xs[1..], ys[1..], holders[1..], keep);
    }
  }

  lemma {:induction false} PickWidth<S>(A: Mat<S>, holders: seq<Id>, keep: set<Id>, n: nat)
    requires |A| == |holders| && IsMat(A, |A|, n)
    ensures IsMat(Pick(A, holders, keep), |Pick(A, holders, keep)|, n)
  {
    if |A| > 0 {
      PickWidth(A[1..], holders[1..], keep, n);
    }
  }

  lemma {:induction false} PickNonEmpty<T>(xs: seq<T>, holders: seq<Id>, keep: set<Id>)
    requires |xs| == |holders|
    ensures |Pick(xs, holders, keep)| > 0 <==> exists h :: h in holders && h in keep
  {
    if |xs| > 0 {
      PickNonEmpty(xs[1..], holders[1..], keep);
      assert holders == [holders[0]] + holders[1..];
    }
  }

  lemma {:induction false} PickHolders(holders: seq<Id>, keep: set<Id>)
    ensures forall h :: h in Pick(holders, holders, keep) ==> h in keep
  {
    if |holders| > 0 {
      PickHolders(holders[1..], keep);
      PickFirst(holders, holders, keep);
    }
  }

  lemma PickFirst<T>(xs: seq<T>, holders: seq<Id>, keep: set<Id>)
    requires |xs| == |holders| > 0
    ensures Pick(xs, holders, keep) == (if holders[0] in keep then [xs[0]] else []) + Pick(xs[1..], holders[1..], keep)
  {
  }

  /** Selecting a subset of an earlier selection. */
  lemma {:induction false} PickTwice<T>(xs: seq<T>, holders: seq<Id>, inner: set<Id>, outer: set<Id>)
    requires |xs| == |holders| && inner <= outer
    ensures |Pick(xs, holders, outer)| == |Pick(holders, holders, outer)|
    ensures Pick(Pick(xs, holders, outer), Pick(holders, holders, outer), inner) == Pick(xs, holders, inner)
  {
    PickLength(xs, holders, holders, outer);
    if |xs| > 0 {
      PickTwice(xs[1..], holders[1..], inner, outer);
      PickLength(xs[1..], holders[1..], holders[1..], outer);
      if holders[0] in outer {
        var X, H := Pick(xs, holders, outer), Pick(holders, holders, outer);
        assert X[0] == xs[0] && H[0] == holders[0];
        assert X[1..] == Pick(xs[1..], holders[1..], outer);
        assert H[1..] == Pick(holders[1..], holders[1..], outer);
      } else {
        assert Pick(xs, holders, outer) == Pick(xs[1..], holders[1..], outer);
        assert Pick(holders, holders, outer) == Pick(holders[1..], holders[1..], outer);
      }
    }
  }

  /** Selecting every holder selects every entry. */
  lemma {:induction false} PickAll<T>(xs: seq<T>, holders: seq<Id>, keep: set<Id>)
    requires |xs| == |holders| && forall h :: h in holders ==> h in keep
    ensures Pick(xs, holders, keep) == xs
  {
    if |xs| > 0 {
      PickAll(xs[1..], holders[1..], keep);
    }
  }

  lemma {:induction false} PickAct<E(!new), S(!new)>(M: Module<E, S>, A: Mat<S>, x: seq<E>, holders: seq<Id>, keep: set<Id>)
    requires |A| == |holders| && IsMat(A, |A|, |x|)
    ensures IsMat(Pick(A, holders, keep), |Pick(A, holders, keep)|, |x|)
    ensures Pick(ActVec(M, A, x), holders, keep) == ActVec(M, Pick(A, holders, keep), x)
  {
    PickWidth(A, holders, keep, |x|);
    if |A| > 0 {
      assert ActVec(M, A, x)[1..] == ActVec(M, A[1..], x);
      PickAct(M, A[1..], x, holders[1..], keep);
      PickFirst(A, holders, keep);
    }
  }

  lemma {:induction false} PickLift<E(!new), S(!new)>(M: Module<E, S>, xs: Vec<S>, holders: seq<Id>, keep: set<Id>, base: E)
    requires |xs| == |holders|
    ensures Pick(LiftVec(M, xs, base), holders, keep) == LiftVec(M, Pick(xs, holders, keep), base)
  {
    if |xs| > 0 {
      assert LiftVec(M, xs, base)[1..] == LiftVec(M, xs[1..], base);
      PickLift(M, xs[1..], holders[1..], keep, base);
    }
  }

  lemma {:induction false} PickOp<E(!new), S(!new)>(M: Module<E, S>, xs: seq<E>, ys: seq<E>, holders: seq<Id>, keep: set<Id>)
    requires |xs| == |ys| == |holders|
    ensures |Pick(xs, holders, keep)| == |Pick(ys, holders, keep)|
    ensures Pick(OpVec(M, xs, ys), holders, keep) == OpVec(M, Pick(xs, holders, keep), Pick(ys, holders, keep))
  {
    PickLength(xs, ys, holders, keep);
    if |xs| > 0 {
      assert OpVec(M, xs, ys)[1..] == OpVec(M, xs[1..], ys[1..]);
      PickOp(M, xs[1..], ys[1..], holders[1..], keep);
    }
  }

  // ----- Sums over parties

  ghost function Total<E(!new), S(!new)>(M: Module<E, S>, xs: seq<E>): E {
    if |xs| == 0 then M.id else M.op(xs[0], Total(M, xs[1..]))
  }

  /** One term can be taken out of a sum, wherever it stands. */
  lemma {:induction false} TotalRemove<E(!new), S(!new)>(M: Module<E, S>, xs: seq<E>, i: nat)
    requires M.Lawful() && i < |xs|
    ensures Total(M, xs) == M.op(xs[i], Total(M, xs[..i] + xs[i + 1..]))
  {
    if i == 0 {
      assert xs[..0] + xs[1..] == xs[1..];
    } else {
      var ys := xs[1..];
      var rest := Total(M, ys[..i - 1] + ys[i..]);
      TotalRemove(M, ys, i - 1);
      assert (xs[..i] + xs[i + 1..])[1..] == ys[..i - 1] + ys[i..];
      assert M.OpAssoc(xs[0], xs[i], rest) && M.OpComm(xs[0], xs[i]) && M.OpAssoc(xs[i], xs[0], rest);
    }
  }

  lemma {:induction false} TotalOp<E(!new), S(!new)>(M: Module<E, S>, xs: seq<E>, ys: seq<E>)
    requires M.Lawful() && |xs| == |ys|
    ensures Total(M, OpVec(M, xs, ys)) == M.op(Total(M, xs), Total(M, ys))
  {
    if |xs| == 0 {
      M.IdOp(M.id);
    } else {
      assert OpVec(M, xs, ys)[1..] == OpVec(M, xs[1..], ys[1..]);
      TotalOp(M, xs[1..], ys[1..]);
      M.OpSwap4(xs[0], ys[0], Total(M, xs[1..]), Total(M, ys[1..]));
    }
  }

  /** The part of a linear combination that belongs to some holders. */
  ghost function Part<E(!new), S(!new)>(M: Module<E, S>, c: Vec<S>, x: seq<E>, holders: seq<Id>, keep: set<Id>): E
    requires |c| == |x| == |holders|
  {
    PickLength(c, x, holders, keep);
    Comb(M, Pick(c, holders, keep), Pick(x, holders, keep))
  }

  lemma {:induction false} PartSplit<E(!new), S(!new)>(M: Module<E, S>, c: Vec<S>, x: seq<E>, holders: seq<Id>, K: set<Id>, L: set<Id>)
    requires M.Lawful() && |c| == |x| == |holders| && K !! L
    ensures Part(M, c, x, holders, K + L) == M.op(Part(M, c, x, holders, K), Part(M, c, x, holders, L))
  {
    if |c| == 0 {
      M.IdOp(M.id);
    } else {
      PartSplit(M, c[1..], x[1..], holders[1..], K, L);
      PartFirst(M, c, x, holders, K);
      PartFirst(M, c, x, holders, L);
      PartFirst(M, c, x, holders, K + L);
      var t, k, l := M.act(c[0], x[0]), Part(M, c[1..], x[1..], holders[1..], K), Part(M, c[1..], x[1..], holders[1..], L);
      assert M.OpAssoc(t, k, l) && M.OpComm(t, k) && M.OpAssoc(k, t, l);
    }
  }

  lemma PartFirst<E(!new), S(!new)>(M: Module<E, S>, c: Vec<S>, x: seq<E>, holders: seq<Id>, K: set<Id>)
    requires |c| == |x| == |holders| > 0
    ensures var rest := Part(M, c[1..], x[1..], holders[1..], K);
            Part(M, c, x, holders, K) == if holders[0] in K then M.op(M.act(c[0], x[0]), rest) else rest
  {
    PickLength(c, x, holders, K);
    PickLength(c[1..], x[1..], holders[1..], K);
    PickFirst(c, holders, K);
    PickFirst(x, holders, K);
    if holders[0] in K {
      assert Pick(c, holders, K)[1..] == Pick(c[1..], holders[1..], K);
      assert Pick(x, holders, K)[1..] == Pick(x[1..], holders[1..], K);
    } else {
      assert Pick(c, holders, K) == Pick(c[1..], holders[1..], K);
      assert Pick(x, holders, K) == Pick(x[1..], holders[1..], K);
    }
  }

  ghost predicate Distinct(ids: seq<Id>) {
    forall i, j :: 0 <= i < j < |ids| ==> ids[i] != ids[j]
  }

  function IdSet(ids: seq<Id>): set<Id> {
    set i | 0 <= i < |ids| :: ids[i]
  }

  /** Every party's part of the combination, in the order of ids. */
  ghost function Parts<E(!new), S(!new)>(M: Module<E, S>, c: Vec<S>, x: seq<E>, holders: seq<Id>, ids: seq<Id>): (r: seq<E>)
    requires |c| == |x| == |holders|
    ensures |r| == |ids|
  {
    seq(|ids|, i requires 0 <= i < |ids| => Part(M, c, x, holders, {ids[i]}))
  }

  /** The parts of distinct parties add up to the part of all of them together. */
  lemma {:induction false} PartsTotal<E(!new), S(!new)>(M: Module<E, S>, c: Vec<S>, x: seq<E>, holders: seq<Id>, ids: seq<Id>)
    requires M.Lawful() && |c| == |x| == |holders| && Distinct(ids)
    ensures Total(M, Parts(M, c, x, holders, ids)) == Part(M, c, x, holders, IdSet(ids))
  {
    if |ids| == 0 {
      assert IdSet(ids) == {};
      PartNone(M, c, x, holders);
    } else {
      var rest := ids[1..];
      PartsTotal(M, c, x, holders, rest);
      assert Parts(M, c, x, holders, ids)[1..] == Parts(M, c, x, holders, rest);
      assert IdSet(ids) == {ids[0]} + IdSet(rest) by {
        assert forall i :: 1 <= i < |ids| ==> ids[i] == rest[i - 1];
      }
      assert ids[0] !in IdSet(rest);
      PartSplit(M, c, x, holders, {ids[0]}, IdSet(rest));
    }
  }

  lemma {:induction false} PartNone<E(!new), S(!new)>(M: Module<E, S>, c: Vec<S>, x: seq<E>, holders: seq<Id>)
    requires |c| == |x| == |holders|
    ensures Part(M, c, x, holders, {}) == M.id
  {
    if |c| > 0 {
      PartNone(M, c[1..], x[1..], holders[1..]);
      PartFirst(M, c, x, holders, {});
    }
  }

  // ----- Shares, reconstruction and conversion to additive shares

  /** The share of one holder when the column x is dealt. */
  ghost function ShareOf<E(!new), S(!new)>(M: Module<E, S>, msp: Msp<S>, x: seq<E>, id: Id): Share<E>
    requires msp.Valid() && |x| == msp.d
  {
    Share(id, Pick(ActVec(M, msp.rows, x), msp.holders, {id}))
  }

  /** The number of rows a holder owns. */
  function RowCount<S>(msp: Msp<S>, id: Id): nat {
    |Pick(msp.holders, msp.holders, {id})|
  }

  lemma ShareLength<E(!new), S(!new)>(M: Module<E, S>, msp: Msp<S>, x: seq<E>, id: Id)
    requires msp.Valid() && |x| == msp.d
    ensures |ShareOf(M, msp, x, id).v| == RowCount(msp, id)
    ensures RowCount(msp, id) > 0 <==> id in msp.holders
  {
    PickLength(ActVec(M, msp.rows, x), msp.holders, msp.holders, {id});
    PickNonEmpty(msp.holders, msp.holders, {id});
    assert id in msp.holders ==> exists h :: h in msp.holders && h in {id};
  }

  /** c are the reconstruction coefficients of the quorum Q, ordered by row: the solution of
      c * (rows of Q) == e_0 that elimination selects. */
  ghost predicate IsReconstruction<S(!new)>(F: Field<S>, msp: Msp<S>, Q: set<Id>, c: Vec<S>)
    requires msp.Valid()
  {
    PickWidth(msp.rows, msp.holders, Q, msp.d);
    var A := Pick(msp.rows, msp.holders, Q);
    && LeftSolution(F, A, |A|, msp.d, Unit(F, msp.d, 0), c)
    && CanonicalSolution(F, Augmented(Transpose(A, |A|, msp.d), msp.d, |A|, Unit(F, msp.d, 0)), msp.d, |A|, c)
  }

  ghost predicate Qualified<S(!new)>(F: Field<S>, msp: Msp<S>, Q: set<Id>)
    requires msp.Valid()
  {
    (forall id :: id in Q ==> id in msp.holders) && exists c: Vec<S> :: IsReconstruction(F, msp, Q, c)
  }

  /** The reconstruction coefficients; every party computes the same ones. */
  ghost function Reconstruction<S(!new)>(F: Field<S>, msp: Msp<S>, Q: set<Id>): (c: Vec<S>)
    requires msp.Valid() && Qualified(F, msp, Q)
    ensures IsReconstruction(F, msp, Q, c)
    ensures |c| == |Pick(msp.rows, msp.holders, Q)| == |Pick(msp.holders, msp.holders, Q)|
  {
    PickLength(msp.rows, msp.holders, msp.holders, Q);
    var c: Vec<S> :| IsReconstruction(F, msp, Q, c);
    c
  }

  lemma ReconstructionUnique<S(!new)>(F: Field<S>, msp: Msp<S>, Q: set<Id>, c: Vec<S>)
    requires F.Lawful() && msp.Valid() && Qualified(F, msp, Q) && IsReconstruction(F, msp, Q, c)
    ensures c == Reconstruction(F, msp, Q)
  {
    PickWidth(msp.rows, msp.holders, Q, msp.d);
    var A := Pick(msp.rows, msp.holders, Q);
    var T := Augmented(Transpose(A, |A|, msp.d), msp.d, |A|, Unit(F, msp.d, 0));
    CanonicalIsUnique(F, T, msp.d, |A|, c, Reconstruction(F, msp, Q));
  }

  /** A share of the holder id that fits the span program and the quorum. */
  ghost predicate Convertible<E, S(!new)>(F: Field<S>, msp: Msp<S>, Q: set<Id>, share: Share<E>) {
    msp.Valid() && share.id in Q && Qualified(F, msp, Q) && |share.v| == RowCount(msp, share.id)
  }

  lemma CoefficientCount<S(!new)>(F: Field<S>, msp: Msp<S>, Q: set<Id>, id: Id)
    requires msp.Valid() && Qualified(F, msp, Q) && id in Q
    ensures |Pick(Reconstruction(F, msp, Q), Pick(msp.holders, msp.holders, Q), {id})| == RowCount(msp, id)
  {
    var H := Pick(msp.holders, msp.holders, Q);
    PickLength(Reconstruction(F, msp, Q), H, H, {id});
    PickTwice(msp.holders, msp.holders, {id}, Q);
  }

  /** The additive share: the holder's values weighted by its reconstruction coefficients. */
  ghost function Additive<E(!new), S(!new)>(M: Module<E, S>, msp: Msp<S>, Q: set<Id>, share: Share<E>): E
    requires Convertible(M.scalars, msp, Q, share)
  {
    CoefficientCount(M.scalars, msp, Q, share.id);
    Comb(M, Pick(Reconstruction(M.scalars, msp, Q), Pick(msp.holders, msp.holders, Q), {share.id}), share.v)
  }

  lemma ShareConvertible<E(!new), S(!new)>(M: Module<E, S>, msp: Msp<S>, Q: set<Id>, x: seq<E>, id: Id)
    requires msp.Valid() && |x| == msp.d && Qualified(M.scalars, msp, Q) && id in Q
    ensures Convertible(M.scalars, msp, Q, ShareOf(M, msp, x, id))
  {
    ShareLength(M, msp, x, id);
  }

  /** Every party's additive share of the dealt column x. */
  ghost function Additives<E(!new), S(!new)>(M: Module<E, S>, msp: Msp<S>, ids: seq<Id>, x: seq<E>): (r: seq<E>)
    requires msp.Valid() && |x| == msp.d && Qualified(M.scalars, msp, IdSet(ids))
    ensures |r| == |ids|
  {
    seq(|ids|, i requires 0 <= i < |ids| =>
      (ShareConvertible(M, msp, IdSet(ids), x, ids[i]); Additive(M, msp, IdSet(ids), ShareOf(M, msp, x, ids[i]))))
  }

  /** The additive shares of a qualified quorum add up to the secret, the first entry of the
      dealt column -- for scalars, and for lifted shares of any column of group elements. */
  lemma AdditiveSharesSum<E(!new), S(!new)>(M: Module<E, S>, msp: Msp<S>, ids: seq<Id>, x: seq<E>)
    requires M.Lawful() && msp.Valid() && |x| == msp.d && Distinct(ids) && Qualified(M.scalars, msp, IdSet(ids))
    ensures Total(M, Additives(M, msp, ids, x)) == x[0]
  {
    var Q := IdSet(ids);
    var c := Reconstruction(M.scalars, msp, Q);
    var H := Pick(msp.holders, msp.holders, Q);
    var A := Pick(msp.rows, msp.holders, Q);
    PickWidth(msp.rows, msp.holders, Q, msp.d);
    var lambda := ActVec(M, A, x);
    forall i | 0 <= i < |ids| ensures Additives(M, msp, ids, x)[i] == Part(M, c, lambda, H, {ids[i]}) {
      PickAct(M, msp.rows, x, msp.holders, Q);
      PickTwice(ActVec(M, msp.rows, x), msp.holders, {ids[i]}, Q);
      ShareConvertible(M, msp, Q, x, ids[i]);
    }
    assert Additives(M, msp, ids, x) == Parts(M, c, lambda, H, ids);
    PartsTotal(M, c, lambda, H, ids);
    PickHolders(msp.holders, Q);
    PickAll(c, H, Q);
    PickAll(lambda, H, Q);
    Exchange(M, c, A, x);
    var e := Unit(M.scalars, msp.d, 0);
    forall j | 0 <= j < msp.d ensures RowTimes(M.scalars, c, A, msp.d)[j] == e[j] {
      RowTimesEntry(M.scalars, c, A, msp.d, j);
    }
    assert RowTimes(M.scalars, c, A, msp.d) == e;
    CombFirst(M, x);
  }

  // ----- Feldman verification

  /** Share.id lies in the span program and the lifted values are the ones the vector V gives. */
  ghost predicate Verifies<E(!new), S(!new)>(M: Module<E, S>, base: E, msp: Msp<S>, share: Share<S>, V: seq<E>)
    requires msp.Valid()
  {
    |V| == msp.d && share.id in msp.holders && LiftVec(M, share.v, base) == ShareOf(M, msp, V, share.id).v
  }

  lemma VerifiedLength<E(!new), S(!new)>(M: Module<E, S>, base: E, msp: Msp<S>, share: Share<S>, V: seq<E>)
    requires msp.Valid() && Verifies(M, base, msp, share, V)
    ensures |share.v| == RowCount(msp, share.id) > 0
  {
    ShareLength(M, msp, V, share.id);
  }

  /** A lifted share is the share of the lifted column. */
  lemma LiftedShare<E(!new), S(!new)>(M: Module<E, S>, base: E, msp: Msp<S>, r: Vec<S>, id: Id)
    requires M.Lawful() && msp.Valid() && |r| == msp.d
    ensures LiftVec(M, ShareOf(FieldModule(M.scalars), msp, r, id).v, base) == ShareOf(M, msp, LiftVec(M, r, base), id).v
  {
    var lambda := ActVec(FieldModule(M.scalars), msp.rows, r);
    forall i | 0 <= i < |msp.rows| ensures lambda[i] == MatVec(M.scalars, msp.rows, r)[i] {
      CombIsDot(M.scalars, msp.rows[i], r);
    }
    assert lambda == MatVec(M.scalars, msp.rows, r);
    ActLift(M, msp.rows, r, base);
    PickLift(M, lambda, msp.holders, {id}, base);
  }

  /** Honestly dealt shares verify. */
  lemma DealtShareVerifies<E(!new), S(!new)>(M: Module<E, S>, base: E, msp: Msp<S>, r: Vec<S>, id: Id)
    requires M.Lawful() && msp.Valid() && |r| == msp.d && id in msp.holders
    ensures Verifies(M, base, msp, ShareOf(FieldModule(M.scalars), msp, r, id), LiftVec(M, r, base))
  {
    LiftedShare(M, base, msp, r, id);
  }

  lemma ShareOfSum<E(!new), S(!new)>(M: Module<E, S>, msp: Msp<S>, x: seq<E>, y: seq<E>, id: Id)
    requires M.Lawful() && msp.Valid() && |x| == |y| == msp.d
    ensures |ShareOf(M, msp, x, id).v| == |ShareOf(M, msp, y, id).v|
    ensures ShareOf(M, msp, OpVec(M, x, y), id).v == OpVec(M, ShareOf(M, msp, x, id).v, ShareOf(M, msp, y, id).v)
  {
    var X, Y := ActVec(M, msp.rows, x), ActVec(M, msp.rows, y);
    forall i | 0 <= i < |msp.rows| ensures ActVec(M, msp.rows, OpVec(M, x, y))[i] == OpVec(M, X, Y)[i] {
      CombOpElements(M, msp.rows[i], x, y);
    }
    assert ActVec(M, msp.rows, OpVec(M, x, y)) == OpVec(M, X, Y);
    PickOp(M, X, Y, msp.holders, {id});
  }

  /** Verification is additive: sums of verified shares verify against the combined vector. */
  lemma VerifiesSum<E(!new), S(!new)>(M: Module<E, S>, base: E, msp: Msp<S>, s: Share<S>, V: seq<E>, t: Share<S>, W: seq<E>)
    requires M.Lawful() && msp.Valid() && s.id == t.id
    requires Verifies(M, base, msp, s, V) && Verifies(M, base, msp, t, W)
    ensures |s.v| == |t.v|
    ensures Verifies(M, base, msp, Share(s.id, OpVec(FieldModule(M.scalars), s.v, t.v)), OpVec(M, V, W))
  {
    VerifiedLength(M, base, msp, s, V);
    VerifiedLength(M, base, msp, t, W);
    ShareOfSum(M, msp, V, W, s.id);
    LiftAdd(M, s.v, t.v, base);
    assert OpVec(FieldModule(M.scalars), s.v, t.v) == AddVec(M.scalars, s.v, t.v);
  }

  /** Converting a verified share and lifting it is converting the lifted share. */
  lemma LiftedAdditive<E(!new), S(!new)>(M: Module<E, S>, base: E, msp: Msp<S>, Q: set<Id>, share: Share<S>, V: seq<E>)
    requires M.Lawful() && msp.Valid() && Verifies(M, base, msp, share, V) && share.id in Q && Qualified(M.scalars, msp, Q)
    ensures Convertible(M.scalars, msp, Q, share) && Convertible(M.scalars, msp, Q, ShareOf(M, msp, V, share.id))
    ensures M.act(Additive(FieldModule(M.scalars), msp, Q, share), base) == Additive(M, msp, Q, ShareOf(M, msp, V, share.id))
  {
    VerifiedLength(M, base, msp, share, V);
    ShareConvertible(M, msp, Q, V, share.id);
    CoefficientCount(M.scalars, msp, Q, share.id);
    var c := Pick(Reconstruction(M.scalars, msp, Q), Pick(msp.holders, msp.holders, Q), {share.id});
    CombLift(M, c, share.v, base);
    CombIsDot(M.scalars, c, share.v);
  }

  // ----- The operations

  /** The reconstruction coefficients of a set of parties, or None when it is unqualified. */
  method ReconstructionVector<S(==, !new)>(F: Field<S>, msp: Msp<S>, ids: seq<Id>) returns (r: Option<seq<S>>)
    requires F.Lawful() && msp.Valid()
    ensures r.Some? <==> Qualified(F, msp, IdSet(ids))
    ensures r.Some? ==> r.value == Reconstruction(F, msp, IdSet(ids))
    // all of them hold rows, and the combination of their rows with these coefficients is e_0
    ensures r.Some? ==> forall i :: 0 <= i < |ids| ==> ids[i] in msp.holders
    ensures r.Some? ==> var A := Pick(msp.rows, msp.holders, IdSet(ids));
      |r.value| == |A| && IsMat(A, |A|, msp.d) &&
      forall j :: 0 <= j < msp.d ==> Dot(F, r.value, Column(A, |A|, msp.d, j)) == if j == 0 then F.one else F.zero
  {
    ghost var Q := IdSet(ids);
    for i := 0 to |ids|
      invariant forall k :: 0 <= k < i ==> ids[k] in msp.holders
    {
      if ids[i] !in msp.holders {
        assert ids[i] in Q;
        return None;
      }
    }
    var A := Pick(msp.rows, msp.holders, IdSet(ids));
    PickWidth(msp.rows, msp.holders, Q, msp.d);
    if |A| == 0 {
      NoRowsUnqualified(F, msp, Q);
      return None;
    }
    var rows := FromRows(A, msp.d);
    var target := new Matrix(1, msp.d, Unit(F, msp.d, 0));
    assert target.Rows()[0] == Unit(F, msp.d, 0);
    var out := SolveLeft(F, rows, target);
    if out.Solution? {
      assert IsReconstruction(F, msp, Q, out.x);
      assert forall j :: 0 <= j < msp.d ==> Unit(F, msp.d, 0)[j] == if j == 0 then F.one else F.zero;
      ReconstructionUnique(F, msp, Q, out.x);
      r := Some(out.x);
    } else {
      forall c: Vec<S> ensures !IsReconstruction(F, msp, Q, c) {
        assert !LeftSolution(F, A, |A|, msp.d, Unit(F, msp.d, 0), c);
      }
      r := None;
    }
  }

  lemma NoRowsUnqualified<S(!new)>(F: Field<S>, msp: Msp<S>, Q: set<Id>)
    requires F.Lawful() && msp.Valid() && |Pick(msp.rows, msp.holders, Q)| == 0
    ensures !Qualified(F, msp, Q)
  {
    var A := Pick(msp.rows, msp.holders, Q);
    forall c: Vec<S> ensures !IsReconstruction(F, msp, Q, c) {
      assert |c| == 0 ==> Dot(F, c, Column(A, 0, msp.d, 0)) == F.zero;
      assert Unit(F, msp.d, 0)[0] == F.one;
    }
  }

  /** A flat matrix with the given rows. */
  method FromRows<S(==, !new)>(A: Mat<S>, n: nat) returns (r: Matrix<S>)
    requires IsMat(A, |A|, n)
    ensures fresh(r) && r.Valid() && r.m == |A| && r.n == n && r.Rows() == A
  {
    var data: seq<S> := [];
    for i := 0 to |A|
      invariant |data| == i * n && RowsOf(data, i, n) == A[..i]
    {
      AppendRow(data, i, n, A[i]);
      data := data + A[i];
    }
    r := new Matrix(|A|, n, data);
  }

  /** Converts a share, scalar or lifted, to an additive share for the quorum. */
  method ConvertToAdditive<E(!new), S(==, !new)>(M: Module<E, S>, msp: Msp<S>, share: Share<E>, quorum: seq<Id>) returns (r: Option<E>)
    requires M.Lawful() && msp.Valid()
    ensures r.Some? <==> Convertible(M.scalars, msp, IdSet(quorum), share)
    ensures r.Some? ==> r.value == Additive(M, msp, IdSet(quorum), share)
  {
    if share.id !in quorum {
      return None;
    }
    var reconstruction := ReconstructionVector(M.scalars, msp, quorum);
    if reconstruction.None? || |share.v| != RowCount(msp, share.id) {
      return None;
    }
    CoefficientCount(M.scalars, msp, IdSet(quorum), share.id);
    var c := Pick(reconstruction.value, Pick(msp.holders, msp.holders, IdSet(quorum)), {share.id});
    var sum := Lifting.Accumulate(M, c, share.v);
    r := Some(sum);
  }

  /** The share of one holder for the column x: the rows of (matrix * x) it owns. */
  method ComputeShare<E(!new), S(!new)>(M: Module<E, S>, msp: Msp<S>, x: seq<E>, id: Id) returns (share: Share<E>)
    requires M.Lawful() && msp.Valid() && |x| == msp.d
    ensures share == ShareOf(M, msp, x, id)
  {
    var lambda: seq<E> := [];
    for i := 0 to |msp.rows|
      invariant lambda == ActVec(M, msp.rows, x)[..i]
    {
      var sum := Lifting.Accumulate(M, msp.rows[i], x);
      lambda := lambda + [sum];
    }
    assert lambda == ActVec(M, msp.rows, x);
    share := Share(id, Pick(lambda, msp.holders, {id}));
  }

  /** Checks a scalar share against a verification vector. */
  method Verify<E(==, !new), S(!new)>(M: Module<E, S>, base: E, msp: Msp<S>, share: Share<S>, V: seq<E>) returns (ok: bool)
    requires M.Lawful() && msp.Valid()
    ensures ok <==> Verifies(M, base, msp, share, V)
  {
    if |V| != msp.d || share.id !in msp.holders {
      return false;
    }
    var lifted := ComputeShare(M, msp, V, share.id);
    ok := lifted.v == LiftVec(M, share.v, base);
  }
}
