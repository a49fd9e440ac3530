/** Combining one vector per party, in the order a party processes its peers. */
module PartySums {
  import opened Modules
  import opened Options
  import opened Network
  import opened SpanPrograms

  // ----- Parties other than oneself

  lemma {:induction false} OthersAbsent(ids: seq<Id>, me: Id)
    requires me !in ids
    ensures Others(ids, me) == ids
  {
    if |ids| > 0 {
      OthersAbsent(ids[1..], me);
    }
  }

  lemma {:induction false} OthersPresent(ids: seq<Id>, me: Id, i: nat)
    requires Distinct(ids) && i < |ids| && ids[i] == me
    ensures Others(ids, me) == ids[..i] + ids[i + 1..]
  {
    if i == 0 {
      assert me !in ids[1..];
      OthersAbsent(ids[1..], me);
      assert ids[..0] + ids[1..] == ids[1..];
    } else {
      OthersPresent(ids[1..], me, i - 1);
      assert ids[..i] == [ids[0]] + ids[1..][..i - 1];
      assert ids[1..][i..] == ids[i + 1..];
    }
  }

  // ----- Accumulating one vector per party

  function IdVec<E(!new), S(!new)>(M: Module<E, S>, n: nat): (r: seq<E>)
    ensures |r| == n
  {
    seq(n, i => M.id)
  }

  ghost predicate Fits<E>(ids: seq<Id>, f: map<Id, seq<E>>, n: nat) {
    forall id :: id in ids ==> id in f && |f[id]| == n
  }

  /** start combined with the vectors of the parties in ids. */
  ghost function Fold<E(!new), S(!new)>(M: Module<E, S>, start: seq<E>, ids: seq<Id>, f: map<Id, seq<E>>): (r: seq<E>)
    requires Fits(ids, f, |start|)
    ensures |r| == |start|
  {
    if |ids| == 0 then start
    else OpVec(M, Fold(M, start, ids[..|ids| - 1], f), f[ids[|ids| - 1]])
  }

  ghost function Entries<E>(ids: seq<Id>, f: map<Id, seq<E>>, n: nat, j: nat): (r: seq<E>)
    requires Fits(ids, f, n) && j < n
    ensures |r| == |ids|
  {
    seq(|ids|, i requires 0 <= i < |ids| => (assert ids[i] in ids; f[ids[i]][j]))
  }

  lemma {:induction false} TotalLast<E(!new), S(!new)>(M: Module<E, S>, xs: seq<E>, y: E)
    requires M.Lawful()
    ensures Total(M, xs + [y]) == M.op(Total(M, xs), y)
  {
    if |xs| == 0 {
      M.IdOp(y);
      assert M.OpId(y);
    } else {
      assert (xs + [y])[1..] == xs[1..] + [y];
      TotalLast(M, xs[1..], y);
      assert M.OpAssoc(xs[0], Total(M, xs[1..]), y);
    }
  }

  lemma {:induction false} FoldEntry<E(!new), S(!new)>(M: Module<E, S>, start: seq<E>, ids: seq<Id>, f: map<Id, seq<E>>, j: nat)
    requires M.Lawful() && Fits(ids, f, |start|) && j < |start|
    ensures Fold(M, start, ids, f)[j] == M.op(start[j], Total(M, Entries(ids, f, |start|, j)))
  {
    if |ids| == 0 {
      assert M.OpId(start[j]);
    } else {
      var init, last := ids[..|ids| - 1], ids[|ids| - 1];
      var es := Entries(init, f, |start|, j);
      FoldEntry(M, start, init, f, j);
      assert last in ids;
      assert Entries(ids, f, |start|, j) == es + [f[last][j]];
      TotalLast(M, es, f[last][j]);
      assert M.OpAssoc(start[j], Total(M, es), f[last][j]);
    }
  }

  /** The combination over all parties. */
  ghost function FoldAll<E(!new), S(!new)>(M: Module<E, S>, ids: seq<Id>, f: map<Id, seq<E>>, n: nat): (r: seq<E>)
    requires Fits(ids, f, n)
    ensures |r| == n
  {
    Fold(M, IdVec(M, n), ids, f)
  }

  /** Starting from one's own vector and adding the others' gives the combination over all. */
  lemma FoldOwnFirst<E(!new), S(!new)>(M: Module<E, S>, ids: seq<Id>, me: Id, f: map<Id, seq<E>>, n: nat)
    requires M.Lawful() && Distinct(ids) && me in ids && Fits(ids, f, n)
    ensures Fits(Others(ids, me), f, n)
    ensures Fold(M, f[me], Others(ids, me), f) == FoldAll(M, ids, f, n)
  {
    OthersMembers(ids, me);
    forall j | 0 <= j < n ensures Fold(M, f[me], Others(ids, me), f)[j] == FoldAll(M, ids, f, n)[j] {
      FoldEntry(M, f[me], Others(ids, me), f, j);
      FoldEntry(M, IdVec(M, n), ids, f, j);
      M.IdOp(Total(M, Entries(ids, f, n, j)));
      EntriesOwnFirst(M, ids, me, f, n, j);
    }
  }

  lemma EntriesOwnFirst<E(!new), S(!new)>(M: Module<E, S>, ids: seq<Id>, me: Id, f: map<Id, seq<E>>, n: nat, j: nat)
    requires M.Lawful() && Distinct(ids) && me in ids && Fits(ids, f, n) && Fits(Others(ids, me), f, n) && j < n
    ensures Total(M, Entries(ids, f, n, j)) == M.op(f[me][j], Total(M, Entries(Others(ids, me), f, n, j)))
  {
    hide Distinct, Total;
    var i :| 0 <= i < |ids| && ids[i] == me;
    OthersPresent(ids, me, i);
    EntriesRemove(ids, f, n, j, i);
    TotalRemove(M, Entries(ids, f, n, j), i);
  }

  lemma EntriesRemove<E>(ids: seq<Id>, f: map<Id, seq<E>>, n: nat, j: nat, i: nat)
    requires Fits(ids, f, n) && j < n && i < |ids|
    requires Fits(ids[..i] + ids[i + 1..], f, n)
    ensures Entries(ids[..i] + ids[i + 1..], f, n, j) == Entries(ids, f, n, j)[..i] + Entries(ids, f, n, j)[i + 1..]
  {
  }

  ghost function Lifted<E(!new), S(!new)>(M: Module<E, S>, base: E, f: map<Id, seq<S>>): map<Id, seq<E>> {
    map id | id in f :: LiftVec(M, f[id], base)
  }

  ghost function Dealt<E(!new), S(!new)>(M: Module<E, S>, msp: Msp<S>, f: map<Id, seq<E>>, to: Id): map<Id, seq<E>>
    requires msp.Valid() && forall id :: id in f ==> |f[id]| == msp.d
  {
    map id | id in f :: ShareOf(M, msp, f[id], to).v
  }

  lemma {:induction false} FoldLift<E(!new), S(!new)>(M: Module<E, S>, base: E, start: seq<S>, ids: seq<Id>, f: map<Id, seq<S>>)
    requires M.Lawful() && Fits(ids, f, |start|)
    ensures Fold(M, LiftVec(M, start, base), ids, Lifted(M, base, f)) == LiftVec(M, Fold(FieldModule(M.scalars), start, ids, f), base)
  {
    if |ids| > 0 {
      var init, last := ids[..|ids| - 1], ids[|ids| - 1];
      assert last in ids;
      FoldLift(M, base, start, init, f);
      var acc := Fold(FieldModule(M.scalars), start, init, f);
      LiftAdd(M, acc, f[last], base);
      assert OpVec(FieldModule(M.scalars), acc, f[last]) == AddVec(M.scalars, acc, f[last]);
    }
  }

  lemma DealtFits<E(!new), S(!new)>(M: Module<E, S>, msp: Msp<S>, ids: seq<Id>, f: map<Id, seq<E>>, to: Id)
    requires msp.Valid() && (forall id :: id in f ==> |f[id]| == msp.d) && forall id :: id in ids ==> id in f
    ensures Fits(ids, Dealt(M, msp, f, to), RowCount(msp, to))
  {
    forall id | id in ids ensures |ShareOf(M, msp, f[id], to).v| == RowCount(msp, to) {
      ShareLength(M, msp, f[id], to);
    }
  }

  lemma {:induction false} FoldDealt<E(!new), S(!new)>(M: Module<E, S>, msp: Msp<S>, start: seq<E>, ids: seq<Id>, f: map<Id, seq<E>>, to: Id)
    requires M.Lawful() && msp.Valid() && |start| == msp.d && (forall id :: id in f ==> |f[id]| == msp.d) && forall id :: id in ids ==> id in f
    ensures Fits(ids, Dealt(M, msp, f, to), |ShareOf(M, msp, start, to).v|)
    ensures Fold(M, ShareOf(M, msp, start, to).v, ids, Dealt(M, msp, f, to)) == ShareOf(M, msp, Fold(M, start, ids, f), to).v
  {
    DealtFits(M, msp, ids, f, to);
    ShareLength(M, msp, start, to);
    if |ids| > 0 {
      var init, last := ids[..|ids| - 1], ids[|ids| - 1];
      assert last in ids;
      FoldDealt(M, msp, start, init, f, to);
      ShareOfSum(M, msp, Fold(M, start, init, f), f[last], to);
    }
  }

  /** Folding verified contributions keeps them verified. */
  lemma {:induction false} FoldVerifies<E(!new), S(!new)>(
      M: Module<E, S>, base: E, msp: Msp<S>, me: Id, s: seq<S>, V: seq<E>, ids: seq<Id>, shares: map<Id, seq<S>>, vectors: map<Id, seq<E>>)
    requires M.Lawful() && msp.Valid() && Fits(ids, shares, |s|) && Fits(ids, vectors, |V|)
    requires Verifies(M, base, msp, Share(me, s), V)
    requires forall id :: id in ids ==> Verifies(M, base, msp, Share(me, shares[id]), vectors[id])
    ensures Verifies(M, base, msp, Share(me, Fold(FieldModule(M.scalars), s, ids, shares)), Fold(M, V, ids, vectors))
  {
    if |ids| > 0 {
      var init, last := ids[..|ids| - 1], ids[|ids| - 1];
      assert last in ids;
      FoldVerifies(M, base, msp, me, s, V, init, shares, vectors);
      VerifiesSum(M, base, msp, Share(me, Fold(FieldModule(M.scalars), s, init, shares)), Fold(M, V, init, vectors),
        Share(me, shares[last]), vectors[last]);
    }
  }

  /** Nothing yet: the first contribution is taken as it is. */
  function Start<E(!new), S(!new)>(M: Module<E, S>, own: Option<seq<E>>, n: nat): seq<E> {
    if own.Some? then own.value else IdVec(M, n)
  }

  lemma IdVecOp<E(!new), S(!new)>(M: Module<E, S>, x: seq<E>)
    requires M.Lawful()
    ensures OpVec(M, IdVec(M, |x|), x) == x
  {
    forall i | 0 <= i < |x| ensures M.op(M.id, x[i]) == x[i] {
      M.IdOp(x[i]);
    }
  }

  method Aggregate<E(!new), S(!new)>(M: Module<E, S>, own: Option<seq<E>>, ids: seq<Id>, f: map<Id, seq<E>>, ghost n: nat) returns (r: Option<seq<E>>)
    requires M.Lawful() && Fits(ids, f, n) && (own.Some? ==> |own.value| == n)
    ensures r.None? <==> own.None? && |ids| == 0
    ensures r.Some? ==> r.value == Fold(M, Start(M, own, n), ids, f)
  {
    r := own;
    for i := 0 to |ids|
      invariant r.None? <==> own.None? && i == 0
      invariant r.Some? ==> r.value == Fold(M, Start(M, own, n), ids[..i], f)
    {
      assert ids[..i + 1][..i] == ids[..i];
      assert ids[i] in ids;
      if r.None? {
        IdVecOp(M, f[ids[i]]);
        r := Some(f[ids[i]]);
      } else {
        r := Some(OpVec(M, r.value, f[ids[i]]));
      }
    }
    assert ids[..|ids|] == ids;
  }
}
