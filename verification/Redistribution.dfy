/** Redistribution of a shared secret to a new access structure (pkg/mpc/redistribute), with the
    zero sharing it runs first (pkg/mpc/zero/hjky). */
module Redistribution {
  import opened Modules
  import opened Options
  import opened Network
  import opened SpanPrograms
  import opened PartySums

  /** What all parties agree on: the group, the previous shareholders taking part, the span program
      of the next access structure and the one for unanimity of the previous shareholders. */
  datatype Setting<!E(!new), !S(!new)> = Setting(M: Module<E, S>, base: E, prev: seq<Id>, next: Msp<S>, zero: Msp<S>) {
    ghost predicate Valid() {
      && M.Lawful() && Distinct(prev) && |prev| >= 2
      && next.Valid() && zero.Valid() && Qualified(M.scalars, zero, IdSet(prev))
    }
  }

  datatype Shard<E, S> = Shard(share: Share<S>, vector: seq<E>, msp: Msp<S>)

  datatype Metadata<E, S> = Metadata(prevMsp: Msp<S>, prevVector: seq<E>, zeroVector: seq<E>, nextVector: seq<E>)

  /** The reference a party compares the senders' metadata with. */
  datatype Trust<E, S> = Trust(msp: Msp<S>, vector: seq<E>, zeroVector: seq<E>)

  // ----- Incoming messages

  predicate ZeroVectorOk<E(!new), S(!new)>(P: Setting<E, S>, m: Option<seq<E>>) {
    m.Some? && |m.value| == P.zero.d
  }

  predicate ZeroShareOk<S>(me: Id, m: Option<Share<S>>) {
    m.Some? && m.value.id == me
  }

  predicate Fitting<E(!new), S(!new)>(P: Setting<E, S>, m: Metadata<E, S>) {
    m.prevMsp.Valid() && |m.prevVector| == m.prevMsp.d && |m.zeroVector| == P.zero.d && |m.nextVector| == P.next.d
  }

  predicate MetadataOk<E(!new), S(!new)>(P: Setting<E, S>, m: Option<Metadata<E, S>>) {
    m.Some? && Fitting(P, m.value)
  }

  predicate NextShareOk<E(!new), S(!new)>(P: Setting<E, S>, me: Id, m: Option<Share<S>>) {
    m.Some? && m.value.id == me && 0 < |m.value.v| == RowCount(P.next, me)
  }

  ghost predicate AllFitting<E(!new), S(!new)>(P: Setting<E, S>, ids: seq<Id>, metadata: map<Id, Metadata<E, S>>) {
    forall id :: id in ids ==> id in metadata && Fitting(P, metadata[id])
  }

  // ----- What each previous shareholder must have contributed

  /** The lifted additive share of the old secret, shifted by the lifted share of zero. */
  ghost function Partial<E(!new), S(!new)>(P: Setting<E, S>, T: Trust<E, S>, id: Id): E
    requires P.Valid() && Usable(P, T) && id in P.prev
  {
    var Q := IdSet(P.prev);
    ShareConvertible(P.M, T.msp, Q, T.vector, id);
    ShareConvertible(P.M, P.zero, Q, T.zeroVector, id);
    P.M.op(Additive(P.M, T.msp, Q, ShareOf(P.M, T.msp, T.vector, id)), Additive(P.M, P.zero, Q, ShareOf(P.M, P.zero, T.zeroVector, id)))
  }

  ghost predicate Shaped<E(!new), S(!new)>(P: Setting<E, S>, T: Trust<E, S>) {
    T.msp.Valid() && |T.vector| == T.msp.d && |T.zeroVector| == P.zero.d
  }

  /** The reference lets the previous shareholders reconstruct. */
  ghost predicate Usable<E(!new), S(!new)>(P: Setting<E, S>, T: Trust<E, S>) {
    Shaped(P, T) && Qualified(P.M.scalars, T.msp, IdSet(P.prev))
  }

  ghost predicate SameMetadata<E(!new), S(!new)>(T: Trust<E, S>, m: Metadata<E, S>) {
    m.prevMsp == T.msp && m.prevVector == T.vector && m.zeroVector == T.zeroVector
  }

  /** The metadata matches the reference and the contribution commits to the right value. */
  ghost predicate Consistent<E(!new), S(!new)>(P: Setting<E, S>, T: Trust<E, S>, m: Metadata<E, S>, id: Id)
    requires P.Valid() && Fitting(P, m)
  {
    SameMetadata(T, m) && Usable(P, T) && id in P.prev && m.nextVector[0] == Partial(P, T, id)
  }

  ghost function PartialAt<E(!new), S(!new)>(P: Setting<E, S>, T: Trust<E, S>): (r: seq<E>)
    requires P.Valid() && Usable(P, T)
    ensures |r| == |P.prev|
  {
    seq(|P.prev|, i requires 0 <= i < |P.prev| => Partial(P, T, P.prev[i]))
  }

  /** The contributions of all previous shareholders combine to the old key, shifted by whatever
      the zero vector commits to. */
  lemma PartialsCombine<E(!new), S(!new)>(P: Setting<E, S>, T: Trust<E, S>)
    requires P.Valid() && Usable(P, T)
    ensures Total(P.M, PartialAt(P, T)) == P.M.op(T.vector[0], T.zeroVector[0])
  {
    var A, Z := Additives(P.M, T.msp, P.prev, T.vector), Additives(P.M, P.zero, P.prev, T.zeroVector);
    assert PartialAt(P, T) == OpVec(P.M, A, Z);
    TotalOp(P.M, A, Z);
    AdditiveSharesSum(P.M, T.msp, P.prev, T.vector);
    AdditiveSharesSum(P.M, P.zero, P.prev, T.zeroVector);
  }

  /** So the aggregated vector commits to the old key exactly up to that shift. */
  lemma KeyOfConsistent<E(!new), S(!new)>(P: Setting<E, S>, T: Trust<E, S>, vectors: map<Id, seq<E>>)
    requires P.Valid() && Usable(P, T) && Fits(P.prev, vectors, P.next.d)
    requires forall id :: id in P.prev ==> vectors[id][0] == Partial(P, T, id)
    ensures FoldAll(P.M, P.prev, vectors, P.next.d)[0] == P.M.op(T.vector[0], T.zeroVector[0])
  {
    FoldEntry(P.M, IdVec(P.M, P.next.d), P.prev, vectors, 0);
    assert Entries(P.prev, vectors, P.next.d, 0) == PartialAt(P, T);
    PartialsCombine(P, T);
    P.M.IdOp(P.M.op(T.vector[0], T.zeroVector[0]));
  }

  // ----- The checks of round 3

  method VerifyEach<E(==, !new), S(!new)>(P: Setting<E, S>, me: Id, ids: seq<Id>, shares: map<Id, seq<S>>, vectors: map<Id, seq<E>>) returns (r: Outcome<()>)
    requires P.Valid() && forall id :: id in ids ==> id in shares && id in vectors
    ensures !r.Failed?
    ensures r.Done? <==> forall id :: id in ids ==> Verifies(P.M, P.base, P.next, Share(me, shares[id]), vectors[id])
    ensures r.Blame? ==> r.culprit in ids && !Verifies(P.M, P.base, P.next, Share(me, shares[r.culprit]), vectors[r.culprit])
  {
    for i := 0 to |ids|
      invariant forall k :: 0 <= k < i ==> Verifies(P.M, P.base, P.next, Share(me, shares[ids[k]]), vectors[ids[k]])
    {
      var ok := Verify(P.M, P.base, P.next, Share(me, shares[ids[i]]), vectors[ids[i]]);
      if !ok {
        return Blame(ids[i]);
      }
    }
    r := Done(());
  }

  /** The expected contribution of one party, or None when the reference is unusable. */
  method ExpectedPartial<E(!new), S(==, !new)>(P: Setting<E, S>, T: Trust<E, S>, id: Id) returns (r: Option<E>)
    requires P.Valid() && Shaped(P, T) && id in P.prev
    ensures r.Some? <==> Usable(P, T)
    ensures r.Some? ==> r.value == Partial(P, T, id)
  {
    var Q := IdSet(P.prev);
    assert id in Q;
    var lifted := ComputeShare(P.M, T.msp, T.vector, id);
    ShareLength(P.M, T.msp, T.vector, id);
    var additive := ConvertToAdditive(P.M, T.msp, lifted, P.prev);
    if additive.None? {
      return None;
    }
    var zeroLifted := ComputeShare(P.M, P.zero, T.zeroVector, id);
    ShareLength(P.M, P.zero, T.zeroVector, id);
    var shift := ConvertToAdditive(P.M, P.zero, zeroLifted, P.prev);
    r := Some(P.M.op(additive.value, shift.value));
  }

  method CheckTrusted<E(==, !new), S(==, !new)>(P: Setting<E, S>, T: Trust<E, S>, ids: seq<Id>, metadata: map<Id, Metadata<E, S>>) returns (r: Outcome<()>)
    requires P.Valid() && Shaped(P, T)
    requires AllFitting(P, ids, metadata) && forall id :: id in ids ==> id in P.prev
    ensures r.Done? <==> forall id :: id in ids ==> Consistent(P, T, metadata[id], id)
    ensures r.Blame? ==> r.culprit in ids
    ensures r.Blame? ==> (Usable(P, T) || !SameMetadata(T, metadata[r.culprit])) && !Consistent(P, T, metadata[r.culprit], r.culprit)
    ensures r.Failed? ==> !Usable(P, T)
  {
    for i := 0 to |ids|
      invariant forall k :: 0 <= k < i ==> Consistent(P, T, metadata[ids[k]], ids[k])
    {
      var b := metadata[ids[i]];
      if b.prevMsp != T.msp || b.prevVector != T.vector || b.zeroVector != T.zeroVector {
        return Blame(ids[i]);
      }
      var expected := ExpectedPartial(P, T, ids[i]);
      if expected.None? {
        return Failed;
      }
      if b.nextVector[0] != expected.value {
        return Blame(ids[i]);
      }
    }
    r := Done(());
  }

  method CheckKeys<E(==, !new), S(!new)>(P: Setting<E, S>, ids: seq<Id>, metadata: map<Id, Metadata<E, S>>, key: E) returns (ok: bool)
    requires P.Valid() && AllFitting(P, ids, metadata)
    ensures ok <==> forall id :: id in ids ==> metadata[id].prevVector[0] == key
  {
    for i := 0 to |ids|
      invariant forall k :: 0 <= k < i ==> metadata[ids[k]].prevVector[0] == key
    {
      if metadata[ids[i]].prevVector[0] != key {
        return false;
      }
    }
    ok := true;
  }

  // ----- Aggregation in round 3

  function NextVectors<E, S>(metadata: map<Id, Metadata<E, S>>): map<Id, seq<E>> {
    map id | id in metadata :: metadata[id].nextVector
  }

  lemma {:induction false} FoldCongruent<E(!new), S(!new)>(M: Module<E, S>, start: seq<E>, ids: seq<Id>, f: map<Id, seq<E>>, g: map<Id, seq<E>>)
    requires Fits(ids, f, |start|) && Fits(ids, g, |start|) && forall id :: id in ids ==> f[id] == g[id]
    ensures Fold(M, start, ids, f) == Fold(M, start, ids, g)
  {
    if |ids| > 0 {
      assert ids[|ids| - 1] in ids;
      FoldCongruent(M, start, ids[..|ids| - 1], f, g);
    }
  }

  lemma NothingVerifies<E(!new), S(!new)>(M: Module<E, S>, base: E, msp: Msp<S>, me: Id)
    requires M.Lawful() && msp.Valid() && me in msp.holders
    ensures Verifies(M, base, msp, Share(me, IdVec(FieldModule(M.scalars), RowCount(msp, me))), IdVec(M, msp.d))
  {
    var x := IdVec(M, msp.d);
    var v := ShareOf(M, msp, x, me).v;
    IdVecOp(M, x);
    ShareOfSum(M, msp, x, x, me);
    ShareLength(M, msp, x, me);
    var z := IdVec(FieldModule(M.scalars), RowCount(msp, me));
    forall i | 0 <= i < |v| ensures LiftVec(M, z, base)[i] == v[i] {
      M.ActZero(base);
      M.IdOp(v[i]);
      M.OpCancel(v[i], M.id, v[i]);
    }
  }

  /** Own contribution and the others', all verified, aggregate to a verified share. */
  lemma AggregateVerifies<E(!new), S(!new)>(
      P: Setting<E, S>, me: Id, ownShare: Option<seq<S>>, ownVector: Option<seq<E>>, ids: seq<Id>, shares: map<Id, seq<S>>, vectors: map<Id, seq<E>>)
    requires P.Valid() && me in P.next.holders && (ownShare.Some? <==> ownVector.Some?)
    requires ownShare.Some? ==> Verifies(P.M, P.base, P.next, Share(me, ownShare.value), ownVector.value)
    requires Fits(ids, shares, RowCount(P.next, me)) && Fits(ids, vectors, P.next.d)
    requires forall id :: id in ids ==> Verifies(P.M, P.base, P.next, Share(me, shares[id]), vectors[id])
    ensures |Start(FieldModule(P.M.scalars), ownShare, RowCount(P.next, me))| == RowCount(P.next, me)
    ensures |Start(P.M, ownVector, P.next.d)| == P.next.d
    ensures Verifies(P.M, P.base, P.next,
              Share(me, Fold(FieldModule(P.M.scalars), Start(FieldModule(P.M.scalars), ownShare, RowCount(P.next, me)), ids, shares)),
              Fold(P.M, Start(P.M, ownVector, P.next.d), ids, vectors))
  {
    NothingVerifies(P.M, P.base, P.next, me);
    if ownShare.Some? {
      VerifiedLength(P.M, P.base, P.next, Share(me, ownShare.value), ownVector.value);
    }
    FoldVerifies(P.M, P.base, P.next, me, Start(FieldModule(P.M.scalars), ownShare, RowCount(P.next, me)), Start(P.M, ownVector, P.next.d), ids, shares, vectors);
  }

  /** One's own contribution, when one is a previous shareholder, is the expected one. */
  ghost predicate OwnPartial<E(!new), S(!new)>(P: Setting<E, S>, T: Trust<E, S>, me: Id, own: Option<seq<E>>)
    requires P.Valid() && Usable(P, T)
  {
    if me in P.prev then own.Some? && |own.value| == P.next.d && own.value[0] == Partial(P, T, me) else own.None?
  }

  /** When every sender is consistent with the reference, the aggregated key is the old key
      shifted by the value the zero vector commits to. */
  lemma KeyShift<E(!new), S(!new)>(P: Setting<E, S>, T: Trust<E, S>, me: Id, own: Option<seq<E>>, metadata: map<Id, Metadata<E, S>>)
    requires P.Valid() && Usable(P, T) && OwnPartial(P, T, me, own)
    requires AllFitting(P, Others(P.prev, me), metadata)
    requires forall id :: id in Others(P.prev, me) ==> Consistent(P, T, metadata[id], id)
    ensures |Start(P.M, own, P.next.d)| == P.next.d && Fits(Others(P.prev, me), NextVectors(metadata), P.next.d)
    ensures Fold(P.M, Start(P.M, own, P.next.d), Others(P.prev, me), NextVectors(metadata))[0] == P.M.op(T.vector[0], T.zeroVector[0])
  {
    hide Partial, Usable, Distinct, Fold;
    var vectors := NextVectors(metadata);
    forall id | id in Others(P.prev, me)
      ensures id in vectors && |vectors[id]| == P.next.d && id in P.prev && vectors[id][0] == Partial(P, T, id)
    {
    }
    if me in P.prev {
      KeyOfAll(P, T, me, own.value, vectors);
    } else {
      OthersAbsent(P.prev, me);
      KeyOfConsistent(P, T, vectors);
    }
  }

  lemma KeyOfAll<E(!new), S(!new)>(P: Setting<E, S>, T: Trust<E, S>, me: Id, own: seq<E>, vectors: map<Id, seq<E>>)
    requires P.Valid() && Usable(P, T) && me in P.prev && |own| == P.next.d && own[0] == Partial(P, T, me)
    requires Fits(Others(P.prev, me), vectors, P.next.d)
    requires forall id :: id in Others(P.prev, me) ==> id in P.prev && vectors[id][0] == Partial(P, T, id)
    ensures Fold(P.M, own, Others(P.prev, me), vectors)[0] == P.M.op(T.vector[0], T.zeroVector[0])
  {
    hide Partial, Usable, Distinct, Fold;
    OthersMembers(P.prev, me);
    var all := vectors[me := own];
    FoldCongruent(P.M, own, Others(P.prev, me), vectors, all);
    FoldOwnFirst(P.M, P.prev, me, all, P.next.d);
    forall id | id in P.prev ensures all[id][0] == Partial(P, T, id) {
      if id != me {
        assert id in Others(P.prev, me);
      }
    }
    KeyOfConsistent(P, T, all);
  }

  /** Once the per-sender checks pass, the old-key check passes exactly when the reference commits
      to a sharing of zero: guaranteed for a previous shareholder's own reference, not for an
      anchor's message. */
  lemma KeyCheckExactly<E(!new), S(!new)>(P: Setting<E, S>, T: Trust<E, S>, me: Id, own: Option<seq<E>>, metadata: map<Id, Metadata<E, S>>)
    requires P.Valid() && Usable(P, T) && OwnPartial(P, T, me, own)
    requires AllFitting(P, Others(P.prev, me), metadata)
    requires forall id :: id in Others(P.prev, me) ==> Consistent(P, T, metadata[id], id)
    requires |Start(P.M, own, P.next.d)| == P.next.d && Fits(Others(P.prev, me), NextVectors(metadata), P.next.d)
    ensures Fold(P.M, Start(P.M, own, P.next.d), Others(P.prev, me), NextVectors(metadata))[0] == T.vector[0] <==> T.zeroVector[0] == P.M.id
  {
    KeyShift(P, T, me, own, metadata);
    var v, z := T.vector[0], T.zeroVector[0];
    assert P.M.OpId(v) && P.M.OpComm(v, z);
    P.M.IdOp(v);
    if P.M.op(v, z) == v {
      P.M.OpCancel(z, P.M.id, v);
    }
  }
}
