/** A participant of the redistribution protocol, round by round
    (pkg/mpc/redistribute/rounds.go). */
module RedistributionParty {
  import opened Fields
  import opened Modules
  import opened Options
  import opened Network
  import opened SpanPrograms
  import opened PartySums
  import opened Redistribution

  /** What a party compares old metadata with: its own shard or its anchor's message, nothing, or
      a shard whose zero vector was never established. */
  datatype Reference<E, S> = Known(trust: Trust<E, S>) | NoAnchor | Lost

  function Lookup<T>(messages: map<Id, Option<T>>, id: Id): Option<T> {
    if id in messages then messages[id] else None
  }

  ghost predicate Arrived<T, U>(ids: seq<Id>, b: map<Id, T>, u: map<Id, U>) {
    forall id :: id in ids ==> id in b && id in u
  }

  /** The sender's zero sharing of round 1 is malformed, fails to verify, or is not of zero. */
  ghost predicate BadZeroSharing<E(!new), S(!new)>(P: Setting<E, S>, me: Id, b: Option<seq<E>>, u: Option<Share<S>>)
    requires P.Valid()
  {
    || !ZeroVectorOk(P, b) || !ZeroShareOk(me, u)
    || !Verifies(P.M, P.base, P.zero, u.value, b.value) || b.value[0] != P.M.id
  }

  /** The sender's round-2 messages are malformed, do not verify, or contradict the reference. */
  ghost predicate BadContribution<E(!new), S(!new)>(P: Setting<E, S>, me: Id, ref: Reference<E, S>, b: Option<Metadata<E, S>>, u: Option<Share<S>>, id: Id)
    requires P.Valid()
  {
    || !MetadataOk(P, b) || !NextShareOk(P, me, u)
    || !Verifies(P.M, P.base, P.next, u.value, b.value.nextVector)
    || (ref.Known? && (Usable(P, ref.trust) || !SameMetadata(ref.trust, b.value)) && !Consistent(P, ref.trust, b.value, id))
  }

  function Values<S>(shares: map<Id, Share<S>>): map<Id, seq<S>> {
    map id | id in shares :: shares[id].v
  }

  // ----- Round 2: the zero sharing

  method CheckZeroSharings<E(==, !new), S(!new)>(P: Setting<E, S>, me: Id, ids: seq<Id>, vectors: map<Id, seq<E>>, shares: map<Id, seq<S>>) returns (r: Outcome<()>)
    requires P.Valid() && Fits(ids, vectors, P.zero.d) && forall id :: id in ids ==> id in shares
    ensures !r.Failed?
    ensures r.Done? <==> forall id :: id in ids ==> Verifies(P.M, P.base, P.zero, Share(me, shares[id]), vectors[id]) && vectors[id][0] == P.M.id
    ensures r.Blame? ==> r.culprit in ids
    ensures r.Blame? ==> var c := r.culprit; !(Verifies(P.M, P.base, P.zero, Share(me, shares[c]), vectors[c]) && vectors[c][0] == P.M.id)
  {
    for i := 0 to |ids|
      invariant forall k :: 0 <= k < i ==> Verifies(P.M, P.base, P.zero, Share(me, shares[ids[k]]), vectors[ids[k]]) && vectors[ids[k]][0] == P.M.id
    {
      var ok := Verify(P.M, P.base, P.zero, Share(me, shares[ids[i]]), vectors[ids[i]]);
      if !ok || vectors[ids[i]][0] != P.M.id {
        return Blame(ids[i]);
      }
    }
    r := Done(());
  }

  lemma {:induction false} FoldOfZeros<E(!new), S(!new)>(M: Module<E, S>, start: seq<E>, ids: seq<Id>, f: map<Id, seq<E>>)
    requires M.Lawful() && Fits(ids, f, |start|) && |start| > 0 && start[0] == M.id
    requires forall id :: id in ids ==> f[id][0] == M.id
    ensures Fold(M, start, ids, f)[0] == M.id
  {
    if |ids| > 0 {
      assert ids[|ids| - 1] in ids;
      FoldOfZeros(M, start, ids[..|ids| - 1], f);
      M.IdOp(M.id);
    }
  }

  /** Lifting the contribution gives the partial key the other parties expect. */
  lemma ContributionLifts<E(!new), S(!new)>(P: Setting<E, S>, T: Trust<E, S>, share: Share<S>, zeroShare: Share<S>)
    requires P.Valid() && Usable(P, T) && share.id in P.prev && zeroShare.id == share.id
    requires Verifies(P.M, P.base, T.msp, share, T.vector) && Verifies(P.M, P.base, P.zero, zeroShare, T.zeroVector)
    ensures Convertible(P.M.scalars, T.msp, IdSet(P.prev), share) && Convertible(P.M.scalars, P.zero, IdSet(P.prev), zeroShare)
    ensures P.M.act(Contribution(P, T.msp, share, zeroShare), P.base) == Partial(P, T, share.id)
  {
    var Q, FM := IdSet(P.prev), FieldModule(P.M.scalars);
    LiftedAdditive(P.M, P.base, T.msp, Q, share, T.vector);
    LiftedAdditive(P.M, P.base, P.zero, Q, zeroShare, T.zeroVector);
    assert P.M.ActAdd(Additive(FM, T.msp, Q, share), Additive(FM, P.zero, Q, zeroShare), P.base);
  }

  /** A previous shareholder's additive share of the secret, shifted by its additive share of zero. */
  ghost function Contribution<E(!new), S(!new)>(P: Setting<E, S>, msp: Msp<S>, share: Share<S>, zeroShare: Share<S>): S
    requires Convertible(P.M.scalars, msp, IdSet(P.prev), share) && Convertible(P.M.scalars, P.zero, IdSet(P.prev), zeroShare)
  {
    var Q, FM := IdSet(P.prev), FieldModule(P.M.scalars);
    P.M.scalars.add(Additive(FM, msp, Q, share), Additive(FM, P.zero, Q, zeroShare))
  }

  /** The shares of a column for each of the given parties. */
  method DealShares<S(!new)>(F: Field<S>, msp: Msp<S>, column: seq<S>, ids: seq<Id>) returns (shares: map<Id, Share<S>>)
    requires F.Lawful() && msp.Valid() && |column| == msp.d
    ensures forall id :: id in shares <==> id in ids
    ensures forall id :: id in ids ==> shares[id] == ShareOf(FieldModule(F), msp, column, id)
  {
    FieldModuleLawful(F);
    shares := map[];
    for i := 0 to |ids|
      invariant forall id :: id in shares <==> id in ids[..i]
      invariant forall id :: id in shares ==> shares[id] == ShareOf(FieldModule(F), msp, column, id)
    {
      var share := ComputeShare(FieldModule(F), msp, column, ids[i]);
      shares := shares[ids[i] := share];
    }
  }

  /** The combined sharing of zero: own dealing first, then the others'. */
  ghost predicate ZeroCombined<E(!new), S(!new)>(
      P: Setting<E, S>, me: Id, own: (Share<S>, seq<E>), vectors: map<Id, seq<E>>, shares: map<Id, seq<S>>, out: (Share<S>, seq<E>))
  {
    var ids := Others(P.prev, me);
    && Fits(ids, shares, |own.0.v|) && Fits(ids, vectors, |own.1|)
    && out == (Share(me, Fold(FieldModule(P.M.scalars), own.0.v, ids, shares)), Fold(P.M, own.1, ids, vectors))
  }

  /** All coefficients of the vectors of the given parties, in their order. */
  function Coefficients<E>(ids: seq<Id>, vectors: map<Id, seq<E>>): (r: seq<E>)
    requires forall id :: id in ids ==> id in vectors
  {
    if |ids| == 0 then [] else Coefficients(ids[..|ids| - 1], vectors) + vectors[ids[|ids| - 1]]
  }

  /** Each party's vector stands between those of the parties before and after it. */
  lemma {:induction false} CoefficientsAt<E>(ids: seq<Id>, vectors: map<Id, seq<E>>, i: nat)
    requires i < |ids| && forall id :: id in ids ==> id in vectors
    ensures Coefficients(ids, vectors) == Coefficients(ids[..i], vectors) + vectors[ids[i]] + Coefficients(ids[i + 1..], vectors)
    decreases |ids|
  {
    var n := |ids| - 1;
    if i < n {
      CoefficientsAt(ids[..n], vectors, i);
      assert ids[..n][..i] == ids[..i] && ids[..n][i + 1..] == ids[i + 1..n] && ids[i + 1..][..n - i - 1] == ids[i + 1..n];
      assert Coefficients(ids[i + 1..], vectors) == Coefficients(ids[i + 1..n], vectors) + vectors[ids[n]];
    } else {
      assert ids[i + 1..] == [] && Coefficients(ids[i + 1..], vectors) == [];
    }
  }

  /** The zero sharing has appended the vectors of all previous shareholders to the transcript. */
  ghost predicate Appended<E(!new), S(!new)>(P: Setting<E, S>, me: Id, own: seq<E>, vectors: map<Id, seq<E>>, before: seq<E>, after: seq<E>) {
    var all := vectors[me := own];
    (forall id :: id in P.prev ==> id in all) && after == before + Coefficients(P.prev, all)
  }

  lemma AppendedTo<E(!new), S(!new)>(P: Setting<E, S>, me: Id, own: seq<E>, vectors: map<Id, seq<E>>, before: seq<E>, written: seq<E>)
    requires Appended(P, me, own, vectors, [], written)
    ensures Appended(P, me, own, vectors, before, before + written)
  {
  }

  method WriteCoefficients<E>(ids: seq<Id>, vectors: map<Id, seq<E>>) returns (written: seq<E>)
    requires forall id :: id in ids ==> id in vectors
    ensures written == Coefficients(ids, vectors)
  {
    written := [];
    for i := 0 to |ids|
      invariant written == Coefficients(ids[..i], vectors)
    {
      assert ids[..i + 1][..i] == ids[..i];
      written := written + vectors[ids[i]];
    }
    assert ids[..|ids|] == ids;
  }

  /** The second round of the zero sharing. */
  method FinishZero<E(==, !new), S(!new)>(
      P: Setting<E, S>, me: Id, own: (Share<S>, seq<E>), vectors: map<Id, seq<E>>, shares: map<Id, seq<S>>) returns (r: Outcome<(Share<S>, seq<E>)>, written: seq<E>)
    requires P.Valid() && own.0.id == me && Verifies(P.M, P.base, P.zero, own.0, own.1) && own.1[0] == P.M.id
    requires Fits(Others(P.prev, me), vectors, P.zero.d) && forall id :: id in Others(P.prev, me) ==> id in shares
    ensures !r.Failed?
    ensures r.Blame? ==> r.culprit in Others(P.prev, me)
    ensures r.Blame? ==> var c := r.culprit; !(Verifies(P.M, P.base, P.zero, Share(me, shares[c]), vectors[c]) && vectors[c][0] == P.M.id)
    ensures r.Done? ==> ZeroCombined(P, me, own, vectors, shares, r.value)
    ensures r.Blame? ==> written == []
    ensures r.Done? ==> Appended(P, me, own.1, vectors, [], written)
    ensures r.Done? ==> forall id :: id in Others(P.prev, me) ==> Verifies(P.M, P.base, P.zero, Share(me, shares[id]), vectors[id]) && vectors[id][0] == P.M.id
    ensures r.Done? ==> r.value.0.id == me && Verifies(P.M, P.base, P.zero, r.value.0, r.value.1) && r.value.1[0] == P.M.id
  {
    hide Distinct, Qualified, Fold, Others, Coefficients;
    var ids := Others(P.prev, me);
    FieldModuleLawful(P.M.scalars);
    var checked := CheckZeroSharings(P, me, ids, vectors, shares);
    if checked.Blame? {
      return Blame(checked.culprit), [];
    }
    OthersMembers(P.prev, me);
    written := WriteCoefficients(P.prev, vectors[me := own.1]);
    VerifiedLength(P.M, P.base, P.zero, own.0, own.1);
    forall id | id in ids ensures |shares[id]| == |own.0.v| {
      VerifiedLength(P.M, P.base, P.zero, Share(me, shares[id]), vectors[id]);
    }
    var share := Aggregate(FieldModule(P.M.scalars), Some(own.0.v), ids, shares, |own.0.v|);
    var vector := Aggregate(P.M, Some(own.1), ids, vectors, P.zero.d);
    assert own.0 == Share(me, own.0.v);
    FoldVerifies(P.M, P.base, P.zero, me, own.0.v, own.1, ids, shares, vectors);
    FoldOfZeros(P.M, own.1, ids, vectors);
    r := Done((Share(me, share.value), vector.value));
  }

  ghost predicate AllZeroVectorsOk<E(!new), S(!new)>(P: Setting<E, S>, ids: seq<Id>, r1b: map<Id, Option<seq<E>>>) {
    forall id :: id in ids ==> id in r1b && ZeroVectorOk(P, r1b[id])
  }

  /** A sharing of zero that was checked: the right shape, addressed to me, matching its vector, which
      commits to zero. */
  ghost predicate ZeroSharingChecked<E(!new), S(!new)>(P: Setting<E, S>, me: Id, r1b: map<Id, Option<seq<E>>>, r1u: map<Id, Option<Share<S>>>, id: Id)
    requires P.Valid()
  {
    && id in r1b && r1b[id].Some? && |r1b[id].value| == P.zero.d && r1b[id].value[0] == P.M.id
    && id in r1u && r1u[id].Some? && r1u[id].value.id == me && me in P.zero.holders
    && LiftVec(P.M, r1u[id].value.v, P.base) == ShareOf(P.M, P.zero, r1b[id].value, me).v
  }

  /** The whole of that round: validate, then combine. */
  method JoinZeroSharing<E(==, !new), S(!new)>(
      P: Setting<E, S>, me: Id, own: Option<(Share<S>, seq<E>)>, r1b: map<Id, Option<seq<E>>>, r1u: map<Id, Option<Share<S>>>)
      returns (r: Outcome<(Share<S>, seq<E>)>, written: seq<E>)
    requires P.Valid()
    requires own.Some? ==> own.value.0.id == me && Verifies(P.M, P.base, P.zero, own.value.0, own.value.1) && own.value.1[0] == P.M.id
    ensures !r.Done? ==> written == []
    ensures r.Done? ==>
      var vectors, shares := Received(Others(P.prev, me), r1b), Values(Received(Others(P.prev, me), r1u));
      && own.Some? && AllZeroVectorsOk(P, Others(P.prev, me), r1b)
      && ZeroCombined(P, me, own.value, vectors, shares, r.value)
      && r.value.0.id == me && Verifies(P.M, P.base, P.zero, r.value.0, r.value.1) && r.value.1[0] == P.M.id
      && Appended(P, me, own.value.1, vectors, [], written)
    ensures r.Done? ==> forall id :: id in Others(P.prev, me) ==> ZeroSharingChecked(P, me, r1b, r1u, id)
    ensures r.Blame? ==> r.culprit in Others(P.prev, me) && r.culprit in r1b
    ensures r.Blame? ==> BadZeroSharing(P, me, Lookup(r1b, r.culprit), Lookup(r1u, r.culprit))
    ensures r.Failed? && Arrived(Others(P.prev, me), r1b, r1u) ==> own.None?
  {
    hide Verifies, Others, ZeroCombined, Distinct, Appended, ZeroSharingChecked;
    var ids := Others(P.prev, me);
    var b := ValidateIncoming(ids, r1b, m => ZeroVectorOk(P, m));
    if !b.Done? {
      r := if b.Blame? then Blame(b.culprit) else Failed;
      return r, [];
    }
    var u := ValidateIncoming(ids, r1u, m => ZeroShareOk(me, m));
    if !u.Done? {
      r := if u.Blame? then Blame(u.culprit) else Failed;
      return r, [];
    }
    if own.None? {
      return Failed, [];
    }
    var vectors, shares := Received(ids, r1b), Values(Received(ids, r1u));
    r, written := FinishZero(P, me, own.value, vectors, shares);
    if r.Done? {
      CheckedZeroSharings(P, me, ids, r1b, r1u);
    }
    if r.Blame? {
      assert Share(me, shares[r.culprit]) == r1u[r.culprit].value;
    }
  }

  lemma CheckedZeroSharings<E(!new), S(!new)>(P: Setting<E, S>, me: Id, ids: seq<Id>, r1b: map<Id, Option<seq<E>>>, r1u: map<Id, Option<Share<S>>>)
    requires P.Valid() && AllZeroVectorsOk(P, ids, r1b) && forall id :: id in ids ==> id in r1u && ZeroShareOk(me, r1u[id])
    requires var vectors, shares := Received(ids, r1b), Values(Received(ids, r1u));
      forall id :: id in ids ==> id in shares && id in vectors && |vectors[id]| > 0 && Verifies(P.M, P.base, P.zero, Share(me, shares[id]), vectors[id]) && vectors[id][0] == P.M.id
    ensures forall id :: id in ids ==> ZeroSharingChecked(P, me, r1b, r1u, id)
  {
    forall id | id in ids ensures ZeroSharingChecked(P, me, r1b, r1u, id) {
      assert Received(ids, r1b)[id] == r1b[id].value && Values(Received(ids, r1u))[id] == r1u[id].value.v;
    }
  }

  /** What a previous shareholder publishes and sends in round 2. */
  ghost predicate Reshared<E(!new), S(!new)>(
      P: Setting<E, S>, me: Id, shard: Shard<E, S>, zero: (Share<S>, seq<E>), random: seq<S>, metadata: Metadata<E, S>, sent: map<Id, Share<S>>, own: Share<S>)
    requires P.Valid() && |random| == P.next.d
    requires Convertible(P.M.scalars, shard.msp, IdSet(P.prev), shard.share) && Convertible(P.M.scalars, P.zero, IdSet(P.prev), zero.0)
  {
    var column := random[0 := Contribution(P, shard.msp, shard.share, zero.0)];
    && metadata == Metadata(shard.msp, shard.vector, zero.1, LiftVec(P.M, column, P.base))
    && (forall id :: id in sent <==> id in P.next.holders && id != me)
    && (forall id :: id in sent ==> sent[id] == ShareOf(FieldModule(P.M.scalars), P.next, column, id))
    && own == ShareOf(FieldModule(P.M.scalars), P.next, column, me)
  }

  /** Converts the old share and the zero share, and re-shares their sum. */
  method Reshare<E(==, !new), S(==, !new)>(P: Setting<E, S>, me: Id, shard: Shard<E, S>, zero: (Share<S>, seq<E>), random: seq<S>)
      returns (metadata: Metadata<E, S>, sent: map<Id, Share<S>>, own: Share<S>)
    requires P.Valid() && me in P.prev && |random| == P.next.d && shard.msp.Valid() && shard.share.id == zero.0.id == me
    requires Verifies(P.M, P.base, shard.msp, shard.share, shard.vector) && Qualified(P.M.scalars, shard.msp, IdSet(P.prev))
    requires Verifies(P.M, P.base, P.zero, zero.0, zero.1)
    ensures Convertible(P.M.scalars, shard.msp, IdSet(P.prev), shard.share) && Convertible(P.M.scalars, P.zero, IdSet(P.prev), zero.0)
    ensures Reshared(P, me, shard, zero, random, metadata, sent, own)
    ensures Fitting(P, metadata) && Consistent(P, Trust(shard.msp, shard.vector, zero.1), metadata, me)
    ensures |metadata.nextVector| == P.next.d && metadata.nextVector[0] == Partial(P, Trust(shard.msp, shard.vector, zero.1), me)
    ensures me in P.next.holders ==> own.id == me && Verifies(P.M, P.base, P.next, own, metadata.nextVector)
  {
    FieldModuleLawful(P.M.scalars);
    ContributionLifts(P, Trust(shard.msp, shard.vector, zero.1), shard.share, zero.0);
    var additive := ConvertToAdditive(FieldModule(P.M.scalars), shard.msp, shard.share, P.prev);
    var shift := ConvertToAdditive(FieldModule(P.M.scalars), P.zero, zero.0, P.prev);
    var column := random[0 := P.M.scalars.add(additive.value, shift.value)];
    metadata := Metadata(shard.msp, shard.vector, zero.1, LiftVec(P.M, column, P.base));
    OthersMembers(P.next.holders, me);
    sent := DealShares(P.M.scalars, P.next, column, Others(P.next.holders, me));
    own := ComputeShare(FieldModule(P.M.scalars), P.next, column, me);
    if me in P.next.holders {
      DealtShareVerifies(P.M, P.base, P.next, column, me);
    }
  }

  // ----- Round 3

  /** The aggregates of the contributions, one's own first. */
  ghost predicate Accumulated<E(!new), S(!new)>(
      P: Setting<E, S>, me: Id, ids: seq<Id>, ownShare: Option<seq<S>>, ownVector: Option<seq<E>>,
      metadata: map<Id, Metadata<E, S>>, shares: map<Id, seq<S>>, share: Option<seq<S>>, vector: Option<seq<E>>)
  {
    var FM := FieldModule(P.M.scalars);
    var s, V := Start(FM, ownShare, RowCount(P.next, me)), Start(P.M, ownVector, P.next.d);
    && Fits(ids, shares, |s|) && Fits(ids, NextVectors(metadata), |V|)
    && share == Some(Fold(FM, s, ids, shares)) && vector == Some(Fold(P.M, V, ids, NextVectors(metadata)))
  }

  /** Aggregates validated round-2 messages. */
  method AggregateBoth<E(!new), S(!new)>(
      P: Setting<E, S>, me: Id, ownShare: Option<seq<S>>, ownVector: Option<seq<E>>, metadata: map<Id, Metadata<E, S>>, shares: map<Id, seq<S>>)
      returns (share: Option<seq<S>>, vector: Option<seq<E>>)
    requires P.Valid() && (ownShare.Some? <==> ownVector.Some?)
    requires ownShare.Some? ==> Verifies(P.M, P.base, P.next, Share(me, ownShare.value), ownVector.value)
    requires AllFitting(P, Others(P.prev, me), metadata) && Fits(Others(P.prev, me), shares, RowCount(P.next, me))
    ensures Accumulated(P, me, Others(P.prev, me), ownShare, ownVector, metadata, shares, share, vector)
    ensures share.Some? && vector.Some? && |vector.value| == P.next.d
  {
    hide Qualified, Distinct, Others, Fold;
    var ids := Others(P.prev, me);
    FieldModuleLawful(P.M.scalars);
    if ownShare.Some? {
      VerifiedLength(P.M, P.base, P.next, Share(me, ownShare.value), ownVector.value);
    }
    OthersNonEmpty(P, me);
    share := Aggregate(FieldModule(P.M.scalars), ownShare, ids, shares, RowCount(P.next, me));
    vector := Aggregate(P.M, ownVector, ids, NextVectors(metadata), P.next.d);
  }

  /** Checks validated and aggregated round-2 messages. */
  method Conclude<E(==, !new), S(==, !new)>(
      P: Setting<E, S>, me: Id, ref: Reference<E, S>, ownShare: Option<seq<S>>, ownVector: Option<seq<E>>,
      metadata: map<Id, Metadata<E, S>>, shares: map<Id, seq<S>>, share: seq<S>, vector: seq<E>) returns (r: Outcome<Shard<E, S>>)
    requires P.Valid() && me in P.next.holders && (ref.Known? ==> Shaped(P, ref.trust))
    requires ownShare.Some? <==> ownVector.Some?
    requires ownShare.Some? ==> Verifies(P.M, P.base, P.next, Share(me, ownShare.value), ownVector.value)
    requires ref.Known? && Usable(P, ref.trust) ==> OwnPartial(P, ref.trust, me, ownVector)
    requires AllFitting(P, Others(P.prev, me), metadata) && Fits(Others(P.prev, me), shares, RowCount(P.next, me))
    requires Accumulated(P, me, Others(P.prev, me), ownShare, ownVector, metadata, shares, Some(share), Some(vector)) && |vector| == P.next.d
    ensures var ids := Others(P.prev, me);
      r.Done? ==> Sound(P, me, ref, ids, ownShare, ownVector, metadata, shares, r.value)
    ensures r.Blame? ==> r.culprit in Others(P.prev, me)
    ensures r.Blame? ==> var b := metadata[r.culprit];
      || !Verifies(P.M, P.base, P.next, Share(me, shares[r.culprit]), b.nextVector)
      || (ref.Known? && (Usable(P, ref.trust) || !SameMetadata(ref.trust, b)) && !Consistent(P, ref.trust, b, r.culprit))
    ensures r.Failed? ==> Excuse(P, ref, Others(P.prev, me), ownVector, metadata)
  {
    hide Qualified, Distinct, Partial, Verifies, Fold;
    var ids := Others(P.prev, me);
    OthersMembers(P.prev, me);
    var key := vector[0];
    var each := VerifyEach(P, me, ids, shares, NextVectors(metadata));
    if each.Blame? {
      return Blame(each.culprit);
    }
    AggregateVerifies(P, me, ownShare, ownVector, ids, shares, NextVectors(metadata));
    if ref.Lost? {
      return Failed;
    }
    if ref.Known? {
      var trusted := CheckTrusted(P, ref.trust, ids, metadata);
      if !trusted.Done? {
        return if trusted.Blame? then Blame(trusted.culprit) else Failed;
      }
      FirstOther(P, me, ref.trust, metadata);
      KeyShift(P, ref.trust, me, ownVector, metadata);
      assert P.M.OpId(ref.trust.vector[0]);
    }
    var keys := CheckKeys(P, ids, metadata, key);
    if !keys {
      return Failed;
    }
    var ok := Verify(P.M, P.base, P.next, Share(me, share), vector);
    assert ok; // the final check never rejects what the checks above let through
    r := Done(Shard(Share(me, share), vector, P.next));
  }

  ghost predicate AllMetadataOk<E(!new), S(!new)>(P: Setting<E, S>, ids: seq<Id>, r2b: map<Id, Option<Metadata<E, S>>>) {
    forall id :: id in ids ==> id in r2b && MetadataOk(P, r2b[id])
  }

  /** Both round-2 messages of every sender pass validation. */
  ghost predicate WellFormed<E(!new), S(!new)>(P: Setting<E, S>, me: Id, ids: seq<Id>, r2b: map<Id, Option<Metadata<E, S>>>, r2u: map<Id, Option<Share<S>>>) {
    AllMetadataOk(P, ids, r2b) && forall id :: id in ids ==> id in r2u && NextShareOk(P, me, r2u[id])
  }

  /** The whole of round 3 for a next shareholder: validate, then conclude. */
  method Settle<E(==, !new), S(==, !new)>(
      P: Setting<E, S>, me: Id, ref: Reference<E, S>, ownShare: Option<seq<S>>, ownVector: Option<seq<E>>,
      r2b: map<Id, Option<Metadata<E, S>>>, r2u: map<Id, Option<Share<S>>>) returns (r: Outcome<Shard<E, S>>, share: Option<seq<S>>, vector: Option<seq<E>>)
    requires P.Valid() && me in P.next.holders
    requires AllMetadataOk(P, Others(P.prev, me), r2b) && ref.Known? ==> Shaped(P, ref.trust)
    requires ownShare.Some? <==> ownVector.Some?
    requires ownShare.Some? ==> Verifies(P.M, P.base, P.next, Share(me, ownShare.value), ownVector.value)
    requires ref.Known? && Usable(P, ref.trust) ==> OwnPartial(P, ref.trust, me, ownVector)
    ensures var ids := Others(P.prev, me);
      if WellFormed(P, me, ids, r2b, r2u) then Accumulated(P, me, ids, ownShare, ownVector, Received(ids, r2b), Values(Received(ids, r2u)), share, vector)
      else share == ownShare && vector == ownVector
    ensures WellFormed(P, me, Others(P.prev, me), r2b, r2u) ==> share.Some?
    ensures r.Done? ==> WellFormed(P, me, Others(P.prev, me), r2b, r2u)
    ensures r.Done? ==>
      var ids := Others(P.prev, me);
      var metadata, shares := Received(ids, r2b), Values(Received(ids, r2u));
      && AllFitting(P, ids, metadata) && Fits(ids, shares, RowCount(P.next, me))
      && Sound(P, me, ref, ids, ownShare, ownVector, metadata, shares, r.value)
    ensures r.Blame? ==> r.culprit in Others(P.prev, me) && r.culprit in r2b
    ensures r.Blame? ==> BadContribution(P, me, ref, Lookup(r2b, r.culprit), Lookup(r2u, r.culprit), r.culprit)
    ensures r.Failed? && Arrived(Others(P.prev, me), r2b, r2u) ==>
      var ids := Others(P.prev, me);
      AllFitting(P, ids, Received(ids, r2b)) && Excuse(P, ref, ids, ownVector, Received(ids, r2b))
  {
    hide Verifies, Usable, Others, Sound, Excuse, Distinct, Consistent, OwnPartial, RowCount, Accumulated;
    var ids := Others(P.prev, me);
    var b := ValidateIncoming(ids, r2b, m => MetadataOk(P, m));
    share, vector := ownShare, ownVector;
    if !b.Done? {
      r := if b.Blame? then Blame(b.culprit) else Failed;
      return;
    }
    var u := ValidateIncoming(ids, r2u, m => NextShareOk(P, me, m));
    if !u.Done? {
      r := if u.Blame? then Blame(u.culprit) else Failed;
      return;
    }
    var metadata, shares := Received(ids, r2b), Values(Received(ids, r2u));
    ValidatedContents(P, me, ids, r2b, r2u);
    hide Received, Values, Fits, MetadataOk, NextShareOk;
    share, vector := AggregateBoth(P, me, ownShare, ownVector, metadata, shares);
    r := Conclude(P, me, ref, ownShare, ownVector, metadata, shares, share.value, vector.value);
    if r.Blame? {
      BlamedContents(P, me, ref, ids, r2b, r2u, r.culprit);
    }
  }

  /** What the accepted messages contain. */
  lemma ValidatedContents<E(!new), S(!new)>(P: Setting<E, S>, me: Id, ids: seq<Id>, r2b: map<Id, Option<Metadata<E, S>>>, r2u: map<Id, Option<Share<S>>>)
    requires forall id :: id in ids ==> id in r2b && MetadataOk(P, r2b[id])
    requires forall id :: id in ids ==> id in r2u && NextShareOk(P, me, r2u[id])
    ensures AllMetadataOk(P, ids, r2b)
    ensures AllFitting(P, ids, Received(ids, r2b)) && Fits(ids, Values(Received(ids, r2u)), RowCount(P.next, me))
    ensures forall id :: id in ids ==> Received(ids, r2b)[id] == r2b[id].value && Share(me, Values(Received(ids, r2u))[id]) == r2u[id].value
  {
  }

  lemma BlamedContents<E(!new), S(!new)>(
      P: Setting<E, S>, me: Id, ref: Reference<E, S>, ids: seq<Id>, r2b: map<Id, Option<Metadata<E, S>>>, r2u: map<Id, Option<Share<S>>>, c: Id)
    requires P.Valid() && c in ids && AllFitting(P, ids, Received(ids, r2b)) && Fits(ids, Values(Received(ids, r2u)), RowCount(P.next, me))
    requires c in r2b && MetadataOk(P, r2b[c]) && c in r2u && NextShareOk(P, me, r2u[c])
    requires var b := Received(ids, r2b)[c];
      || !Verifies(P.M, P.base, P.next, Share(me, Values(Received(ids, r2u))[c]), b.nextVector)
      || (ref.Known? && (Usable(P, ref.trust) || !SameMetadata(ref.trust, b)) && !Consistent(P, ref.trust, b, c))
    ensures BadContribution(P, me, ref, Lookup(r2b, c), Lookup(r2u, c), c)
  {
    hide Verifies, Usable, Consistent;
    assert Share(me, Values(Received(ids, r2u))[c]) == r2u[c].value;
  }

  lemma OthersNonEmpty<E(!new), S(!new)>(P: Setting<E, S>, me: Id)
    requires P.Valid()
    ensures |Others(P.prev, me)| > 0
  {
    OthersMembers(P.prev, me);
    assert P.prev[0] != P.prev[1];
    assert P.prev[0] in P.prev && P.prev[1] in P.prev;
  }

  lemma FirstOther<E(!new), S(!new)>(P: Setting<E, S>, me: Id, T: Trust<E, S>, metadata: map<Id, Metadata<E, S>>)
    requires P.Valid() && AllFitting(P, Others(P.prev, me), metadata)
    requires forall id :: id in Others(P.prev, me) ==> Consistent(P, T, metadata[id], id)
    ensures Usable(P, T)
  {
    OthersNonEmpty(P, me);
    assert Others(P.prev, me)[0] in Others(P.prev, me);
  }

  /** A shard that round 3 may return. */
  ghost predicate Sound<E(!new), S(!new)>(
      P: Setting<E, S>, me: Id, ref: Reference<E, S>, ids: seq<Id>, ownShare: Option<seq<S>>, ownVector: Option<seq<E>>,
      metadata: map<Id, Metadata<E, S>>, shares: map<Id, seq<S>>, shard: Shard<E, S>)
    requires P.Valid() && AllFitting(P, ids, metadata) && Fits(ids, shares, RowCount(P.next, me))
  {
    var FM := FieldModule(P.M.scalars);
    var s, V := Start(FM, ownShare, RowCount(P.next, me)), Start(P.M, ownVector, P.next.d);
    && |s| == RowCount(P.next, me) && |V| == P.next.d
    // it aggregates the contributions, own first
    && shard == Shard(Share(me, Fold(FM, s, ids, shares)), Fold(P.M, V, ids, NextVectors(metadata)), P.next)
    // every contribution and the aggregate verify
    && Verifies(P.M, P.base, P.next, shard.share, shard.vector)
    && (forall id :: id in ids ==> Verifies(P.M, P.base, P.next, Share(me, shares[id]), metadata[id].nextVector))
    // the public key is the old one, as every sender states it
    && (forall id :: id in ids ==> metadata[id].prevVector[0] == shard.vector[0])
    // the reference, if any, vouches for every sender
    && !ref.Lost?
    && (ref.Known? ==> forall id :: id in ids ==> Consistent(P, ref.trust, metadata[id], id))
  }

  /** The only circumstances in which validated messages fail without a culprit: the party lost its
      own zero vector; its reference does not qualify the previous shareholders or does not commit
      to a sharing of zero; or, without a reference, the stated old keys differ from the new one. */
  ghost predicate Excuse<E(!new), S(!new)>(P: Setting<E, S>, ref: Reference<E, S>, ids: seq<Id>, ownVector: Option<seq<E>>, metadata: map<Id, Metadata<E, S>>)
    requires P.Valid() && AllFitting(P, ids, metadata)
  {
    match ref
    case Lost => true
    case Known(T) => !Usable(P, T) || T.zeroVector[0] != P.M.id
    case NoAnchor =>
      && |Start(P.M, ownVector, P.next.d)| == P.next.d
      && exists id :: id in ids && metadata[id].prevVector[0] != Fold(P.M, Start(P.M, ownVector, P.next.d), ids, NextVectors(metadata))[0]
  }

  /** A contribution that was checked: the right shapes, addressed to me, matching its vector, under the
      key of the new shard. */
  ghost predicate ContributionChecked<E(!new), S(!new)>(
      P: Setting<E, S>, me: Id, r2b: map<Id, Option<Metadata<E, S>>>, r2u: map<Id, Option<Share<S>>>, id: Id, vector: seq<E>)
    requires P.Valid()
  {
    && id in r2b && r2b[id].Some? && id in r2u && r2u[id].Some? && |vector| == P.next.d
    && var m, u := r2b[id].value, r2u[id].value;
       && m.prevMsp.Valid() && |m.prevVector| == m.prevMsp.d && |m.zeroVector| == P.zero.d && |m.nextVector| == P.next.d
       && m.prevVector[0] == vector[0]
       && u.id == me && me in P.next.holders && |u.v| == |Pick(P.next.holders, P.next.holders, {me})|
       && LiftVec(P.M, u.v, P.base) == ShareOf(P.M, P.next, m.nextVector, me).v
  }

  ghost predicate StatesTrust<E, S>(m: Metadata<E, S>, T: Trust<E, S>) {
    m.prevMsp == T.msp && m.prevVector == T.vector && m.zeroVector == T.zeroVector
  }

  lemma SoundChecked<E(!new), S(!new)>(
      P: Setting<E, S>, me: Id, ref: Reference<E, S>, ids: seq<Id>, ownShare: Option<seq<S>>, ownVector: Option<seq<E>>,
      r2b: map<Id, Option<Metadata<E, S>>>, r2u: map<Id, Option<Share<S>>>, shard: Shard<E, S>)
    requires P.Valid() && me in P.next.holders && WellFormed(P, me, ids, r2b, r2u)
    requires AllFitting(P, ids, Received(ids, r2b)) && Fits(ids, Values(Received(ids, r2u)), RowCount(P.next, me))
    requires Sound(P, me, ref, ids, ownShare, ownVector, Received(ids, r2b), Values(Received(ids, r2u)), shard)
    ensures !ref.Lost? && shard.share.id == me && Verifies(P.M, P.base, P.next, shard.share, shard.vector)
    ensures forall id :: id in ids ==> ContributionChecked(P, me, r2b, r2u, id, shard.vector) && (ref.Known? ==> StatesTrust(r2b[id].value, ref.trust))
  {
    hide Distinct, Qualified, Fold, Usable, Partial;
    forall id | id in ids ensures ContributionChecked(P, me, r2b, r2u, id, shard.vector) && (ref.Known? ==> StatesTrust(r2b[id].value, ref.trust)) {
      assert Received(ids, r2b)[id] == r2b[id].value && Values(Received(ids, r2u))[id] == r2u[id].value.v;
    }
  }

  // ----- The participant

  class Participant<E(==, !new), S(==, !new)> {
    const P: Setting<E, S>
    const me: Id
    const prevShard: Option<Shard<E, S>>
    const anchor: Option<Id>
    var round: nat
    /** This party's dealing of zero to itself: its share and its verification vector. */
    var ownZero: Option<(Share<S>, seq<E>)>
    var zeroVector: Option<seq<E>>
    var share: Option<Share<S>>
    var vector: Option<seq<E>>
    /** What the zero sharing has appended to the transcript of its session. */
    var tape: seq<E>

    /** A previous shareholder holds a shard that verifies and that the quorum can reconstruct. */
    ghost predicate Configured() {
      && P.Valid() && (anchor.Some? ==> anchor.value in P.prev)
      && (me in P.prev ==> prevShard.Some? && GoodShard(prevShard.value))
    }

    ghost predicate GoodShard(shard: Shard<E, S>)
      requires P.Valid()
    {
      && shard.msp.Valid() && shard.share.id == me
      && Verifies(P.M, P.base, shard.msp, shard.share, shard.vector)
      && Qualified(P.M.scalars, shard.msp, IdSet(P.prev))
    }

    /** What holds between rounds, whatever messages arrived: the own sharing of zero verifies, the
        combined zero vector commits to zero, and the own contribution to the new shard verifies
        and is the one the others expect. */
    ghost predicate Valid()
      reads this
    {
      && Configured()
      && (ownZero.Some? ==> me in P.prev && OwnZeroGood(ownZero.value))
      && (zeroVector.Some? ==> me in P.prev && |zeroVector.value| == P.zero.d && zeroVector.value[0] == P.M.id)
      && (round <= 2 ==> zeroVector.None?)
      && (round <= 3 ==> (share.Some? <==> zeroVector.Some? && me in P.next.holders) && (share.Some? <==> vector.Some?))
      && (round <= 3 && share.Some? ==> OwnContributionGood())
    }

    ghost predicate OwnZeroGood(dealt: (Share<S>, seq<E>))
      requires P.Valid()
    {
      dealt.0.id == me && Verifies(P.M, P.base, P.zero, dealt.0, dealt.1) && dealt.1[0] == P.M.id
    }

    ghost predicate OwnContributionGood()
      requires Configured() && me in P.prev && share.Some? && vector.Some? && zeroVector.Some? && |zeroVector.value| == P.zero.d
      reads this
    {
      && share.value.id == me && Verifies(P.M, P.base, P.next, share.value, vector.value)
      && vector.value[0] == Partial(P, Trust(prevShard.value.msp, prevShard.value.vector, zeroVector.value), me)
    }

    constructor (P: Setting<E, S>, me: Id, prevShard: Option<Shard<E, S>>, anchor: Option<Id>)
      requires P.Valid() && (anchor.Some? ==> anchor.value in P.prev)
      requires me in P.prev ==>
        && prevShard.Some? && prevShard.value.msp.Valid() && prevShard.value.share.id == me
        && Verifies(P.M, P.base, prevShard.value.msp, prevShard.value.share, prevShard.value.vector)
        && Qualified(P.M.scalars, prevShard.value.msp, IdSet(P.prev))
      ensures Valid() && round == 1
      ensures this.P == P && this.me == me && this.prevShard == prevShard && this.anchor == anchor && tape == []
    {
      this.P, this.me, this.prevShard, this.anchor := P, me, prevShard, anchor;
      round := 1;
      ownZero, zeroVector, share, vector, tape := None, None, None, None, [];
    }

    /** Deals a sharing of zero to the other previous shareholders. */
    method Round1(random: seq<S>) returns (r: Outcome<(Option<seq<E>>, map<Id, Share<S>>)>)
      requires Valid() && |random| == P.zero.d
      modifies this
      ensures Valid() && !r.Blame? && tape == old(tape)
      ensures old(round) != 1 ==> r.Failed? && unchanged(this)
      ensures old(round) == 1 ==> round == 2
      ensures r.Failed? <==> old(round) != 1 || (me in P.prev && P.zero.d < 2)
      ensures r.Done? && me !in P.prev ==> r.value == (None, map[])
      ensures r.Done? && me in P.prev ==>
        var column := random[0 := P.M.scalars.zero];
        && r.value.0 == Some(LiftVec(P.M, column, P.base))
        && (forall id :: id in r.value.1 <==> id in Others(P.prev, me))
        && (forall id :: id in r.value.1 ==> r.value.1[id] == ShareOf(FieldModule(P.M.scalars), P.zero, column, id))
        && ownZero == Some((ShareOf(FieldModule(P.M.scalars), P.zero, column, me), LiftVec(P.M, column, P.base)))
    {
      if round != 1 {
        return Failed;
      }
      round := 2;
      if me !in P.prev {
        return Done((None, map[]));
      }
      if P.zero.d < 2 {
        return Failed;
      }
      var column := random[0 := P.M.scalars.zero];
      FieldModuleLawful(P.M.scalars);
      var own := ComputeShare(FieldModule(P.M.scalars), P.zero, column, me);
      var shares := DealShares(P.M.scalars, P.zero, column, Others(P.prev, me));
      assert me in IdSet(P.prev);
      DealtShareVerifies(P.M, P.base, P.zero, column, me);
      P.M.ActZero(P.base);
      ownZero := Some((own, LiftVec(P.M, column, P.base)));
      r := Done((Some(LiftVec(P.M, column, P.base)), shares));
    }

    /** Completes the zero sharing and re-shares the shifted additive share. */
    method Round2(r1b: map<Id, Option<seq<E>>>, r1u: map<Id, Option<Share<S>>>, random: seq<S>)
        returns (r: Outcome<(Option<Metadata<E, S>>, map<Id, Share<S>>)>)
      requires Valid() && |random| == P.next.d
      modifies this
      ensures Valid()
      ensures old(round) != 2 ==> r.Failed? && unchanged(this)
      ensures old(round) == 2 ==> round == 3 && ownZero == old(ownZero)
      ensures !r.Done? || me !in P.prev ==> zeroVector == old(zeroVector)
      // the transcript is written once the sharings of zero are verified
      ensures tape == old(tape) || (ownZero.Some? && Appended(P, me, ownZero.value.1, Received(Others(P.prev, me), r1b), old(tape), tape))
      ensures r.Done? && me in P.prev ==> ownZero.Some? && Appended(P, me, ownZero.value.1, Received(Others(P.prev, me), r1b), old(tape), tape)
      // what is sent is what the others expect
      ensures r.Done? && me in P.prev ==> zeroVector.Some? && MetadataOk(P, r.value.0)
      ensures r.Done? && me in P.prev ==> Consistent(P, Trust(prevShard.value.msp, prevShard.value.vector, zeroVector.value), r.value.0.value, me)
      ensures r.Done? && me in P.prev ==> AllZeroVectorsOk(P, Others(P.prev, me), r1b)
      // every sharing of zero was checked
      ensures r.Done? && me in P.prev ==> forall id :: id in Others(P.prev, me) ==> ZeroSharingChecked(P, me, r1b, r1u, id)
      ensures r.Blame? ==> r.culprit in r1b
      ensures old(round) == 2 && me !in P.prev ==> r == Done((None, map[]))
      ensures r.Done? && me in P.prev ==>
        var vectors, shares := Received(Others(P.prev, me), r1b), Values(Received(Others(P.prev, me), r1u));
        && ownZero.Some? && zeroVector.Some? && r.value.0.Some?
        && (me in P.next.holders ==> share.Some? && vector == Some(r.value.0.value.nextVector))
        && exists zero, own ::
          && ZeroCombined(P, me, ownZero.value, vectors, shares, zero) && zeroVector.value == zero.1
          && Convertible(P.M.scalars, prevShard.value.msp, IdSet(P.prev), prevShard.value.share)
          && Convertible(P.M.scalars, P.zero, IdSet(P.prev), zero.0)
          && Reshared(P, me, prevShard.value, zero, random, r.value.0.value, r.value.1, own)
          && (me in P.next.holders ==> share == Some(own))
      ensures r.Blame? ==> r.culprit in Others(P.prev, me)
      ensures r.Blame? ==> BadZeroSharing(P, me, Lookup(r1b, r.culprit), Lookup(r1u, r.culprit))
      ensures r.Failed? && old(round) == 2 && Arrived(Others(P.prev, me), r1b, r1u) ==>
        me in P.prev && (old(ownZero).None? || P.next.d < 2)
    {
      hide Verifies, Qualified, Partial, Others, Reshared, Convertible, ZeroCombined, Distinct, Consistent, Appended, BadZeroSharing, AllZeroVectorsOk, Received, Values, ZeroSharingChecked;
      if round != 2 {
        return Failed;
      }
      round := 3;
      if me !in P.prev {
        return Done((None, map[]));
      }
      var zero, written := JoinZeroSharing(P, me, ownZero, r1b, r1u);
      if !zero.Done? {
        return if zero.Blame? then Blame(zero.culprit) else Failed;
      }
      AppendedTo(P, me, ownZero.value.1, Received(Others(P.prev, me), r1b), tape, written);
      tape := tape + written;
      if P.next.d < 2 {
        return Failed;
      }
      var metadata, sent, own := Reshare(P, me, prevShard.value, zero.value, random);
      zeroVector := Some(zero.value.1);
      if me in P.next.holders {
        share, vector := Some(own), Some(metadata.nextVector);
      }
      r := Done((Some(metadata), sent));
    }

    /** The reference for old metadata: the own shard, the anchor's message, or none. */
    function ReferenceFor(r2b: map<Id, Option<Metadata<E, S>>>): Reference<E, S>
      requires Configured()
      reads this
    {
      if me in P.prev then
        if zeroVector.Some? then Known(Trust(prevShard.value.msp, prevShard.value.vector, zeroVector.value)) else Lost
      else if anchor.None? then NoAnchor
      else match Lookup(r2b, anchor.value)
        case Some(m) => Known(Trust(m.prevMsp, m.prevVector, m.zeroVector))
        case None => Lost
    }

    lemma PrevShardShaped()
      requires Configured() && me in P.prev
      ensures prevShard.value.msp.Valid() && |prevShard.value.vector| == prevShard.value.msp.d
    {
    }

    lemma AnchorShaped(r2b: map<Id, Option<Metadata<E, S>>>)
      requires Configured() && (zeroVector.Some? ==> |zeroVector.value| == P.zero.d)
      ensures AllMetadataOk(P, Others(P.prev, me), r2b) && ReferenceFor(r2b).Known? ==> Shaped(P, ReferenceFor(r2b).trust)
    {
      OthersMembers(P.prev, me);
      if me in P.prev {
        PrevShardShaped();
      }
    }

    /** The state in which a next shareholder enters round 3. */
    ghost predicate Ready(ref: Reference<E, S>)
      requires Configured()
      reads this
    {
      && (share.Some? <==> vector.Some?)
      && (share.Some? ==> Verifies(P.M, P.base, P.next, Share(me, share.value.v), vector.value))
      && (ref.Known? && Usable(P, ref.trust) ==> OwnPartial(P, ref.trust, me, vector))
    }

    lemma EnterRound3(r2b: map<Id, Option<Metadata<E, S>>>)
      requires Valid() && round == 3 && me in P.next.holders
      ensures Ready(ReferenceFor(r2b)) && (share.Some? ==> share.value == Share(me, share.value.v))
      ensures me in P.prev && zeroVector.Some? ==> Usable(P, ReferenceFor(r2b).trust)
    {
      if share.Some? {
        assert share.value == Share(me, share.value.v);
      }
    }

    /** Verifies and aggregates the contributions into the new shard. */
    method Round3(r2b: map<Id, Option<Metadata<E, S>>>, r2u: map<Id, Option<Share<S>>>) returns (r: Outcome<Option<Shard<E, S>>>)
      requires Valid()
      modifies this
      ensures Valid()
      ensures old(round) != 3 ==> r.Failed? && unchanged(this)
      ensures old(round) == 3 ==> round == 4
      ensures ownZero == old(ownZero) && zeroVector == old(zeroVector) && tape == old(tape)
      // once the messages are validated the aggregates are recorded, even when a later check rejects
      ensures old(round) == 3 ==> var ids := Others(P.prev, me);
        if me in P.next.holders && WellFormed(P, me, ids, r2b, r2u) then
          && share.Some? && share.value.id == me
          && Accumulated(P, me, ids, OwnValues(old(share)), old(vector), Received(ids, r2b), Values(Received(ids, r2u)), OwnValues(share), vector)
        else share == old(share) && vector == old(vector)
      ensures old(round) == 3 && me !in P.next.holders ==> r == Done(None)
      ensures r.Done? ==> (r.value.Some? <==> me in P.next.holders)
      ensures r.Done? && r.value.Some? ==>
        var ids := Others(P.prev, me);
        var metadata, shares := Received(ids, r2b), Values(Received(ids, r2u));
        && AllFitting(P, ids, metadata) && Fits(ids, shares, RowCount(P.next, me))
        && Sound(P, me, old(ReferenceFor(r2b)), ids, OwnValues(old(share)), old(vector), metadata, shares, r.value.value)
      ensures r.Done? && r.value.Some? ==> Verifies(P.M, P.base, P.next, r.value.value.share, r.value.value.vector) && r.value.value.share.id == me
      // every contribution was checked, against the own shard or the anchor's message
      ensures r.Done? && r.value.Some? ==> forall id :: id in Others(P.prev, me) ==>
        && ContributionChecked(P, me, r2b, r2u, id, r.value.value.vector)
        && (me in P.prev ==>
              old(zeroVector).Some? && StatesTrust(r2b[id].value, Trust(prevShard.value.msp, prevShard.value.vector, old(zeroVector).value)))
        && (me !in P.prev && anchor.Some? ==>
              anchor.value in r2b && r2b[anchor.value].Some?
              && StatesTrust(r2b[id].value, Trust(r2b[anchor.value].value.prevMsp, r2b[anchor.value].value.prevVector, r2b[anchor.value].value.zeroVector)))
      ensures r.Blame? ==> r.culprit in Others(P.prev, me) && r.culprit in r2b
      ensures r.Blame? ==> BadContribution(P, me, old(ReferenceFor(r2b)), Lookup(r2b, r.culprit), Lookup(r2u, r.culprit), r.culprit)
      ensures r.Failed? && old(round) == 3 && Arrived(Others(P.prev, me), r2b, r2u) ==>
        var ids := Others(P.prev, me);
        && AllFitting(P, ids, Received(ids, r2b))
        && Excuse(P, old(ReferenceFor(r2b)), ids, old(vector), Received(ids, r2b))
      // a previous shareholder that completed round 2 names a culprit whenever it rejects
      ensures r.Failed? && old(round) == 3 && Arrived(Others(P.prev, me), r2b, r2u) ==>
        me !in P.prev || old(zeroVector).None?
    {
      hide Verifies, Usable, Others, Sound, Excuse, Distinct, Consistent, Partial, OwnPartial, Accumulated, WellFormed, ContributionChecked, StatesTrust;
      if round != 3 {
        return Failed;
      }
      if me !in P.next.holders {
        round := 4;
        return Done(None);
      }
      EnterRound3(r2b);
      round := 4;
      var ref := ReferenceFor(r2b);
      AnchorShaped(r2b);
      ghost var own, own' := vector, OwnValues(share);
      var shard, values, aggregate := Settle(P, me, ref, OwnValues(share), vector, r2b, r2u);
      share, vector := if values.Some? then Some(Share(me, values.value)) else None, aggregate;
      if shard.Done? {
        SoundChecked(P, me, ref, Others(P.prev, me), own', own, r2b, r2u, shard.value);
        return Done(Some(shard.value));
      }
      if shard.Failed? && Arrived(Others(P.prev, me), r2b, r2u) {
        ExcuseOfPrevious(P, ref, Others(P.prev, me), own, Received(Others(P.prev, me), r2b));
      }
      r := if shard.Blame? then Blame(shard.culprit) else Failed;
    }
  }

  lemma ExcuseOfPrevious<E(!new), S(!new)>(P: Setting<E, S>, ref: Reference<E, S>, ids: seq<Id>, own: Option<seq<E>>, metadata: map<Id, Metadata<E, S>>)
    requires P.Valid() && AllFitting(P, ids, metadata) && Excuse(P, ref, ids, own, metadata)
    ensures ref.Known? && Usable(P, ref.trust) ==> ref.trust.zeroVector[0] != P.M.id
  {
  }

  function OwnValues<S>(share: Option<Share<S>>): Option<seq<S>> {
    if share.Some? then Some(share.value.v) else None
  }
}
