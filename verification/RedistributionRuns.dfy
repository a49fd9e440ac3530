/** All-honest runs of the redistribution protocol. */
module RedistributionRuns {
  import opened Options
  import opened Network
  import opened Modules
  import opened SpanPrograms
  import opened PartySums
  import opened Redistribution
  import opened RedistributionParty

  /** The secrets behind a run: the column of the old sharing, and the columns each previous
      shareholder deals, of zero in round 1 and of its contribution in round 2. */
  datatype Run<!E(!new), !S(!new)> = Run(P: Setting<E, S>, msp: Msp<S>, oldColumn: seq<S>, zeros: map<Id, seq<S>>, nexts: map<Id, seq<S>>) {
    function FM(): Module<S, S> {
      FieldModule(P.M.scalars)
    }

    ghost predicate Dealing() {
      && P.Valid() && msp.Valid() && |oldColumn| == msp.d && Qualified(P.M.scalars, msp, IdSet(P.prev))
      && Columns(zeros, P.zero.d)
    }

    /** The round-1 dealings really are of zero. */
    ghost predicate Zeroed()
      requires Dealing()
    {
      forall id :: id in P.prev ==> zeros[id][0] == P.M.scalars.zero
    }

    ghost predicate Columns(f: map<Id, seq<S>>, n: nat) {
      n > 0 && (forall id :: id in f ==> |f[id]| == n) && forall id :: id in P.prev ==> id in f && |f[id]| == n
    }

    /** The column of the combined zero sharing. */
    ghost function ZeroColumn(): (r: seq<S>)
      requires Dealing()
      ensures |r| == P.zero.d
    {
      FoldAll(FM(), P.prev, zeros, P.zero.d)
    }

    /** What party id contributes: its additive share of the secret plus its additive share of zero. */
    ghost function ContributionOf(id: Id): S
      requires Dealing() && id in P.prev
    {
      ShareConvertible(FM(), msp, IdSet(P.prev), oldColumn, id);
      ShareConvertible(FM(), P.zero, IdSet(P.prev), ZeroColumn(), id);
      Contribution(P, msp, ShareOf(FM(), msp, oldColumn, id), ShareOf(FM(), P.zero, ZeroColumn(), id))
    }

    /** Every previous shareholder deals its contribution, whatever the round-1 dealings are of. */
    ghost predicate Contributing() {
      && Dealing() && Columns(nexts, P.next.d)
      && forall id :: id in P.prev ==> nexts[id][0] == ContributionOf(id)
    }

    ghost predicate Honest() {
      Contributing() && Zeroed()
    }

    /** The column that the new shares are shares of. */
    ghost function NextColumn(): (r: seq<S>)
      requires Contributing()
      ensures |r| == P.next.d
    {
      FoldAll(FM(), P.prev, nexts, P.next.d)
    }

    ghost function HonestMetadata(id: Id): Metadata<E, S>
      requires Contributing() && id in P.prev
    {
      Metadata(msp, LiftVec(P.M, oldColumn, P.base), LiftVec(P.M, ZeroColumn(), P.base), LiftVec(P.M, nexts[id], P.base))
    }

    ghost function HonestTrust(): Trust<E, S>
      requires Contributing()
    {
      Trust(msp, LiftVec(P.M, oldColumn, P.base), LiftVec(P.M, ZeroColumn(), P.base))
    }
  }

  // ----- The zero sharing

  lemma ZeroColumnIsZero<E(!new), S(!new)>(run: Run<E, S>)
    requires run.Dealing() && run.Zeroed()
    ensures run.ZeroColumn()[0] == run.P.M.scalars.zero
  {
    FieldModuleLawful(run.P.M.scalars);
    FoldOfZeros(run.FM(), IdVec(run.FM(), run.P.zero.d), run.P.prev, run.zeros);
  }

  /** Every previous shareholder ends up with its share of the same combined column, and with the
      same vector, although each starts from its own dealing. */
  lemma HonestZero<E(!new), S(!new)>(run: Run<E, S>, me: Id, vectors: map<Id, seq<E>>, shares: map<Id, seq<S>>, out: (Share<S>, seq<E>))
    requires run.Dealing() && me in run.P.prev
    requires forall id :: id in Others(run.P.prev, me) ==> id in vectors && id in shares && id in run.zeros
    requires forall id :: id in Others(run.P.prev, me) ==> vectors[id] == LiftVec(run.P.M, run.zeros[id], run.P.base)
    requires forall id :: id in Others(run.P.prev, me) ==> shares[id] == ShareOf(run.FM(), run.P.zero, run.zeros[id], me).v
    requires ZeroCombined(run.P, me, (ShareOf(run.FM(), run.P.zero, run.zeros[me], me), LiftVec(run.P.M, run.zeros[me], run.P.base)), vectors, shares, out)
    ensures out == (ShareOf(run.FM(), run.P.zero, run.ZeroColumn(), me), LiftVec(run.P.M, run.ZeroColumn(), run.P.base))
  {
    hide Distinct, Qualified, IdSet;
    var P, M, FM, ids := run.P, run.P.M, run.FM(), Others(run.P.prev, me);
    FieldModuleLawful(M.scalars);
    OthersMembers(P.prev, me);
    FoldOwnFirst(FM, P.prev, me, run.zeros, P.zero.d);
    FoldDealt(FM, P.zero, run.zeros[me], ids, run.zeros, me);
    FoldCongruent(FM, ShareOf(FM, P.zero, run.zeros[me], me).v, ids, shares, Dealt(FM, P.zero, run.zeros, me));
    FoldLift(M, P.base, run.zeros[me], ids, run.zeros);
    FoldCongruent(M, LiftVec(M, run.zeros[me], P.base), ids, vectors, Lifted(M, P.base, run.zeros));
  }

  // ----- Conservation of the secret

  ghost function Contributions<E(!new), S(!new)>(run: Run<E, S>): (r: seq<S>)
    requires run.Dealing()
    ensures |r| == |run.P.prev|
  {
    seq(|run.P.prev|, i requires 0 <= i < |run.P.prev| => run.ContributionOf(run.P.prev[i]))
  }

  /** The additive contributions sum to the old secret, shifted by what the round-1 dealings sum to. */
  lemma ContributionsSum<E(!new), S(!new)>(run: Run<E, S>)
    requires run.Dealing()
    ensures Total(run.FM(), Contributions(run)) == run.P.M.scalars.add(run.oldColumn[0], run.ZeroColumn()[0])
    ensures run.Zeroed() ==> Total(run.FM(), Contributions(run)) == run.oldColumn[0]
  {
    var P, FM := run.P, run.FM();
    FieldModuleLawful(P.M.scalars);
    var A, Z := Additives(FM, run.msp, P.prev, run.oldColumn), Additives(FM, P.zero, P.prev, run.ZeroColumn());
    assert Contributions(run) == OpVec(FM, A, Z);
    TotalOp(FM, A, Z);
    AdditiveSharesSum(FM, run.msp, P.prev, run.oldColumn);
    AdditiveSharesSum(FM, P.zero, P.prev, run.ZeroColumn());
    if run.Zeroed() {
      ZeroColumnIsZero(run);
      assert P.M.scalars.AddZero(run.oldColumn[0]);
    }
  }

  /** The column of the new sharing starts with the old secret, shifted in the same way. */
  lemma SecretShifted<E(!new), S(!new)>(run: Run<E, S>)
    requires run.Contributing()
    ensures run.NextColumn()[0] == run.P.M.scalars.add(run.oldColumn[0], run.ZeroColumn()[0])
  {
    var P, FM := run.P, run.FM();
    FieldModuleLawful(P.M.scalars);
    FoldEntry(FM, IdVec(FM, P.next.d), P.prev, run.nexts, 0);
    assert Entries(P.prev, run.nexts, P.next.d, 0) == Contributions(run);
    ContributionsSum(run);
    FM.IdOp(Total(FM, Contributions(run)));
  }

  /** The column of the new sharing has the old secret as its first entry. */
  lemma SecretPreserved<E(!new), S(!new)>(run: Run<E, S>)
    requires run.Honest()
    ensures run.NextColumn()[0] == run.oldColumn[0]
  {
    SecretShifted(run);
    ZeroColumnIsZero(run);
    assert run.P.M.scalars.AddZero(run.oldColumn[0]);
  }

  // ----- Round 3

  /** The contributions a next shareholder holds already, being a previous one too. */
  ghost predicate HonestOwn<E(!new), S(!new)>(run: Run<E, S>, me: Id, ownShare: Option<seq<S>>, ownVector: Option<seq<E>>)
    requires run.Contributing()
  {
    if me in run.P.prev then
      && ownShare == Some(ShareOf(run.FM(), run.P.next, run.nexts[me], me).v)
      && ownVector == Some(LiftVec(run.P.M, run.nexts[me], run.P.base))
    else ownShare == None && ownVector == None
  }

  ghost predicate HonestRound2<E(!new), S(!new)>(run: Run<E, S>, me: Id, metadata: map<Id, Metadata<E, S>>, shares: map<Id, seq<S>>)
    requires run.Contributing()
  {
    forall id :: id in Others(run.P.prev, me) ==>
      && id in run.P.prev && id in metadata && id in shares
      && metadata[id] == run.HonestMetadata(id)
      && shares[id] == ShareOf(run.FM(), run.P.next, run.nexts[id], me).v
  }

  lemma HonestContributionLifts<E(!new), S(!new)>(run: Run<E, S>, id: Id)
    requires run.Contributing() && id in run.P.prev
    ensures Usable(run.P, run.HonestTrust())
    ensures LiftVec(run.P.M, run.nexts[id], run.P.base)[0] == Partial(run.P, run.HonestTrust(), id)
  {
    var P, FM := run.P, run.FM();
    assert id in IdSet(P.prev);
    DealtShareVerifies(P.M, P.base, run.msp, run.oldColumn, id);
    DealtShareVerifies(P.M, P.base, P.zero, run.ZeroColumn(), id);
    ContributionLifts(P, run.HonestTrust(), ShareOf(FM, run.msp, run.oldColumn, id), ShareOf(FM, P.zero, run.ZeroColumn(), id));
  }

  /** Honest senders are never at fault, with or without a reference. */
  lemma HonestSenderGood<E(!new), S(!new)>(run: Run<E, S>, me: Id, ref: Reference<E, S>, id: Id)
    requires run.Contributing() && id in run.P.prev && me in run.P.next.holders
    requires ref.NoAnchor? || ref == Known(run.HonestTrust())
    ensures !BadContribution(run.P, me, ref, Some(run.HonestMetadata(id)), Some(ShareOf(run.FM(), run.P.next, run.nexts[id], me)), id)
  {
    var P := run.P;
    ShareLength(run.FM(), P.next, run.nexts[id], me);
    DealtShareVerifies(P.M, P.base, P.next, run.nexts[id], me);
    HonestContributionLifts(run, id);
  }

  /** What a next shareholder aggregates is its share of the new column, and the lifted column. */
  lemma HonestAggregate<E(!new), S(!new)>(
      run: Run<E, S>, me: Id, ownShare: Option<seq<S>>, ownVector: Option<seq<E>>, metadata: map<Id, Metadata<E, S>>, shares: map<Id, seq<S>>)
    requires run.Contributing() && me in run.P.next.holders
    requires HonestOwn(run, me, ownShare, ownVector) && HonestRound2(run, me, metadata, shares)
    ensures var P, FM, ids := run.P, run.FM(), Others(run.P.prev, me);
      var s, V := Start(FM, ownShare, RowCount(P.next, me)), Start(P.M, ownVector, P.next.d);
      && Fits(ids, shares, |s|) && Fits(ids, NextVectors(metadata), |V|) && |s| == RowCount(P.next, me) && |V| == P.next.d
      && Fold(FM, s, ids, shares) == ShareOf(FM, P.next, run.NextColumn(), me).v
      && Fold(P.M, V, ids, NextVectors(metadata)) == LiftVec(P.M, run.NextColumn(), P.base)
  {
    hide ShareOf, LiftVec, Fold, Others, Distinct, Qualified;
    var start := OwnColumn(run, me);
    StartingColumn(run, me, ownShare, ownVector);
    HonestShares(run, me, start, metadata, shares);
    HonestVectors(run, me, start, metadata, shares);
  }

  ghost function OwnColumn<E(!new), S(!new)>(run: Run<E, S>, me: Id): (start: seq<S>)
    requires run.Contributing()
    ensures |start| == run.P.next.d
  {
    if me in run.P.prev then run.nexts[me] else IdVec(run.FM(), run.P.next.d)
  }

  lemma NextColumnOwnFirst<E(!new), S(!new)>(run: Run<E, S>, me: Id)
    requires run.Contributing()
    ensures Fits(Others(run.P.prev, me), run.nexts, run.P.next.d)
    ensures Fold(run.FM(), OwnColumn(run, me), Others(run.P.prev, me), run.nexts) == run.NextColumn()
  {
    hide Distinct, Qualified, Fold;
    FieldModuleLawful(run.P.M.scalars);
    OthersMembers(run.P.prev, me);
    if me in run.P.prev {
      FoldOwnFirst(run.FM(), run.P.prev, me, run.nexts, run.P.next.d);
    } else {
      OthersAbsent(run.P.prev, me);
    }
  }

  lemma HonestShares<E(!new), S(!new)>(run: Run<E, S>, me: Id, start: seq<S>, metadata: map<Id, Metadata<E, S>>, shares: map<Id, seq<S>>)
    requires run.Contributing() && HonestRound2(run, me, metadata, shares) && start == OwnColumn(run, me)
    ensures Fits(Others(run.P.prev, me), shares, |ShareOf(run.FM(), run.P.next, start, me).v|)
    ensures Fold(run.FM(), ShareOf(run.FM(), run.P.next, start, me).v, Others(run.P.prev, me), shares) == ShareOf(run.FM(), run.P.next, run.NextColumn(), me).v
  {
    hide Distinct, Qualified, Fold;
    var FM, next, ids := run.FM(), run.P.next, Others(run.P.prev, me);
    FieldModuleLawful(run.P.M.scalars);
    NextColumnOwnFirst(run, me);
    FoldDealt(FM, next, start, ids, run.nexts, me);
    FoldCongruent(FM, ShareOf(FM, next, start, me).v, ids, shares, Dealt(FM, next, run.nexts, me));
  }

  lemma HonestVectors<E(!new), S(!new)>(run: Run<E, S>, me: Id, start: seq<S>, metadata: map<Id, Metadata<E, S>>, shares: map<Id, seq<S>>)
    requires run.Contributing() && HonestRound2(run, me, metadata, shares) && start == OwnColumn(run, me)
    ensures Fits(Others(run.P.prev, me), NextVectors(metadata), run.P.next.d)
    ensures Fold(run.P.M, LiftVec(run.P.M, start, run.P.base), Others(run.P.prev, me), NextVectors(metadata)) == LiftVec(run.P.M, run.NextColumn(), run.P.base)
  {
    hide Distinct, Qualified, Fold;
    var M, base, ids := run.P.M, run.P.base, Others(run.P.prev, me);
    NextColumnOwnFirst(run, me);
    FoldLift(M, base, start, ids, run.nexts);
    FoldCongruent(M, LiftVec(M, start, base), ids, NextVectors(metadata), Lifted(M, base, run.nexts));
  }

  lemma StartingColumn<E(!new), S(!new)>(run: Run<E, S>, me: Id, ownShare: Option<seq<S>>, ownVector: Option<seq<E>>)
    requires run.Contributing() && me in run.P.next.holders && HonestOwn(run, me, ownShare, ownVector)
    ensures var start := OwnColumn(run, me);
      && |start| == run.P.next.d
      && Start(run.FM(), ownShare, RowCount(run.P.next, me)) == ShareOf(run.FM(), run.P.next, start, me).v
      && Start(run.P.M, ownVector, run.P.next.d) == LiftVec(run.P.M, start, run.P.base)
      && |ShareOf(run.FM(), run.P.next, start, me).v| == RowCount(run.P.next, me)
  {
    var P, FM := run.P, run.FM();
    FieldModuleLawful(P.M.scalars);
    var start := OwnColumn(run, me);
    ShareLength(FM, P.next, start, me);
    if me !in P.prev {
      P.M.ActZero(P.base);
      assert LiftVec(P.M, start, P.base) == IdVec(P.M, P.next.d);
      ShareOfNothing(FM, P.next, me);
    }
  }

  lemma ShareOfNothing<E(!new), S(!new)>(M: Module<E, S>, msp: Msp<S>, me: Id)
    requires M.Lawful() && msp.Valid()
    ensures ShareOf(M, msp, IdVec(M, msp.d), me).v == IdVec(M, RowCount(msp, me))
  {
    var x := IdVec(M, msp.d);
    var v := ShareOf(M, msp, x, me).v;
    IdVecOp(M, x);
    ShareOfSum(M, msp, x, x, me);
    ShareLength(M, msp, x, me);
    forall i | 0 <= i < |v| ensures v[i] == M.id {
      M.IdOp(v[i]);
      M.OpCancel(v[i], M.id, v[i]);
    }
  }

  // ----- Playing the rounds

  /** A participant that holds its share of the old column. */
  ghost predicate Holds<E(!new), S(!new)>(run: Run<E, S>, p: Participant<E, S>) {
    && run.Dealing() && p.P == run.P
    && (p.me in run.P.prev ==> p.prevShard == Some(Shard(ShareOf(run.FM(), run.msp, run.oldColumn, p.me), LiftVec(run.P.M, run.oldColumn, run.P.base), run.msp)))
  }

  /** Round 1 of a previous shareholder deals its column of zero. */
  method PlayRound1<E(==, !new), S(==, !new)>(ghost run: Run<E, S>, p: Participant<E, S>, random: seq<S>) returns (vector: seq<E>, sent: map<Id, Share<S>>)
    requires p.Valid() && p.round == 1 && Holds(run, p) && p.me in run.P.prev && run.P.zero.d >= 2
    requires |random| == run.P.zero.d && run.zeros[p.me] == random[0 := run.P.M.scalars.zero]
    modifies p
    ensures p.Valid() && p.round == 2
    ensures p.ownZero == Some((ShareOf(run.FM(), run.P.zero, run.zeros[p.me], p.me), LiftVec(run.P.M, run.zeros[p.me], run.P.base)))
    ensures vector == LiftVec(run.P.M, run.zeros[p.me], run.P.base)
    ensures forall id :: id in Others(run.P.prev, p.me) ==> id in sent && sent[id] == ShareOf(run.FM(), run.P.zero, run.zeros[p.me], id)
  {
    var r := p.Round1(random);
    vector, sent := r.value.0.value, r.value.1;
  }

  ghost predicate HonestRound1<E(!new), S(!new)>(run: Run<E, S>, me: Id, r1b: map<Id, Option<seq<E>>>, r1u: map<Id, Option<Share<S>>>)
    requires run.Dealing()
  {
    forall id :: id in Others(run.P.prev, me) ==>
      && id in run.zeros && id in r1b && id in r1u
      && r1b[id] == Some(LiftVec(run.P.M, run.zeros[id], run.P.base))
      && r1u[id] == Some(ShareOf(run.FM(), run.P.zero, run.zeros[id], me))
  }

  lemma HonestZeroGood<E(!new), S(!new)>(run: Run<E, S>, me: Id, id: Id)
    requires run.Dealing() && run.Zeroed() && me in run.P.prev && id in run.P.prev
    ensures !BadZeroSharing(run.P, me, Some(LiftVec(run.P.M, run.zeros[id], run.P.base)), Some(ShareOf(run.FM(), run.P.zero, run.zeros[id], me)))
  {
    assert me in IdSet(run.P.prev);
    DealtShareVerifies(run.P.M, run.P.base, run.P.zero, run.zeros[id], me);
    run.P.M.ActZero(run.P.base);
  }

  lemma HonestZeroInbox<E(!new), S(!new)>(run: Run<E, S>, me: Id, r1b: map<Id, Option<seq<E>>>, r1u: map<Id, Option<Share<S>>>)
    requires run.Dealing() && run.Zeroed() && me in run.P.prev && HonestRound1(run, me, r1b, r1u)
    ensures forall id :: id in Others(run.P.prev, me) ==> !BadZeroSharing(run.P, me, Lookup(r1b, id), Lookup(r1u, id))
    ensures var ids := Others(run.P.prev, me); var vectors, shares := Received(ids, r1b), Values(Received(ids, r1u));
      forall id :: id in ids ==>
        && id in vectors && id in shares && id in run.zeros
        && vectors[id] == LiftVec(run.P.M, run.zeros[id], run.P.base)
        && shares[id] == ShareOf(run.FM(), run.P.zero, run.zeros[id], me).v
  {
    hide Distinct, Qualified, Others, Verifies, ShareOf, LiftVec, BadZeroSharing;
    OthersMembers(run.P.prev, me);
    forall id | id in Others(run.P.prev, me) ensures !BadZeroSharing(run.P, me, Lookup(r1b, id), Lookup(r1u, id)) {
      HonestZeroGood(run, me, id);
    }
  }

  /** Round 2 never aborts on honest messages and re-shares exactly the contribution. */
  method PlayRound2<E(==, !new), S(==, !new)>(
      ghost run: Run<E, S>, p: Participant<E, S>, r1b: map<Id, Option<seq<E>>>, r1u: map<Id, Option<Share<S>>>, random: seq<S>)
      returns (metadata: Metadata<E, S>, sent: map<Id, Share<S>>)
    requires p.Valid() && p.round == 2 && Holds(run, p) && run.Zeroed() && p.me in run.P.prev && run.P.next.d >= 2
    requires p.ownZero == Some((ShareOf(run.FM(), run.P.zero, run.zeros[p.me], p.me), LiftVec(run.P.M, run.zeros[p.me], run.P.base)))
    requires HonestRound1(run, p.me, r1b, r1u) && |random| == run.P.next.d
    modifies p
    ensures p.Valid() && p.round == 3
    ensures var column := random[0 := run.ContributionOf(p.me)];
      && metadata == Metadata(run.msp, LiftVec(run.P.M, run.oldColumn, run.P.base), LiftVec(run.P.M, run.ZeroColumn(), run.P.base), LiftVec(run.P.M, column, run.P.base))
      && (forall id :: id in run.P.next.holders && id != p.me ==> id in sent && sent[id] == ShareOf(run.FM(), run.P.next, column, id))
      && (p.me in run.P.next.holders ==> p.share == Some(ShareOf(run.FM(), run.P.next, column, p.me)) && p.vector == Some(LiftVec(run.P.M, column, run.P.base)))
    ensures p.zeroVector == Some(LiftVec(run.P.M, run.ZeroColumn(), run.P.base))
  {
    hide Distinct, Qualified, Others, Verifies, Fold, ShareOf, LiftVec, BadZeroSharing;
    ghost var ids := Others(run.P.prev, p.me);
    HonestZeroInbox(run, p.me, r1b, r1u);
    var r := p.Round2(r1b, r1u, random);
    ghost var vectors, shares := Received(ids, r1b), Values(Received(ids, r1u));
    ghost var zero, own :| ZeroCombined(run.P, p.me, p.ownZero.value, vectors, shares, zero) && p.zeroVector.value == zero.1
      && Convertible(run.P.M.scalars, p.prevShard.value.msp, IdSet(run.P.prev), p.prevShard.value.share)
      && Convertible(run.P.M.scalars, run.P.zero, IdSet(run.P.prev), zero.0)
      && Reshared(run.P, p.me, p.prevShard.value, zero, random, r.value.0.value, r.value.1, own)
      && (p.me in run.P.next.holders ==> p.share == Some(own));
    HonestZero(run, p.me, vectors, shares, zero);
    metadata, sent := r.value.0.value, r.value.1;
  }

  /** Round 3 never aborts on honest messages, whatever reference the party uses, and returns its
      share of the new column; the public key is the old one. */
  method PlayRound3<E(==, !new), S(==, !new)>(
      ghost run: Run<E, S>, p: Participant<E, S>, r2b: map<Id, Option<Metadata<E, S>>>, r2u: map<Id, Option<Share<S>>>) returns (shard: Shard<E, S>)
    requires p.Valid() && p.round == 3 && Holds(run, p) && run.Honest() && p.me in run.P.next.holders
    requires p.me in run.P.prev ==> p.zeroVector == Some(LiftVec(run.P.M, run.ZeroColumn(), run.P.base))
    requires HonestOwn(run, p.me, OwnValues(p.share), p.vector)
    requires forall id :: id in Others(run.P.prev, p.me) ==> id in run.P.prev && id in r2b && id in r2u
    requires forall id :: id in Others(run.P.prev, p.me) ==> r2b[id] == Some(run.HonestMetadata(id))
    requires forall id :: id in Others(run.P.prev, p.me) ==> r2u[id] == Some(ShareOf(run.FM(), run.P.next, run.nexts[id], p.me))
    modifies p
    ensures shard == Shard(ShareOf(run.FM(), run.P.next, run.NextColumn(), p.me), LiftVec(run.P.M, run.NextColumn(), run.P.base), run.P.next)
    ensures shard.vector[0] == run.P.M.act(run.oldColumn[0], run.P.base)
  {
    hide Distinct, Qualified, Others, Verifies, Fold, ShareOf, Usable, Partial, BadContribution, Excuse, HonestOwn;
    ghost var ids := Others(run.P.prev, p.me);
    ghost var ref := p.ReferenceFor(r2b);
    ghost var metadata, shares := Received(ids, r2b), Values(Received(ids, r2u));
    HonestReference(run, p, r2b);
    HonestInbox(run, p.me, ref, r2b, r2u);
    HonestAggregate(run, p.me, OwnValues(p.share), p.vector, metadata, shares);
    SecretPreserved(run);
    HonestNoExcuse(run, p.me, ref, p.vector, metadata);
    ShareId(run.FM(), run.P.next, run.NextColumn(), p.me);
    var r := p.Round3(r2b, r2u);
    shard := r.value.value;
  }

  lemma HonestReference<E(!new), S(!new)>(run: Run<E, S>, p: Participant<E, S>, r2b: map<Id, Option<Metadata<E, S>>>)
    requires p.Valid() && Holds(run, p) && run.Contributing()
    requires p.me in run.P.prev ==> p.zeroVector == Some(LiftVec(run.P.M, run.ZeroColumn(), run.P.base))
    requires forall id :: id in Others(run.P.prev, p.me) ==> id in run.P.prev && id in r2b && r2b[id] == Some(run.HonestMetadata(id))
    ensures p.ReferenceFor(r2b).NoAnchor? || p.ReferenceFor(r2b) == Known(run.HonestTrust())
  {
    OthersMembers(run.P.prev, p.me);
  }

  lemma HonestInbox<E(!new), S(!new)>(run: Run<E, S>, me: Id, ref: Reference<E, S>, r2b: map<Id, Option<Metadata<E, S>>>, r2u: map<Id, Option<Share<S>>>)
    requires run.Contributing() && me in run.P.next.holders && (ref.NoAnchor? || ref == Known(run.HonestTrust()))
    requires forall id :: id in Others(run.P.prev, me) ==> id in run.P.prev && id in r2b && id in r2u
    requires forall id :: id in Others(run.P.prev, me) ==> r2b[id] == Some(run.HonestMetadata(id))
    requires forall id :: id in Others(run.P.prev, me) ==> r2u[id] == Some(ShareOf(run.FM(), run.P.next, run.nexts[id], me))
    ensures forall id :: id in Others(run.P.prev, me) ==> !BadContribution(run.P, me, ref, Lookup(r2b, id), Lookup(r2u, id), id)
    ensures AllFitting(run.P, Others(run.P.prev, me), Received(Others(run.P.prev, me), r2b))
    ensures HonestRound2(run, me, Received(Others(run.P.prev, me), r2b), Values(Received(Others(run.P.prev, me), r2u)))
  {
    hide Distinct, Qualified, Others, Verifies, Fold, ShareOf, Usable, Partial, BadContribution;
    forall id | id in Others(run.P.prev, me) ensures !BadContribution(run.P, me, ref, Lookup(r2b, id), Lookup(r2u, id), id) {
      HonestSenderGood(run, me, ref, id);
    }
  }

  lemma ShareId<E(!new), S(!new)>(M: Module<E, S>, msp: Msp<S>, x: seq<E>, id: Id)
    requires msp.Valid() && |x| == msp.d
    ensures ShareOf(M, msp, x, id).id == id
  {
  }

  lemma HonestNoExcuse<E(!new), S(!new)>(run: Run<E, S>, me: Id, ref: Reference<E, S>, own: Option<seq<E>>, metadata: map<Id, Metadata<E, S>>)
    requires run.Honest() && (ref.NoAnchor? || ref == Known(run.HonestTrust()))
    requires AllFitting(run.P, Others(run.P.prev, me), metadata)
    requires forall id :: id in Others(run.P.prev, me) ==> id in run.P.prev && metadata[id] == run.HonestMetadata(id)
    requires |Start(run.P.M, own, run.P.next.d)| == run.P.next.d && Fits(Others(run.P.prev, me), NextVectors(metadata), run.P.next.d)
    requires Fold(run.P.M, Start(run.P.M, own, run.P.next.d), Others(run.P.prev, me), NextVectors(metadata)) == LiftVec(run.P.M, run.NextColumn(), run.P.base)
    ensures !Excuse(run.P, ref, Others(run.P.prev, me), own, metadata)
  {
    hide Qualified, Distinct, Fold, Others;
    SecretPreserved(run);
    ZeroColumnIsZero(run);
    run.P.M.ActZero(run.P.base);
  }

  // ----- A reference that does not commit to zero

  /** A next-only shareholder whose anchor, like every other sender, publishes a zero vector that does
      not commit to zero: every message passes every check on it, and round 3 fails on the old key
      without naming anybody. */
  method AnchoredFailure<E(==, !new), S(==, !new)>(
      ghost run: Run<E, S>, P: Setting<E, S>, me: Id, anchor: Id, random: seq<S>, random': seq<S>,
      r2b: map<Id, Option<Metadata<E, S>>>, r2u: map<Id, Option<Share<S>>>) returns (r: Outcome<Option<Shard<E, S>>>)
    requires run.Contributing() && run.P == P && me !in P.prev && me in P.next.holders && anchor in P.prev
    requires P.M.act(run.ZeroColumn()[0], P.base) != P.M.id
    requires |random| == P.zero.d && |random'| == P.next.d
    requires forall id :: id in P.prev ==> id in r2b && id in r2u
    requires forall id :: id in P.prev ==> r2b[id] == Some(run.HonestMetadata(id))
    requires forall id :: id in P.prev ==> r2u[id] == Some(ShareOf(run.FM(), P.next, run.nexts[id], me))
    ensures r.Failed?
    ensures forall id :: id in P.prev ==> !BadContribution(P, me, Known(run.HonestTrust()), r2b[id], r2u[id], id)
  {
    hide Distinct, Qualified, Others, Verifies, Fold, ShareOf, Usable, Partial, BadContribution, Excuse, Sound, LiftVec, Received, Values, AllFitting, Fits;
    var p := new Participant<E, S>(P, me, None, Some(anchor));
    var a := p.Round1(random);
    var b := p.Round2(map[], map[], random');
    AnchorReference(run, p, r2b);
    AnchorInbox(run, me, r2b, r2u);
    NoneShifted(run, me, r2b, r2u);
    r := p.Round3(r2b, r2u);
  }

  lemma AnchorReference<E(!new), S(!new)>(run: Run<E, S>, p: Participant<E, S>, r2b: map<Id, Option<Metadata<E, S>>>)
    requires run.Contributing() && p.Configured() && p.P == run.P && p.me !in run.P.prev && p.anchor.Some?
    requires forall id :: id in run.P.prev ==> id in r2b && r2b[id] == Some(run.HonestMetadata(id))
    ensures p.ReferenceFor(r2b) == Known(run.HonestTrust())
  {
  }

  lemma AnchorInbox<E(!new), S(!new)>(run: Run<E, S>, me: Id, r2b: map<Id, Option<Metadata<E, S>>>, r2u: map<Id, Option<Share<S>>>)
    requires run.Contributing() && me !in run.P.prev && me in run.P.next.holders
    requires forall id :: id in run.P.prev ==> id in r2b && id in r2u
    requires forall id :: id in run.P.prev ==> r2b[id] == Some(run.HonestMetadata(id))
    requires forall id :: id in run.P.prev ==> r2u[id] == Some(ShareOf(run.FM(), run.P.next, run.nexts[id], me))
    ensures forall id :: id in run.P.prev ==> !BadContribution(run.P, me, Known(run.HonestTrust()), r2b[id], r2u[id], id)
    ensures forall id :: id in Others(run.P.prev, me) ==> id in run.P.prev && Lookup(r2b, id) == r2b[id] && Lookup(r2u, id) == r2u[id]
  {
    hide BadContribution, Others, Verifies, Fold, ShareOf;
    OthersMembers(run.P.prev, me);
    forall id | id in run.P.prev ensures !BadContribution(run.P, me, Known(run.HonestTrust()), r2b[id], r2u[id], id) {
      HonestSenderGood(run, me, Known(run.HonestTrust()), id);
    }
  }

  /** No shard can keep an old key that the contributions have moved. */
  lemma NoneShifted<E(!new), S(!new)>(run: Run<E, S>, me: Id, r2b: map<Id, Option<Metadata<E, S>>>, r2u: map<Id, Option<Share<S>>>)
    requires run.Contributing() && me !in run.P.prev && me in run.P.next.holders
    requires run.P.M.act(run.ZeroColumn()[0], run.P.base) != run.P.M.id
    requires forall id :: id in run.P.prev ==> id in r2b && id in r2u
    requires forall id :: id in run.P.prev ==> r2b[id] == Some(run.HonestMetadata(id))
    requires forall id :: id in run.P.prev ==> r2u[id] == Some(ShareOf(run.FM(), run.P.next, run.nexts[id], me))
    ensures var ids := Others(run.P.prev, me);
      var metadata, shares := Received(ids, r2b), Values(Received(ids, r2u));
      AllFitting(run.P, ids, metadata) && Fits(ids, shares, RowCount(run.P.next, me)) ==>
        forall shard :: !Sound(run.P, me, Known(run.HonestTrust()), ids, None, None, metadata, shares, shard)
  {
    hide Distinct, Qualified, Others, Verifies, Fold, ShareOf, Usable, Partial, BadContribution, LiftVec;
    var ids := Others(run.P.prev, me);
    var metadata, shares := Received(ids, r2b), Values(Received(ids, r2u));
    OthersMembers(run.P.prev, me);
    HonestInbox(run, me, Known(run.HonestTrust()), r2b, r2u);
    NothingOwned(run, me);
    HonestAggregate(run, me, None, None, metadata, shares);
    ShiftedKey(run);
    OthersNonEmpty(run.P, me);
    assert ids[0] in ids && metadata[ids[0]] == run.HonestMetadata(ids[0]);
  }

  lemma NothingOwned<E(!new), S(!new)>(run: Run<E, S>, me: Id)
    requires run.Contributing() && me !in run.P.prev
    ensures HonestOwn(run, me, None, None)
  {
  }

  /** A shift that is not zero moves the key. */
  lemma ShiftedKey<E(!new), S(!new)>(run: Run<E, S>)
    requires run.Contributing() && run.P.M.act(run.ZeroColumn()[0], run.P.base) != run.P.M.id
    ensures LiftVec(run.P.M, run.NextColumn(), run.P.base)[0] != LiftVec(run.P.M, run.oldColumn, run.P.base)[0]
  {
    hide Fold, Qualified, Distinct;
    var M, base, s, z := run.P.M, run.P.base, run.oldColumn[0], run.ZeroColumn()[0];
    SecretShifted(run);
    assert M.ActAdd(s, z, base) && M.OpComm(M.act(s, base), M.act(z, base));
    M.IdOp(M.act(s, base));
    if M.act(M.scalars.add(s, z), base) == M.act(s, base) {
      M.OpCancel(M.act(z, base), M.id, M.act(s, base));
    }
  }
}
