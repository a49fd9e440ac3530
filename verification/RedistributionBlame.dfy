/** Redistributions in which any parties may misbehave: honest parties never name each other. The
    round-1 broadcasts are consistent; everything else the others send is arbitrary. */
module RedistributionBlame {
  import opened Options
  import opened Network
  import opened Modules
  import opened SpanPrograms
  import opened PartySums
  import opened Redistribution
  import opened RedistributionParty
  import RedistributionNetwork

  /** The public data of the old sharing, as every honest shareholder of it holds it. */
  datatype OldSharing<!E(!new), !S(!new)> = OldSharing(P: Setting<E, S>, msp: Msp<S>, vector: seq<E>)

  ghost predicate Member<E(!new), S(!new)>(sharing: OldSharing<E, S>, honest: set<Id>, p: Participant<E, S>) {
    && p.P == sharing.P && p.P.Valid() && p.me in honest && (p.anchor.Some? ==> p.anchor.value in honest)
    && (p.me in p.P.prev ==> p.prevShard.Some? && p.prevShard.value.msp == sharing.msp && p.prevShard.value.vector == sharing.vector)
  }

  // ----- Round 1

  /** The dealing of zero that an honest party keeps and sends: nobody can find fault with it. */
  ghost predicate SentZero<E(!new), S(!new)>(P: Setting<E, S>, id: Id, own: seq<E>, b: map<Id, Option<seq<E>>>, u: map<Id, map<Id, Share<S>>>)
    requires P.Valid()
  {
    && id in b && b[id] == Some(own) && id in u
    && forall to :: to in Others(P.prev, id) ==> to in u[id] && !BadZeroSharing(P, to, b[id], Some(u[id][to]))
  }

  ghost predicate Started<E(!new), S(!new)>(p: Participant<E, S>)
    reads p
  {
    p.Valid() && p.round == 1 && p.tape == []
  }

  ghost predicate Dealt<E(!new), S(!new)>(p: Participant<E, S>, b: map<Id, Option<seq<E>>>)
    reads p
  {
    && p.Valid() && p.round == 2 && p.tape == []
    && (p.me in p.P.prev ==> p.ownZero.Some? && p.me in b && b[p.me] == Some(p.ownZero.value.1))
  }

  ghost predicate GoodDealer<E(!new), S(!new)>(P: Setting<E, S>, id: Id, b: map<Id, Option<seq<E>>>, u: map<Id, map<Id, Share<S>>>)
    requires P.Valid()
  {
    id in P.prev ==> id in b && b[id].Some? && SentZero(P, id, b[id].value, b, u)
  }

  lemma DealtZeroGood<E(!new), S(!new)>(P: Setting<E, S>, column: seq<S>, to: Id)
    requires P.Valid() && |column| == P.zero.d && column[0] == P.M.scalars.zero && to in P.prev
    ensures !BadZeroSharing(P, to, Some(LiftVec(P.M, column, P.base)), Some(ShareOf(FieldModule(P.M.scalars), P.zero, column, to)))
  {
    assert to in IdSet(P.prev);
    DealtShareVerifies(P.M, P.base, P.zero, column, to);
    P.M.ActZero(P.base);
  }

  method StepZero<E(==, !new), S(==, !new)>(p: Participant<E, S>, random: seq<S>) returns (b: Option<seq<E>>, sent: map<Id, Share<S>>)
    requires p.P.Valid() && Started(p) && p.P.zero.d >= 2 && |random| == p.P.zero.d
    modifies p
    ensures Dealt(p, map[p.me := b]) && GoodDealer(p.P, p.me, map[p.me := b], map[p.me := sent])
  {
    hide ShareOf, LiftVec, Others, BadZeroSharing, Verifies;
    var r := p.Round1(random);
    b, sent := r.value.0, r.value.1;
    if p.me in p.P.prev {
      OthersMembers(p.P.prev, p.me);
      ghost var column := random[0 := p.P.M.scalars.zero];
      forall to | to in Others(p.P.prev, p.me) ensures to in sent && !BadZeroSharing(p.P, to, b, Some(sent[to])) {
        DealtZeroGood(p.P, column, to);
      }
    }
  }

  // ----- Round 2

  ghost predicate AllBroadcast<E(!new), S(!new)>(P: Setting<E, S>, b: map<Id, Option<seq<E>>>) {
    AllZeroVectorsOk(P, P.prev, b)
  }

  lemma BroadcastFits<E(!new), S(!new)>(P: Setting<E, S>, b: map<Id, Option<seq<E>>>)
    requires AllBroadcast(P, b)
    ensures Fits(P.prev, Received(P.prev, b), P.zero.d)
  {
  }

  /** The combined zero vector that the broadcasts determine. */
  ghost function ZeroOf<E(!new), S(!new)>(P: Setting<E, S>, b: map<Id, Option<seq<E>>>): (r: seq<E>)
    requires AllBroadcast(P, b)
    ensures |r| == P.zero.d
  {
    BroadcastFits(P, b);
    FoldAll(P.M, P.prev, Received(P.prev, b), P.zero.d)
  }

  ghost predicate Transcript<E(!new), S(!new)>(P: Setting<E, S>, b: map<Id, Option<seq<E>>>, tape: seq<E>) {
    (forall id :: id in P.prev ==> id in Received(P.prev, b)) && tape == Coefficients(P.prev, Received(P.prev, b))
  }

  /** The reference of every honest party that has one. */
  ghost function Common<E(!new), S(!new)>(sharing: OldSharing<E, S>, b: map<Id, Option<seq<E>>>): Trust<E, S>
    requires AllBroadcast(sharing.P, b)
  {
    Trust(sharing.msp, sharing.vector, ZeroOf(sharing.P, b))
  }

  lemma OwnIncluded<E(!new), S(!new)>(P: Setting<E, S>, me: Id, own: seq<E>, b: map<Id, Option<seq<E>>>)
    requires P.Valid() && me in P.prev && me in b && b[me] == Some(own) && |own| == P.zero.d
    requires AllZeroVectorsOk(P, Others(P.prev, me), b)
    ensures AllBroadcast(P, b) && Received(Others(P.prev, me), b)[me := own] == Received(P.prev, b)
  {
    OthersMembers(P.prev, me);
  }

  /** Whoever completes the zero sharing ends with the vector that the broadcasts determine. */
  lemma SameZeroVector<E(!new), S(!new)>(
      P: Setting<E, S>, me: Id, own: (Share<S>, seq<E>), b: map<Id, Option<seq<E>>>, shares: map<Id, seq<S>>, out: (Share<S>, seq<E>))
    requires P.Valid() && me in P.prev && me in b && b[me] == Some(own.1) && |own.1| == P.zero.d
    requires AllZeroVectorsOk(P, Others(P.prev, me), b)
    requires ZeroCombined(P, me, own, Received(Others(P.prev, me), b), shares, out)
    ensures AllBroadcast(P, b) && out.1 == ZeroOf(P, b)
  {
    hide Distinct, Qualified, AllZeroVectorsOk, Received, Others;
    var all := Received(P.prev, b);
    OwnIncluded(P, me, own.1, b);
    BroadcastFits(P, b);
    OthersMembers(P.prev, me);
    FoldOwnFirst(P.M, P.prev, me, all, P.zero.d);
    FoldCongruent(P.M, own.1, Others(P.prev, me), Received(Others(P.prev, me), b), all);
  }

  /** What an honest party publishes and sends in round 2, if it does: every receiver can check it. */
  ghost predicate SentNext<E(!new), S(!new)>(
      sharing: OldSharing<E, S>, r1b: map<Id, Option<seq<E>>>, id: Id, b: map<Id, Option<Metadata<E, S>>>, u: map<Id, map<Id, Share<S>>>)
    requires sharing.P.Valid()
  {
    id in b ==>
      && AllBroadcast(sharing.P, r1b) && MetadataOk(sharing.P, b[id]) && id in u
      && Consistent(sharing.P, Common(sharing, r1b), b[id].value, id)
      && forall to :: to in sharing.P.next.holders && to != id ==> to in u[id] && Acceptable(sharing.P, to, u[id][to], b[id].value)
  }

  ghost predicate Acceptable<E(!new), S(!new)>(P: Setting<E, S>, to: Id, share: Share<S>, m: Metadata<E, S>)
    requires P.Valid()
  {
    NextShareOk(P, to, Some(share)) && Verifies(P.M, P.base, P.next, share, m.nextVector)
  }

  /** The state of an honest party after round 2. */
  ghost predicate Completed<E(!new), S(!new)>(sharing: OldSharing<E, S>, r1b: map<Id, Option<seq<E>>>, p: Participant<E, S>)
    reads p
  {
    && p.Valid() && p.round == 3
    && (p.zeroVector.Some? ==>
          && AllBroadcast(sharing.P, r1b) && p.zeroVector.value == ZeroOf(sharing.P, r1b)
          && Transcript(sharing.P, r1b, p.tape))
  }

  /** ... and the outcome of that round for it. */
  ghost predicate Passed<E(!new), S(!new), T>(sharing: OldSharing<E, S>, r1b: map<Id, Option<seq<E>>>, p: Participant<E, S>, outcome: Outcome<T>)
    reads p
  {
    Completed(sharing, r1b, p) && (p.me in p.P.prev ==> (outcome.Done? <==> p.zeroVector.Some?))
  }

  lemma ResharedAcceptable<E(!new), S(!new)>(
      P: Setting<E, S>, me: Id, shard: Shard<E, S>, zero: (Share<S>, seq<E>), random: seq<S>, metadata: Metadata<E, S>, sent: map<Id, Share<S>>, own: Share<S>)
    requires P.Valid() && |random| == P.next.d
    requires Convertible(P.M.scalars, shard.msp, IdSet(P.prev), shard.share) && Convertible(P.M.scalars, P.zero, IdSet(P.prev), zero.0)
    requires Reshared(P, me, shard, zero, random, metadata, sent, own)
    ensures forall to :: to in P.next.holders && to != me ==> to in sent && Acceptable(P, to, sent[to], metadata)
  {
    hide Qualified, Distinct, Contribution;
    var column := random[0 := Contribution(P, shard.msp, shard.share, zero.0)];
    forall to | to in P.next.holders && to != me ensures to in sent && Acceptable(P, to, sent[to], metadata) {
      ShareLength(FieldModule(P.M.scalars), P.next, column, to);
      DealtShareVerifies(P.M, P.base, P.next, column, to);
    }
  }

  method StepNext<E(==, !new), S(==, !new)>(
      ghost sharing: OldSharing<E, S>, ghost honest: set<Id>, p: Participant<E, S>, r1b: map<Id, Option<seq<E>>>, r1u: map<Id, Option<Share<S>>>, random: seq<S>)
      returns (r: Outcome<(Option<Metadata<E, S>>, map<Id, Share<S>>)>, b: map<Id, Option<Metadata<E, S>>>, u: map<Id, map<Id, Share<S>>>)
    requires Member(sharing, honest, p) && Dealt(p, r1b) && |random| == sharing.P.next.d && Harmless(sharing.P, p.me, honest, r1b, r1u)
    modifies p
    ensures Passed(sharing, r1b, p, r) && (r.Blame? ==> r.culprit in sharing.P.prev && r.culprit !in honest)
    ensures SentNext(sharing, r1b, p.me, b, u) && b.Keys <= {p.me} && u.Keys <= {p.me}
  {
    hide ShareOf, LiftVec, Others, BadZeroSharing, Verifies, Distinct, Qualified, ZeroOf, AllBroadcast, Acceptable, Consistent, Convertible, Reshared, ZeroCombined, Transcript, Received;
    OthersMembers(p.P.prev, p.me);
    OwnZeroLength(p);
    r := p.Round2(r1b, r1u, random);
    b, u := map[], map[];
    if r.Blame? {
      OthersMembers(p.P.prev, r.culprit);
    }
    if r.Done? && p.me in p.P.prev {
      ghost var vectors, shares := Received(Others(p.P.prev, p.me), r1b), Values(Received(Others(p.P.prev, p.me), r1u));
      ghost var zero, own :| ZeroCombined(p.P, p.me, p.ownZero.value, vectors, shares, zero) && p.zeroVector.value == zero.1
        && Convertible(p.P.M.scalars, p.prevShard.value.msp, IdSet(p.P.prev), p.prevShard.value.share)
        && Convertible(p.P.M.scalars, p.P.zero, IdSet(p.P.prev), zero.0)
        && Reshared(p.P, p.me, p.prevShard.value, zero, random, r.value.0.value, r.value.1, own)
        && (p.me in p.P.next.holders ==> p.share == Some(own));
      SameZeroVector(p.P, p.me, p.ownZero.value, r1b, shares, zero);
      ResharedAcceptable(p.P, p.me, p.prevShard.value, zero, random, r.value.0.value, r.value.1, own);
      SameTranscript(p.P, p.me, p.ownZero.value.1, r1b, p.tape);
      b, u := map[p.me := r.value.0], map[p.me := r.value.1];
    }
  }

  /** Nothing that honest parties sent in round 1 is at fault. */
  ghost predicate Harmless<E(!new), S(!new)>(P: Setting<E, S>, me: Id, honest: set<Id>, r1b: map<Id, Option<seq<E>>>, r1u: map<Id, Option<Share<S>>>)
    requires P.Valid()
  {
    forall id :: id in honest && id in P.prev && me in Others(P.prev, id) ==> !BadZeroSharing(P, me, Lookup(r1b, id), Lookup(r1u, id))
  }

  lemma OwnZeroLength<E(!new), S(!new)>(p: Participant<E, S>)
    requires p.Valid()
    ensures p.ownZero.Some? ==> |p.ownZero.value.1| == p.P.zero.d
  {
  }

  lemma SameTranscript<E(!new), S(!new)>(P: Setting<E, S>, me: Id, own: seq<E>, b: map<Id, Option<seq<E>>>, tape: seq<E>)
    requires P.Valid() && me in P.prev && me in b && b[me] == Some(own) && |own| == P.zero.d
    requires AllZeroVectorsOk(P, Others(P.prev, me), b)
    requires Appended(P, me, own, Received(Others(P.prev, me), b), [], tape)
    ensures Transcript(P, b, tape)
  {
    OwnIncluded(P, me, own, b);
  }

  ghost predicate AllSentNext<E(!new), S(!new)>(
      sharing: OldSharing<E, S>, r1b: map<Id, Option<seq<E>>>, ids: set<Id>, b: map<Id, Option<Metadata<E, S>>>, u: map<Id, map<Id, Share<S>>>)
    requires sharing.P.Valid()
  {
    forall id :: id in ids && id in sharing.P.prev ==> SentNext(sharing, r1b, id, b, u)
  }

  /** What honest parties sent to one receiver is what it gets from them. */
  ghost predicate Carried<S>(me: Id, honest: set<Id>, u: map<Id, map<Id, Share<S>>>, r2u: map<Id, Option<Share<S>>>) {
    forall id :: id in honest && id in u && me in u[id] ==> Lookup(r2u, id) == Some(u[id][me])
  }

  // ----- Round 3

  /** The reference an honest party uses in round 3, if any, is the common one. */
  lemma CommonReference<E(!new), S(!new)>(
      sharing: OldSharing<E, S>, honest: set<Id>, p: Participant<E, S>, r1b: map<Id, Option<seq<E>>>, r2b: map<Id, Option<Metadata<E, S>>>, u: map<Id, map<Id, Share<S>>>)
    requires Member(sharing, honest, p) && Completed(sharing, r1b, p)
    requires AllSentNext(sharing, r1b, honest, r2b, u)
    ensures p.ReferenceFor(r2b).Known? ==> AllBroadcast(sharing.P, r1b) && p.ReferenceFor(r2b).trust == Common(sharing, r1b)
  {
    hide AllBroadcast, ZeroOf, Acceptable, Transcript, Others, Verifies, Distinct, Qualified, Partial;
    if p.me !in sharing.P.prev && p.anchor.Some? && p.anchor.value in r2b {
      assert SentNext(sharing, r1b, p.anchor.value, r2b, u);
    }
  }

  lemma NotBad<E(!new), S(!new)>(
      sharing: OldSharing<E, S>, me: Id, ref: Reference<E, S>, r1b: map<Id, Option<seq<E>>>, id: Id, b: map<Id, Option<Metadata<E, S>>>, u: map<Id, map<Id, Share<S>>>)
    requires sharing.P.Valid() && SentNext(sharing, r1b, id, b, u) && id in b && me in sharing.P.next.holders && me != id
    requires ref.Known? ==> AllBroadcast(sharing.P, r1b) && ref.trust == Common(sharing, r1b)
    ensures me in u[id] && !BadContribution(sharing.P, me, ref, b[id], Some(u[id][me]), id)
  {
    hide AllBroadcast, ZeroOf, Others, Verifies, Consistent, Usable;
  }

  method StepLast<E(==, !new), S(==, !new)>(
      ghost sharing: OldSharing<E, S>, ghost honest: set<Id>, p: Participant<E, S>, ghost r1b: map<Id, Option<seq<E>>>,
      r2b: map<Id, Option<Metadata<E, S>>>, r2u: map<Id, Option<Share<S>>>, ghost u: map<Id, map<Id, Share<S>>>)
      returns (r: Outcome<Option<Shard<E, S>>>)
    requires Member(sharing, honest, p) && Completed(sharing, r1b, p)
    requires AllSentNext(sharing, r1b, honest, r2b, u) && Carried(p.me, honest, u, r2u)
    modifies p
    ensures r.Blame? ==> r.culprit in sharing.P.prev && r.culprit !in honest
    ensures p.zeroVector.Some? && r.Failed? ==> !Arrived(Others(sharing.P.prev, p.me), r2b, r2u)
    ensures p.zeroVector == old(p.zeroVector) && p.tape == old(p.tape)
  {
    hide AllBroadcast, ZeroOf, Others, BadContribution, Verifies, Distinct, Qualified, Usable, Consistent, Acceptable, Transcript;
    CommonReference(sharing, honest, p, r1b, r2b, u);
    OthersMembers(p.P.prev, p.me);
    ghost var ref := p.ReferenceFor(r2b);
    r := p.Round3(r2b, r2u);
    if r.Blame? && r.culprit in honest {
      NotBad(sharing, p.me, ref, r1b, r.culprit, r2b, u);
      assert false;
    }
  }

  // ----- The rounds of all honest parties

  function Names<E(!new), S(!new)>(parties: seq<Participant<E, S>>): set<Id> {
    set i | 0 <= i < |parties| :: parties[i].me
  }

  ghost predicate Honest<E(!new), S(!new)>(sharing: OldSharing<E, S>, parties: seq<Participant<E, S>>) {
    && (forall i, j :: 0 <= i < j < |parties| ==> parties[i].me != parties[j].me)
    && forall i :: 0 <= i < |parties| ==> Member(sharing, Names(parties), parties[i])
  }

  /** What one receiver gets: what the honest senders sent, and anything from the others. */
  function Inbox<T>(faulty: map<Id, T>, honest: set<Id>, sent: map<Id, T>): map<Id, T> {
    (faulty - honest) + sent
  }

  function Of<T>(faulty: map<Id, map<Id, T>>, id: Id): map<Id, T> {
    if id in faulty then faulty[id] else map[]
  }

  lemma DealerMore<E(!new), S(!new)>(
      P: Setting<E, S>, done: set<Id>, me: Id, b: map<Id, Option<seq<E>>>, u: map<Id, map<Id, Share<S>>>, vector: Option<seq<E>>, sent: map<Id, Share<S>>)
    requires P.Valid() && GoodDealer(P, me, map[me := vector], map[me := sent])
    requires forall id :: id in done ==> GoodDealer(P, id, b, u)
    ensures forall id :: id in done + {me} ==> GoodDealer(P, id, b[me := vector], u[me := sent])
  {
    hide BadZeroSharing, Others;
    forall id | id in done + {me} ensures GoodDealer(P, id, b[me := vector], u[me := sent]) {
      assert id != me ==> GoodDealer(P, id, b, u);
    }
  }

  lemma DealtMore<E(!new), S(!new)>(parties: seq<Participant<E, S>>, i: nat, b: map<Id, Option<seq<E>>>, vector: Option<seq<E>>)
    requires i < |parties| && (forall k :: 0 <= k < i ==> parties[k].me != parties[i].me)
    requires Dealt(parties[i], map[parties[i].me := vector]) && forall k :: 0 <= k < i ==> Dealt(parties[k], b)
    ensures forall k :: 0 <= k < i + 1 ==> Dealt(parties[k], b[parties[i].me := vector])
  {
  }

  method RoundOne<E(==, !new), S(==, !new)>(ghost sharing: OldSharing<E, S>, parties: seq<Participant<E, S>>, random: map<Id, seq<S>>)
      returns (b: map<Id, Option<seq<E>>>, u: map<Id, map<Id, Share<S>>>)
    requires sharing.P.Valid() && sharing.P.zero.d >= 2 && Honest(sharing, parties)
    requires forall p :: p in parties ==> Started(p) && p.me in random && |random[p.me]| == sharing.P.zero.d
    modifies parties
    ensures forall p :: p in parties ==> Dealt(p, b)
    ensures forall id :: id in Names(parties) ==> GoodDealer(sharing.P, id, b, u)
  {
    hide GoodDealer, Dealt, Started;
    b, u := map[], map[];
    for i := 0 to |parties|
      invariant forall k :: i <= k < |parties| ==> Started(parties[k])
      invariant forall k :: 0 <= k < i ==> Dealt(parties[k], b)
      invariant forall id :: id in RedistributionNetwork.Served(parties, i) ==> GoodDealer(sharing.P, id, b, u)
    {
      var p := parties[i];
      assert p in parties;
      var vector, sent := StepZero(p, random[p.me]);
      DealerMore(sharing.P, RedistributionNetwork.Served(parties, i), p.me, b, u, vector, sent);
      assert RedistributionNetwork.Served(parties, i + 1) == RedistributionNetwork.Served(parties, i) + {p.me};
      DealtMore(parties, i, b, vector);
      b, u := b[p.me := vector], u[p.me := sent];
    }
    assert Names(parties) == RedistributionNetwork.Served(parties, |parties|);
  }

  lemma DeliveredOne<E(!new), S(!new)>(
      P: Setting<E, S>, honest: set<Id>, me: Id, b: map<Id, Option<seq<E>>>, u: map<Id, map<Id, Share<S>>>, fb: map<Id, Option<seq<E>>>, fu: map<Id, Option<Share<S>>>)
    requires P.Valid() && forall id :: id in honest ==> GoodDealer(P, id, b, u)
    ensures Harmless(P, me, honest, Inbox(fb, honest, b), Inbox(fu, honest, RedistributionNetwork.Routed(u, me)))
  {
    hide BadZeroSharing, Others;
    forall id | id in honest && id in P.prev && me in Others(P.prev, id)
      ensures !BadZeroSharing(P, me, Lookup(Inbox(fb, honest, b), id), Lookup(Inbox(fu, honest, RedistributionNetwork.Routed(u, me)), id))
    {
      assert GoodDealer(P, id, b, u);
    }
  }

  lemma StillDealt<E(!new), S(!new)>(sharing: OldSharing<E, S>, parties: seq<Participant<E, S>>, b: map<Id, Option<seq<E>>>, fb: map<Id, Option<seq<E>>>)
    requires Honest(sharing, parties) && forall p :: p in parties ==> Dealt(p, b)
    ensures forall p :: p in parties ==> Dealt(p, Inbox(fb, Names(parties), b))
  {
  }

  /** Whoever has been named is a previous shareholder that is not honest. */
  ghost predicate NamesFaulty<T>(prev: seq<Id>, honest: set<Id>, outcomes: map<Id, Outcome<T>>) {
    forall id :: id in outcomes && outcomes[id].Blame? ==> outcomes[id].culprit in prev && outcomes[id].culprit !in honest
  }

  lemma NextMore<E(!new), S(!new)>(
      sharing: OldSharing<E, S>, r1b: map<Id, Option<seq<E>>>, done: set<Id>, me: Id,
      b: map<Id, Option<Metadata<E, S>>>, u: map<Id, map<Id, Share<S>>>, b': map<Id, Option<Metadata<E, S>>>, u': map<Id, map<Id, Share<S>>>)
    requires sharing.P.Valid() && AllSentNext(sharing, r1b, done, b, u) && me !in b && me !in u && me !in done
    requires SentNext(sharing, r1b, me, b', u') && b'.Keys <= {me} && u'.Keys <= {me}
    ensures AllSentNext(sharing, r1b, done + {me}, b + b', u + u')
  {
    hide AllBroadcast, Consistent, Acceptable;
    forall id | id in done + {me} && id in sharing.P.prev ensures SentNext(sharing, r1b, id, b + b', u + u') {
      assert id != me ==> SentNext(sharing, r1b, id, b, u);
    }
  }

  method RoundTwo<E(==, !new), S(==, !new)>(
      ghost sharing: OldSharing<E, S>, parties: seq<Participant<E, S>>, r1b: map<Id, Option<seq<E>>>, u: map<Id, map<Id, Share<S>>>,
      faulty: map<Id, map<Id, Option<Share<S>>>>, random: map<Id, seq<S>>)
      returns (outcomes: map<Id, Outcome<(Option<Metadata<E, S>>, map<Id, Share<S>>)>>, b': map<Id, Option<Metadata<E, S>>>, u': map<Id, map<Id, Share<S>>>)
    requires sharing.P.Valid() && Honest(sharing, parties)
    requires forall p :: p in parties ==> Dealt(p, r1b) && p.me in random && |random[p.me]| == sharing.P.next.d
    requires forall p :: p in parties ==> Harmless(sharing.P, p.me, Names(parties), r1b, Inbox(Of(faulty, p.me), Names(parties), RedistributionNetwork.Routed(u, p.me)))
    modifies parties
    ensures forall p :: p in parties ==> p.me in outcomes && Passed(sharing, r1b, p, outcomes[p.me])
    ensures NamesFaulty(sharing.P.prev, Names(parties), outcomes)
    ensures AllSentNext(sharing, r1b, Names(parties), b', u')
  {
    hide Dealt, Harmless, Passed, SentNext, AllSentNext, Member, Inbox, Of;
    outcomes, b', u' := map[], map[], map[];
    var honest := Names(parties);
    ghost var done := {};
    NothingSent(sharing, r1b, b', u');
    for i := 0 to |parties|
      invariant forall k :: i <= k < |parties| ==> Dealt(parties[k], r1b)
      invariant forall k :: 0 <= k < i ==> parties[k].me in outcomes && Passed(sharing, r1b, parties[k], outcomes[parties[k].me])
      invariant NamesFaulty(sharing.P.prev, honest, outcomes)
      invariant done == RedistributionNetwork.Served(parties, i) && b'.Keys <= done && u'.Keys <= done
      invariant AllSentNext(sharing, r1b, done, b', u')
    {
      var p := parties[i];
      assert p in parties;
      var r, b'', u'' := StepNext(sharing, honest, p, r1b, Inbox(Of(faulty, p.me), honest, RedistributionNetwork.Routed(u, p.me)), random[p.me]);
      NextMore(sharing, r1b, done, p.me, b', u', b'', u'');
      outcomes, b', u', done := outcomes[p.me := r], b' + b'', u' + u'', done + {p.me};
    }
    assert honest == done;
  }

  lemma NothingSent<E(!new), S(!new)>(sharing: OldSharing<E, S>, r1b: map<Id, Option<seq<E>>>, b: map<Id, Option<Metadata<E, S>>>, u: map<Id, map<Id, Share<S>>>)
    requires sharing.P.Valid()
    ensures AllSentNext(sharing, r1b, {}, b, u)
  {
  }

  lemma DeliveredNext<E(!new), S(!new)>(
      sharing: OldSharing<E, S>, r1b: map<Id, Option<seq<E>>>, honest: set<Id>, me: Id, b: map<Id, Option<Metadata<E, S>>>, u: map<Id, map<Id, Share<S>>>,
      fb: map<Id, Option<Metadata<E, S>>>, fu: map<Id, Option<Share<S>>>)
    requires sharing.P.Valid() && AllSentNext(sharing, r1b, honest, b, u)
    ensures AllSentNext(sharing, r1b, honest, Inbox(fb, honest, b), u)
    ensures Carried(me, honest, u, Inbox(fu, honest, RedistributionNetwork.Routed(u, me)))
  {
    hide AllBroadcast, Consistent, Acceptable;
    forall id | id in honest && id in sharing.P.prev ensures SentNext(sharing, r1b, id, Inbox(fb, honest, b), u) {
      assert SentNext(sharing, r1b, id, b, u);
    }
  }

  method RoundThree<E(==, !new), S(==, !new)>(
      ghost sharing: OldSharing<E, S>, parties: seq<Participant<E, S>>, ghost r1b: map<Id, Option<seq<E>>>,
      b: map<Id, Option<Metadata<E, S>>>, u: map<Id, map<Id, Share<S>>>, fb: map<Id, map<Id, Option<Metadata<E, S>>>>, fu: map<Id, map<Id, Option<Share<S>>>>)
      returns (outcomes: map<Id, Outcome<Option<Shard<E, S>>>>)
    requires sharing.P.Valid() && Honest(sharing, parties)
    requires forall p :: p in parties ==> Completed(sharing, r1b, p)
    requires AllSentNext(sharing, r1b, Names(parties), b, u)
    modifies parties
    ensures forall p :: p in parties ==> p.me in outcomes && p.zeroVector == old(p.zeroVector) && p.tape == old(p.tape)
    ensures NamesFaulty(sharing.P.prev, Names(parties), outcomes)
    ensures forall p :: p in parties && p.zeroVector.Some? && outcomes[p.me].Failed? ==> Incomplete(sharing.P, p.me, Names(parties), b, u, fb, fu)
  {
    hide Completed, AllSentNext, Carried, Incomplete, Member, Inbox, Of;
    outcomes := map[];
    var honest := Names(parties);
    for i := 0 to |parties|
      invariant forall k :: i <= k < |parties| ==> Completed(sharing, r1b, parties[k])
      invariant forall k :: 0 <= k < |parties| ==> parties[k].zeroVector == old(parties[k].zeroVector) && parties[k].tape == old(parties[k].tape)
      invariant forall k :: 0 <= k < i ==> parties[k].me in outcomes
      invariant NamesFaulty(sharing.P.prev, honest, outcomes)
      invariant forall k :: 0 <= k < i && parties[k].zeroVector.Some? && outcomes[parties[k].me].Failed? ==> Incomplete(sharing.P, parties[k].me, honest, b, u, fb, fu)
    {
      var p := parties[i];
      assert p in parties;
      DeliveredNext(sharing, r1b, honest, p.me, b, u, Of(fb, p.me), Of(fu, p.me));
      var r := StepLast(sharing, honest, p, r1b, Inbox(Of(fb, p.me), honest, b), Inbox(Of(fu, p.me), honest, RedistributionNetwork.Routed(u, p.me)), u);
      NotArrived(sharing.P, p.me, honest, b, u, fb, fu);
      outcomes := outcomes[p.me := r];
    }
  }

  /** Some previous shareholder's round-2 messages did not reach the party. */
  ghost predicate Incomplete<E(!new), S(!new)>(
      P: Setting<E, S>, me: Id, honest: set<Id>, b: map<Id, Option<Metadata<E, S>>>, u: map<Id, map<Id, Share<S>>>,
      fb: map<Id, map<Id, Option<Metadata<E, S>>>>, fu: map<Id, map<Id, Option<Share<S>>>>)
  {
    exists id :: id in Others(P.prev, me) && Absent(id, Inbox(Of(fb, me), honest, b), Inbox(Of(fu, me), honest, RedistributionNetwork.Routed(u, me)))
  }

  ghost predicate Absent<T, U>(id: Id, b: map<Id, T>, u: map<Id, U>) {
    id !in b || id !in u
  }

  lemma NotArrived<E(!new), S(!new)>(
      P: Setting<E, S>, me: Id, honest: set<Id>, b: map<Id, Option<Metadata<E, S>>>, u: map<Id, map<Id, Share<S>>>,
      fb: map<Id, map<Id, Option<Metadata<E, S>>>>, fu: map<Id, map<Id, Option<Share<S>>>>)
    requires P.Valid()
    ensures !Arrived(Others(P.prev, me), Inbox(Of(fb, me), honest, b), Inbox(Of(fu, me), honest, RedistributionNetwork.Routed(u, me))) ==>
      Incomplete(P, me, honest, b, u, fb, fu)
  {
    hide Inbox, Of, Others;
    if !Arrived(Others(P.prev, me), Inbox(Of(fb, me), honest, b), Inbox(Of(fu, me), honest, RedistributionNetwork.Routed(u, me))) {
      var id :| id in Others(P.prev, me) && (id !in Inbox(Of(fb, me), honest, b) || id !in Inbox(Of(fu, me), honest, RedistributionNetwork.Routed(u, me)));
      assert Absent(id, Inbox(Of(fb, me), honest, b), Inbox(Of(fu, me), honest, RedistributionNetwork.Routed(u, me)));
    }
  }

  // ----- The whole run

  /** Any number of honest parties, the coins they draw, and whatever the others send them: in no round
      does an honest party name an honest one; honest parties that complete the zero sharing agree on its
      vector and its transcript; and in round 3 such a party finishes or names a faulty one, unless a
      message is missing. */
  method MixedRun<E(==, !new), S(==, !new)>(
      ghost sharing: OldSharing<E, S>, parties: seq<Participant<E, S>>, random1: map<Id, seq<S>>, random2: map<Id, seq<S>>,
      b1: map<Id, Option<seq<E>>>, u1: map<Id, map<Id, Option<Share<S>>>>,
      b2: map<Id, map<Id, Option<Metadata<E, S>>>>, u2: map<Id, map<Id, Option<Share<S>>>>)
      returns (second: map<Id, Outcome<(Option<Metadata<E, S>>, map<Id, Share<S>>)>>, third: map<Id, Outcome<Option<Shard<E, S>>>>,
               ghost b: map<Id, Option<Metadata<E, S>>>, ghost u: map<Id, map<Id, Share<S>>>)
    requires sharing.P.Valid() && sharing.P.zero.d >= 2 && Honest(sharing, parties)
    requires forall p :: p in parties ==> Started(p)
    requires forall p :: p in parties ==> p.me in random1 && |random1[p.me]| == sharing.P.zero.d
    requires forall p :: p in parties ==> p.me in random2 && |random2[p.me]| == sharing.P.next.d
    modifies parties
    ensures forall p :: p in parties ==> p.me in second && p.me in third
    ensures NamesFaulty(sharing.P.prev, Names(parties), second) && NamesFaulty(sharing.P.prev, Names(parties), third)
    ensures forall p :: p in parties && p.me in sharing.P.prev ==> (second[p.me].Done? <==> p.zeroVector.Some?)
    ensures forall p, q :: p in parties && q in parties && p.zeroVector.Some? && q.zeroVector.Some? ==> p.zeroVector == q.zeroVector && p.tape == q.tape
    ensures forall p :: p in parties && p.zeroVector.Some? && third[p.me].Failed? ==> Incomplete(sharing.P, p.me, Names(parties), b, u, b2, u2)
  {
    hide Started, Dealt, GoodDealer, Completed, AllSentNext, Harmless, Incomplete;
    var honest := Names(parties);
    var sent, unicasts := RoundOne(sharing, parties, random1);
    var r1b := Inbox(b1, honest, sent);
    StillDealt(sharing, parties, sent, b1);
    forall p | p in parties ensures Harmless(sharing.P, p.me, honest, r1b, Inbox(Of(u1, p.me), honest, RedistributionNetwork.Routed(unicasts, p.me))) {
      DeliveredOne(sharing.P, honest, p.me, sent, unicasts, b1, Of(u1, p.me));
    }
    var b', u';
    second, b', u' := RoundTwo(sharing, parties, r1b, unicasts, u1, random2);
    Agreed(sharing, r1b, parties);
    third := RoundThree(sharing, parties, r1b, b', u', b2, u2);
    b, u := b', u';
  }

  lemma Agreed<E(!new), S(!new)>(sharing: OldSharing<E, S>, r1b: map<Id, Option<seq<E>>>, parties: seq<Participant<E, S>>)
    requires forall p :: p in parties ==> Completed(sharing, r1b, p)
    ensures forall p, q :: p in parties && q in parties && p.zeroVector.Some? && q.zeroVector.Some? ==> p.zeroVector == q.zeroVector && p.tape == q.tape
  {
    hide AllBroadcast, ZeroOf;
  }
}
