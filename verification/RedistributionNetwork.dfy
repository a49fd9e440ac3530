/** A whole redistribution: every party runs the three rounds and the network delivers what they
    send (pkg/mpc/redistribute/runner.go). */
module RedistributionNetwork {
  import opened Options
  import opened Network
  import opened Modules
  import opened SpanPrograms
  import opened PartySums
  import opened Redistribution
  import opened RedistributionParty
  import opened RedistributionRuns

  /** The parties of a session, each with its own object. */
  ghost predicate Fleet<E(!new), S(!new)>(run: Run<E, S>, parties: seq<Participant<E, S>>) {
    && (forall i, j :: 0 <= i < j < |parties| ==> parties[i].me != parties[j].me)
    && forall i :: 0 <= i < |parties| ==> Holds(run, parties[i])
  }

  /** Every identifier belongs to one of the parties. */
  ghost predicate Covers<E(!new), S(!new)>(parties: seq<Participant<E, S>>, ids: seq<Id>) {
    forall id :: id in ids ==> exists i :: 0 <= i < |parties| && parties[i].me == id
  }

  /** What one receiver gets of the unicasts. */
  function Routed<T>(unicasts: map<Id, map<Id, T>>, me: Id): map<Id, Option<T>> {
    map id | id in unicasts && me in unicasts[id] :: Some(unicasts[id][me])
  }

  // ----- The state of one party between the rounds

  ghost predicate Started<E(!new), S(!new)>(p: Participant<E, S>)
    reads p
  {
    p.Valid() && p.round == 1
  }

  ghost predicate ZeroDealt<E(!new), S(!new)>(run: Run<E, S>, p: Participant<E, S>)
    requires run.Dealing()
    reads p
  {
    && p.Valid() && p.round == 2
    && (p.me in run.P.prev ==> p.ownZero == Some((ShareOf(run.FM(), run.P.zero, run.zeros[p.me], p.me), LiftVec(run.P.M, run.zeros[p.me], run.P.base))))
  }

  ghost predicate Contributed<E(!new), S(!new)>(run: Run<E, S>, p: Participant<E, S>)
    requires run.Contributing()
    reads p
  {
    && p.Valid() && p.round == 3
    && (p.me in run.P.prev ==> p.zeroVector == Some(LiftVec(run.P.M, run.ZeroColumn(), run.P.base)))
    && (p.me in run.P.next.holders ==> HonestOwn(run, p.me, OwnValues(p.share), p.vector))
  }

  // ----- What one party has sent

  ghost predicate SentZero<E(!new), S(!new)>(run: Run<E, S>, id: Id, b: map<Id, Option<seq<E>>>, u: map<Id, map<Id, Share<S>>>)
    requires run.Dealing() && id in run.P.prev
  {
    && id in b && b[id] == Some(LiftVec(run.P.M, run.zeros[id], run.P.base)) && id in u
    && forall to :: to in Others(run.P.prev, id) ==> to in u[id] && u[id][to] == ShareOf(run.FM(), run.P.zero, run.zeros[id], to)
  }

  ghost predicate SentNext<E(!new), S(!new)>(run: Run<E, S>, id: Id, b: map<Id, Option<Metadata<E, S>>>, u: map<Id, map<Id, Share<S>>>)
    requires run.Contributing() && id in run.P.prev
  {
    && id in b && b[id] == Some(run.HonestMetadata(id)) && id in u
    && forall to :: to in run.P.next.holders && to != id ==> to in u[id] && u[id][to] == ShareOf(run.FM(), run.P.next, run.nexts[id], to)
  }

  lemma ZeroInbox<E(!new), S(!new)>(run: Run<E, S>, me: Id, b: map<Id, Option<seq<E>>>, u: map<Id, map<Id, Share<S>>>)
    requires run.Dealing() && me in run.P.prev && forall id :: id in run.P.prev ==> SentZero(run, id, b, u)
    ensures HonestRound1(run, me, b, Routed(u, me))
  {
    hide ShareOf, LiftVec, Others;
    OthersMembers(run.P.prev, me);
    forall id | id in Others(run.P.prev, me)
      ensures id in b && b[id] == Some(LiftVec(run.P.M, run.zeros[id], run.P.base))
      ensures id in Routed(u, me) && Routed(u, me)[id] == Some(ShareOf(run.FM(), run.P.zero, run.zeros[id], me))
    {
      OthersMembers(run.P.prev, id);
      assert SentZero(run, id, b, u) && me in Others(run.P.prev, id);
    }
  }

  lemma NextInbox<E(!new), S(!new)>(run: Run<E, S>, me: Id, b: map<Id, Option<Metadata<E, S>>>, u: map<Id, map<Id, Share<S>>>)
    requires run.Contributing() && me in run.P.next.holders && forall id :: id in run.P.prev ==> SentNext(run, id, b, u)
    ensures forall id :: id in Others(run.P.prev, me) ==> id in run.P.prev && id in b && id in Routed(u, me)
    ensures forall id :: id in Others(run.P.prev, me) ==> b[id] == Some(run.HonestMetadata(id))
    ensures forall id :: id in Others(run.P.prev, me) ==> Routed(u, me)[id] == Some(ShareOf(run.FM(), run.P.next, run.nexts[id], me))
  {
    hide ShareOf, LiftVec, Others;
    OthersMembers(run.P.prev, me);
    forall id | id in Others(run.P.prev, me) ensures SentNext(run, id, b, u) {
    }
  }

  /** One more sender. */
  lemma SentZeroMore<E(!new), S(!new)>(
      run: Run<E, S>, done: set<Id>, me: Id, b: map<Id, Option<seq<E>>>, u: map<Id, map<Id, Share<S>>>, vector: Option<seq<E>>, sent: map<Id, Share<S>>)
    requires run.Dealing() && (me in run.P.prev ==> SentZero(run, me, map[me := vector], map[me := sent]))
    requires forall id :: id in done && id in run.P.prev ==> SentZero(run, id, b, u)
    ensures forall id :: id in done + {me} && id in run.P.prev ==> SentZero(run, id, b[me := vector], u[me := sent])
  {
    hide ShareOf, LiftVec, Others;
    forall id | id in done + {me} && id in run.P.prev ensures SentZero(run, id, b[me := vector], u[me := sent]) {
      assert id != me ==> SentZero(run, id, b, u);
    }
  }

  lemma SentNextMore<E(!new), S(!new)>(
      run: Run<E, S>, done: set<Id>, me: Id, b: map<Id, Option<Metadata<E, S>>>, u: map<Id, map<Id, Share<S>>>, metadata: Option<Metadata<E, S>>, sent: map<Id, Share<S>>)
    requires run.Contributing() && (me in run.P.prev ==> SentNext(run, me, map[me := metadata], map[me := sent]))
    requires forall id :: id in done && id in run.P.prev ==> SentNext(run, id, b, u)
    ensures forall id :: id in done + {me} && id in run.P.prev ==> SentNext(run, id, b[me := metadata], u[me := sent])
  {
    hide ShareOf, LiftVec, Others;
    forall id | id in done + {me} && id in run.P.prev ensures SentNext(run, id, b[me := metadata], u[me := sent]) {
      assert id != me ==> SentNext(run, id, b, u);
    }
  }

  /** The identifiers of the first i parties. */
  ghost function Served<E(!new), S(!new)>(parties: seq<Participant<E, S>>, i: nat): set<Id>
    requires i <= |parties|
  {
    set k | 0 <= k < i :: parties[k].me
  }

  // ----- One step of one party

  method StepZero<E(==, !new), S(==, !new)>(ghost run: Run<E, S>, p: Participant<E, S>, random: seq<S>) returns (b: Option<seq<E>>, sent: map<Id, Share<S>>)
    requires Holds(run, p) && Started(p) && run.P.zero.d >= 2 && |random| == run.P.zero.d
    requires p.me in run.P.prev ==> run.zeros[p.me] == random[0 := run.P.M.scalars.zero]
    modifies p
    ensures ZeroDealt(run, p)
    ensures p.me in run.P.prev ==> SentZero(run, p.me, map[p.me := b], map[p.me := sent])
  {
    hide ShareOf, LiftVec, Others;
    if p.me in p.P.prev {
      var vector;
      vector, sent := PlayRound1(run, p, random);
      b := Some(vector);
    } else {
      var r := p.Round1(random);
      b, sent := r.value.0, r.value.1;
    }
  }

  method StepNext<E(==, !new), S(==, !new)>(
      ghost run: Run<E, S>, p: Participant<E, S>, r1b: map<Id, Option<seq<E>>>, r1u: map<Id, Option<Share<S>>>, random: seq<S>)
      returns (b: Option<Metadata<E, S>>, sent: map<Id, Share<S>>)
    requires Holds(run, p) && run.Honest() && ZeroDealt(run, p) && run.P.next.d >= 2 && |random| == run.P.next.d
    requires p.me in run.P.prev ==> HonestRound1(run, p.me, r1b, r1u) && run.nexts[p.me] == random[0 := run.ContributionOf(p.me)]
    modifies p
    ensures Contributed(run, p)
    ensures p.me in run.P.prev ==> SentNext(run, p.me, map[p.me := b], map[p.me := sent])
  {
    hide ShareOf, LiftVec, Others;
    if p.me in p.P.prev {
      var metadata;
      metadata, sent := PlayRound2(run, p, r1b, r1u, random);
      b := Some(metadata);
    } else {
      var r := p.Round2(r1b, r1u, random);
      b, sent := r.value.0, r.value.1;
    }
  }

  method StepLast<E(==, !new), S(==, !new)>(
      ghost run: Run<E, S>, p: Participant<E, S>, r2b: map<Id, Option<Metadata<E, S>>>, ghost u: map<Id, map<Id, Share<S>>>, r2u: map<Id, Option<Share<S>>>)
      returns (shard: Option<Shard<E, S>>)
    requires Holds(run, p) && run.Honest() && Contributed(run, p) && r2u == Routed(u, p.me)
    requires forall id :: id in run.P.prev ==> SentNext(run, id, r2b, u)
    modifies p
    ensures p.me !in run.P.next.holders ==> shard == None
    ensures p.me in run.P.next.holders ==> shard == Some(NewShard(run, p.me))
  {
    hide ShareOf, LiftVec, Others, SentNext;
    if p.me in p.P.next.holders {
      NextInbox(run, p.me, r2b, u);
      var mine := PlayRound3(run, p, r2b, r2u);
      shard := Some(mine);
    } else {
      var r := p.Round3(r2b, r2u);
      shard := r.value;
    }
  }

  /** The shard a next shareholder must end with. */
  ghost function NewShard<E(!new), S(!new)>(run: Run<E, S>, id: Id): Shard<E, S>
    requires run.Contributing()
  {
    ShardOf(run, run.NextColumn(), id)
  }

  // ----- One round of all parties

  method RoundOne<E(==, !new), S(==, !new)>(ghost run: Run<E, S>, parties: seq<Participant<E, S>>, random: map<Id, seq<S>>)
      returns (b: map<Id, Option<seq<E>>>, u: map<Id, map<Id, Share<S>>>)
    requires run.Dealing() && run.P.zero.d >= 2 && Fleet(run, parties) && Covers(parties, run.P.prev)
    requires forall p :: p in parties ==> Started(p) && p.me in random && |random[p.me]| == run.P.zero.d
    requires forall id :: id in run.P.prev && id in random ==> run.zeros[id] == random[id][0 := run.P.M.scalars.zero]
    modifies parties
    ensures forall p :: p in parties ==> ZeroDealt(run, p)
    ensures forall id :: id in run.P.prev ==> SentZero(run, id, b, u)
  {
    hide ShareOf, LiftVec, Others, Holds, Started, ZeroDealt, SentZero;
    b, u := map[], map[];
    for i := 0 to |parties|
      invariant forall k :: i <= k < |parties| ==> Started(parties[k])
      invariant forall k :: 0 <= k < i ==> ZeroDealt(run, parties[k])
      invariant forall id :: id in Served(parties, i) && id in run.P.prev ==> SentZero(run, id, b, u)
    {
      var p := parties[i];
      assert p in parties;
      var vector, sent := StepZero(run, p, random[p.me]);
      SentZeroMore(run, Served(parties, i), p.me, b, u, vector, sent);
      assert Served(parties, i + 1) == Served(parties, i) + {p.me};
      b, u := b[p.me := vector], u[p.me := sent];
    }
  }

  method RoundTwo<E(==, !new), S(==, !new)>(
      ghost run: Run<E, S>, parties: seq<Participant<E, S>>, r1b: map<Id, Option<seq<E>>>, r1u: map<Id, map<Id, Share<S>>>, random: map<Id, seq<S>>)
      returns (b: map<Id, Option<Metadata<E, S>>>, u: map<Id, map<Id, Share<S>>>)
    requires run.Honest() && run.P.next.d >= 2 && Fleet(run, parties) && Covers(parties, run.P.prev)
    requires forall p :: p in parties ==> ZeroDealt(run, p) && p.me in random && |random[p.me]| == run.P.next.d
    requires forall id :: id in run.P.prev ==> SentZero(run, id, r1b, r1u)
    requires forall id :: id in run.P.prev && id in random ==> run.nexts[id] == random[id][0 := run.ContributionOf(id)]
    modifies parties
    ensures forall p :: p in parties ==> Contributed(run, p)
    ensures forall id :: id in run.P.prev ==> SentNext(run, id, b, u)
  {
    hide ShareOf, LiftVec, Others, Holds, Contributed, ZeroDealt, SentZero, SentNext, HonestRound1;
    b, u := map[], map[];
    for i := 0 to |parties|
      invariant forall k :: i <= k < |parties| ==> ZeroDealt(run, parties[k])
      invariant forall k :: 0 <= k < i ==> Contributed(run, parties[k])
      invariant forall id :: id in Served(parties, i) && id in run.P.prev ==> SentNext(run, id, b, u)
    {
      var p := parties[i];
      assert p in parties;
      if p.me in run.P.prev {
        ZeroInbox(run, p.me, r1b, r1u);
      }
      var metadata, sent := StepNext(run, p, r1b, Routed(r1u, p.me), random[p.me]);
      SentNextMore(run, Served(parties, i), p.me, b, u, metadata, sent);
      assert Served(parties, i + 1) == Served(parties, i) + {p.me};
      b, u := b[p.me := metadata], u[p.me := sent];
    }
  }

  method RoundThree<E(==, !new), S(==, !new)>(
      ghost run: Run<E, S>, parties: seq<Participant<E, S>>, r2b: map<Id, Option<Metadata<E, S>>>, r2u: map<Id, map<Id, Share<S>>>)
      returns (shards: map<Id, Option<Shard<E, S>>>)
    requires run.Honest() && Fleet(run, parties)
    requires forall p :: p in parties ==> Contributed(run, p)
    requires forall id :: id in run.P.prev ==> SentNext(run, id, r2b, r2u)
    modifies parties
    ensures forall p :: p in parties ==> p.me in shards
    ensures forall p :: p in parties ==> shards[p.me] == if p.me in run.P.next.holders then Some(NewShard(run, p.me)) else None
  {
    hide Others, Holds, Contributed, SentNext, NewShard;
    shards := map[];
    for i := 0 to |parties|
      invariant forall k :: i <= k < |parties| ==> Contributed(run, parties[k])
      invariant forall k :: 0 <= k < i ==> parties[k].me in shards
      invariant forall k :: 0 <= k < i ==> shards[parties[k].me] == if parties[k].me in run.P.next.holders then Some(NewShard(run, parties[k].me)) else None
    {
      var p := parties[i];
      assert p in parties;
      var shard := StepLast(run, p, r2b, r2u, Routed(r2u, p.me));
      shards := shards[p.me := shard];
    }
  }

  /** Every party of the session, in its initial state. */
  method Assemble<E(==, !new), S(==, !new)>(ghost run: Run<E, S>, P: Setting<E, S>, ids: seq<Id>, held: map<Id, Shard<E, S>>, anchors: map<Id, Id>)
      returns (parties: seq<Participant<E, S>>)
    requires run.Dealing() && run.P == P && Distinct(ids) && (forall id :: id in P.prev ==> id in ids)
    requires forall id :: id in P.prev ==> id in held && held[id] == OldShard(run, id)
    requires forall id :: id in anchors ==> anchors[id] in P.prev
    ensures fresh(set p | p in parties) && Fleet(run, parties) && Covers(parties, P.prev)
    ensures forall p :: p in parties ==> Started(p)
    ensures |parties| == |ids| && forall i :: 0 <= i < |ids| ==> parties[i].me == ids[i]
  {
    hide ShareOf, LiftVec, Qualified, Verifies;
    parties := [];
    for i := 0 to |ids|
      invariant |parties| == i && fresh(set p | p in parties)
      invariant forall k :: 0 <= k < i ==> parties[k].me == ids[k]
      invariant forall k :: 0 <= k < i ==> Started(parties[k]) && Holds(run, parties[k])
    {
      var id := ids[i];
      if id in P.prev {
        OldShardGood(run, id);
      }
      var p := new Participant(P, id, if id in P.prev then Some(held[id]) else None, if id in anchors then Some(anchors[id]) else None);
      parties := parties + [p];
    }
  }

  ghost function OldShard<E(!new), S(!new)>(run: Run<E, S>, id: Id): Shard<E, S>
    requires run.Dealing()
  {
    Shard(ShareOf(run.FM(), run.msp, run.oldColumn, id), LiftVec(run.P.M, run.oldColumn, run.P.base), run.msp)
  }

  lemma OldShardGood<E(!new), S(!new)>(run: Run<E, S>, id: Id)
    requires run.Dealing() && id in run.P.prev
    ensures OldShard(run, id).share.id == id
    ensures Verifies(run.P.M, run.P.base, run.msp, OldShard(run, id).share, OldShard(run, id).vector)
  {
    assert id in IdSet(run.P.prev);
    DealtShareVerifies(run.P.M, run.P.base, run.msp, run.oldColumn, id);
  }

  // ----- The whole run

  /** The columns of the round-1 dealings. */
  ghost function Zeros<E(!new), S(!new)>(P: Setting<E, S>, random: map<Id, seq<S>>): map<Id, seq<S>>
    requires P.zero.d > 0 && forall id :: id in P.prev ==> id in random && |random[id]| == P.zero.d
  {
    map id | id in P.prev :: random[id][0 := P.M.scalars.zero]
  }

  /** The run that begins with those dealings and re-shares the contributions. */
  ghost function WholeRun<E(!new), S(!new)>(run: Run<E, S>, random: map<Id, seq<S>>): Run<E, S>
    requires run.Dealing() && run.P.next.d > 0 && forall id :: id in run.P.prev ==> id in random && |random[id]| == run.P.next.d
  {
    run.(nexts := map id | id in run.P.prev :: random[id][0 := run.ContributionOf(id)])
  }

  lemma WholeRunHonest<E(!new), S(!new)>(run: Run<E, S>, random: map<Id, seq<S>>)
    requires run.Dealing() && run.Zeroed()
    requires run.P.next.d > 0 && forall id :: id in run.P.prev ==> id in random && |random[id]| == run.P.next.d
    ensures var whole := WholeRun(run, random);
      && whole == run.(nexts := whole.nexts) && whole.Honest()
      && forall id :: id in run.P.prev ==> whole.nexts[id] == random[id][0 := whole.ContributionOf(id)]
  {
    hide Contribution, Qualified, ShareOf, Fold, Distinct;
    var whole := WholeRun(run, random);
    assert whole.ZeroColumn() == run.ZeroColumn();
    assert forall id :: id in run.P.prev ==> whole.ContributionOf(id) == run.ContributionOf(id);
  }

  /** The shard of a column. */
  ghost function ShardOf<E(!new), S(!new)>(run: Run<E, S>, column: seq<S>, id: Id): Shard<E, S>
    requires run.Dealing() && |column| == run.P.next.d
  {
    Shard(ShareOf(run.FM(), run.P.next, column, id), LiftVec(run.P.M, column, run.P.base), run.P.next)
  }

  method PlayAll<E(==, !new), S(==, !new)>(ghost run: Run<E, S>, parties: seq<Participant<E, S>>, random1: map<Id, seq<S>>, random2: map<Id, seq<S>>)
      returns (shards: map<Id, Option<Shard<E, S>>>, ghost column: seq<S>)
    requires run.Dealing() && run.Zeroed() && run.P.zero.d >= 2 && run.P.next.d >= 2 && Fleet(run, parties) && Covers(parties, run.P.prev)
    requires forall p :: p in parties ==> Started(p)
    requires forall p :: p in parties ==> p.me in random1 && |random1[p.me]| == run.P.zero.d
    requires forall p :: p in parties ==> p.me in random2 && |random2[p.me]| == run.P.next.d
    requires forall id :: id in run.P.prev && id in random1 ==> run.zeros[id] == random1[id][0 := run.P.M.scalars.zero]
    modifies parties
    ensures |column| == run.P.next.d && column[0] == run.oldColumn[0]
    ensures forall p :: p in parties ==> p.me in shards
    ensures forall p :: p in parties ==> shards[p.me] == if p.me in run.P.next.holders then Some(ShardOf(run, column, p.me)) else None
  {
    hide ShareOf, LiftVec, Qualified, Distinct, Started, ZeroDealt, Contributed, SentZero, SentNext, Holds;
    var r1b, r1u := RoundOne(run, parties, random1);
    CoinsCover(run.P.prev, parties, random2, run.P.next.d);
    ghost var whole := WholeRun(run, random2);
    WholeRunHonest(run, random2);
    SameUntilRoundTwo(run, whole, parties, r1b, r1u);
    var r2b, r2u := RoundTwo(whole, parties, r1b, r1u, random2);
    shards := RoundThree(whole, parties, r2b, r2u);
    column := whole.NextColumn();
    SecretPreserved(whole);
  }

  lemma CoinsCover<E(!new), S(!new)>(ids: seq<Id>, parties: seq<Participant<E, S>>, random: map<Id, seq<S>>, n: nat)
    requires Covers(parties, ids) && forall p :: p in parties ==> p.me in random && |random[p.me]| == n
    ensures forall id :: id in ids ==> id in random && |random[id]| == n
  {
    forall id | id in ids ensures id in random && |random[id]| == n {
      var i :| 0 <= i < |parties| && parties[i].me == id;
      assert parties[i] in parties;
    }
  }

  /** The old and the next shareholders, each with its own coins and an anchor of its choice or none,
      run the protocol from their first step to their last: every next shareholder ends with its share
      of one new column of the old secret under the old key, and nobody else with anything. */
  method Redistribute<E(==, !new), S(==, !new)>(
      P: Setting<E, S>, ghost msp: Msp<S>, ghost oldColumn: seq<S>, ids: seq<Id>, held: map<Id, Shard<E, S>>, anchors: map<Id, Id>,
      random1: map<Id, seq<S>>, random2: map<Id, seq<S>>) returns (shards: map<Id, Option<Shard<E, S>>>, ghost column: seq<S>)
    requires P.Valid() && P.zero.d >= 2 && P.next.d >= 2
    requires msp.Valid() && |oldColumn| == msp.d && Qualified(P.M.scalars, msp, IdSet(P.prev))
    requires Distinct(ids) && forall id :: id in ids <==> id in P.prev || id in P.next.holders
    requires forall id :: id in P.prev ==> id in held
    requires forall id :: id in P.prev ==> held[id] == Shard(ShareOf(FieldModule(P.M.scalars), msp, oldColumn, id), LiftVec(P.M, oldColumn, P.base), msp)
    requires forall id :: id in anchors ==> anchors[id] in P.prev
    requires forall id :: id in ids ==> id in random1 && |random1[id]| == P.zero.d
    requires forall id :: id in ids ==> id in random2 && |random2[id]| == P.next.d
    ensures |column| == P.next.d && column[0] == oldColumn[0]
    ensures forall id :: id in ids ==> id in shards
    ensures forall id :: id in ids && id !in P.next.holders ==> shards[id] == None
    ensures forall id :: id in P.next.holders ==>
      shards[id] == Some(Shard(ShareOf(FieldModule(P.M.scalars), P.next, column, id), LiftVec(P.M, column, P.base), P.next))
    // so whoever may reconstruct under the next access structure recovers the old secret
    ensures forall quorum: seq<Id> :: Distinct(quorum) && Qualified(P.M.scalars, P.next, IdSet(quorum)) ==>
      Total(FieldModule(P.M.scalars), Additives(FieldModule(P.M.scalars), P.next, quorum, column)) == oldColumn[0]
  {
    hide ShareOf, LiftVec, Qualified, Distinct, Started, IdSet;
    ghost var run := Run(P, msp, oldColumn, Zeros(P, random1), map[]);
    var parties := Assemble(run, P, ids, held, anchors);
    shards, column := PlayAll(run, parties, random1, random2);
    forall id | id in ids
      ensures id in shards && shards[id] == if id in P.next.holders then Some(ShardOf(run, column, id)) else None
    {
      var i :| 0 <= i < |ids| && ids[i] == id;
      assert parties[i] in parties;
    }
    QuorumsRecover(P, column);
  }

  lemma QuorumsRecover<E(!new), S(!new)>(P: Setting<E, S>, column: seq<S>)
    requires P.Valid() && |column| == P.next.d
    ensures forall quorum: seq<Id> :: Distinct(quorum) && Qualified(P.M.scalars, P.next, IdSet(quorum)) ==>
      Total(FieldModule(P.M.scalars), Additives(FieldModule(P.M.scalars), P.next, quorum, column)) == column[0]
  {
    hide Distinct, Qualified, Total, Additives;
    FieldModuleLawful(P.M.scalars);
    forall quorum: seq<Id> | Distinct(quorum) && Qualified(P.M.scalars, P.next, IdSet(quorum))
      ensures Total(FieldModule(P.M.scalars), Additives(FieldModule(P.M.scalars), P.next, quorum, column)) == column[0]
    {
      AdditiveSharesSum(FieldModule(P.M.scalars), P.next, quorum, column);
    }
  }

  lemma SameUntilRoundTwo<E(!new), S(!new)>(
      run: Run<E, S>, whole: Run<E, S>, parties: seq<Participant<E, S>>, b: map<Id, Option<seq<E>>>, u: map<Id, map<Id, Share<S>>>)
    requires run.Dealing() && whole == run.(nexts := whole.nexts) && Fleet(run, parties)
    requires forall p :: p in parties ==> ZeroDealt(run, p)
    requires forall id :: id in run.P.prev ==> SentZero(run, id, b, u)
    ensures Fleet(whole, parties)
    ensures forall p :: p in parties ==> ZeroDealt(whole, p)
    ensures forall id :: id in whole.P.prev ==> SentZero(whole, id, b, u)
  {
    hide ShareOf, LiftVec, Others, Qualified, Distinct;
  }
}
