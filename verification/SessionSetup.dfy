/** The four-round seed setup of a session (pkg/mpc/session/participant.go). */
module SessionSetup {
  import opened Options
  import opened Network
  import opened SessionContext

  const SessionDomainSeparator := "BRON_CRYPTO_SESSION-SESSION"
  const SeedDomainSeparator := "BRON_CRYPTO_SESSION-SEED"
  const CommonKey := "BRON_CRYPTO_NOTHING_UP_MY_SLEEVE"

  /** Round 1: the sender's commitment key and its commitment to a common contribution. */
  datatype Keying = Keying(ck: Bytes, commitment: Bytes)

  /** A contribution with the salt (the witness) that opens its commitment. */
  datatype Opening = Opening(contribution: Bytes, salt: Bytes)

  /** A 32-byte array that is not all zero. */
  predicate Present(b: Bytes) {
    |b| == 32 && exists i :: 0 <= i < |b| && b[i] != 0
  }

  predicate KeyingOk(m: Option<Keying>) {
    m.Some? && Present(m.value.commitment) && Present(m.value.ck)
  }

  predicate OpeningOk(m: Option<Opening>) {
    m.Some? && Present(m.value.contribution) && Present(m.value.salt)
  }

  predicate CommitmentOk(m: Option<Bytes>) {
    m.Some? && Present(m.value)
  }

  predicate Opens(H: Hashes, ck: Bytes, commitment: Bytes, o: Opening) {
    commitment == H.commit(ck, o.contribution, o.salt)
  }

  // ----- The seeds

  /** The public record of the parties in ids. */
  ghost function Record(ids: seq<Id>, keyings: map<Id, Keying>, openings: map<Id, Opening>): Bytes
    requires AllIn(ids, keyings) && AllIn(ids, openings)
  {
    if |ids| == 0 then []
    else
      var id := ids[|ids| - 1];
      Record(ids[..|ids| - 1], keyings, openings) + Le64(id) + keyings[id].ck + keyings[id].commitment + openings[id].contribution + openings[id].salt
  }

  ghost function CommonSeed(quorum: seq<Id>, keyings: map<Id, Keying>, openings: map<Id, Opening>): Bytes
    requires AllIn(quorum, keyings) && AllIn(quorum, openings)
  {
    Ascii(SessionDomainSeparator) + Le64(|quorum|) + Record(quorum, keyings, openings)
  }

  lemma {:induction false} RecordDependsOnQuorum(ids: seq<Id>, k: map<Id, Keying>, o: map<Id, Opening>, k': map<Id, Keying>, o': map<Id, Opening>)
    requires AllIn(ids, k) && AllIn(ids, o) && AllIn(ids, k') && AllIn(ids, o')
    requires forall id :: id in ids ==> k[id] == k'[id] && o[id] == o'[id]
    ensures Record(ids, k, o) == Record(ids, k', o')
  {
    if |ids| > 0 {
      assert ids[|ids| - 1] in ids;
      RecordDependsOnQuorum(ids[..|ids| - 1], k, o, k', o');
    }
  }

  /** Both contributions, the one of the party with the smaller identifier first. */
  function PairSeed(me: Id, other: Id, common: Bytes, mine: Bytes, theirs: Bytes): Bytes {
    Ascii(SeedDomainSeparator) + common + if me < other then mine + theirs else theirs + mine
  }

  lemma PairSeedSymmetric(p: Id, q: Id, common: Bytes, a: Bytes, b: Bytes)
    requires p != q
    ensures PairSeed(p, q, common, a, b) == PairSeed(q, p, common, b, a)
  {
  }

  // ----- The participant

  class Participant {
    const H: Hashes
    const id: Id
    const quorum: seq<Id>
    var round: nat
    var keyings: map<Id, Keying>
    var openings: map<Id, Opening>
    var pairCommitments: map<Id, Bytes>
    var pairOpenings: map<Id, Opening>

    /** What the rounds have recorded so far. */
    ghost predicate Valid()
      reads this
    {
      && id in quorum && id >= 1 && Ascending(quorum) && |quorum| >= 2 && Sum512(H)
      && (round >= 2 ==> id in keyings && id in openings)
      && (round >= 3 ==> AllIn(quorum, keyings) && AllIn(Others(quorum, id), pairOpenings))
      && (round >= 4 ==> AllIn(quorum, openings) && AllIn(Others(quorum, id), pairCommitments))
    }

    constructor (H: Hashes, id: Id, ids: seq<Id>)
      requires Sum512(H) && id >= 1 && id in ids && |Sort(ids)| >= 2
      ensures Valid() && round == 1 && this.H == H && this.id == id && quorum == Sort(ids)
      ensures keyings == map[] && openings == map[] && pairCommitments == map[] && pairOpenings == map[]
    {
      SortCorrect(ids);
      this.H, this.id, this.quorum, this.round := H, id, Sort(ids), 1;
      keyings, openings, pairCommitments, pairOpenings := map[], map[], map[], map[];
    }

    /** Samples a key and commits to a common contribution. */
    method Round1(ck: Bytes, own: Opening) returns (r: Outcome<Keying>)
      requires Valid()
      modifies this
      ensures Valid() && !r.Blame?
      ensures r.Done? <==> old(round) == 1
      ensures r.Failed? ==> unchanged(this)
      ensures r.Done? ==> round == 2 && r.value == Keying(ck, H.commit(Ascii("BRON_CRYPTO_NOTHING_UP_MY_SLEEVE"), own.contribution, own.salt))
      ensures r.Done? ==> keyings == old(keyings)[id := r.value] && openings == old(openings)[id := own] && pairOpenings == old(pairOpenings) && pairCommitments == old(pairCommitments)
    {
      if round != 1 {
        return Failed;
      }
      var commitment := H.commit(Ascii(CommonKey), own.contribution, own.salt);
      keyings := keyings[id := Keying(ck, commitment)];
      openings := openings[id := own];
      round := 2;
      r := Done(Keying(ck, commitment));
    }

    /** Records the peers' keys and commits to a contribution for each of them. */
    method Round2(r1: map<Id, Option<Keying>>, pair: map<Id, Opening>) returns (r: Outcome<(Opening, map<Id, Bytes>)>)
      requires Valid() && AllIn(Others(quorum, id), pair)
      modifies this
      ensures Valid()
      ensures r.Blame? ==> r.culprit in Others(quorum, id) && r.culprit in r1 && !KeyingOk(r1[r.culprit])
      ensures r.Failed? ==> old(round) != 2 || exists i :: i in Others(quorum, id) && i !in r1
      ensures !r.Done? ==> round == old(round)
      ensures r.Done? ==>
        && old(round) == 2 && round == 3 && openings == old(openings) && pairCommitments == old(pairCommitments)
        && AllOk(Others(quorum, id), r1, KeyingOk)
        && keyings == old(keyings) + Received(Others(quorum, id), r1)
        && pairOpenings == old(pairOpenings) + Restrict(Others(quorum, id), pair)
        && r.value == (openings[id], PairCommitments(H, Others(quorum, id), keyings, pair))
      // each commitment sent is to this party's contribution for that peer, under that peer's key
      ensures r.Done? ==> forall i :: i in Others(quorum, id) ==>
        && i in r1 && r1[i].Some? && i in pair && i in r.value.1
        && r.value.1[i] == H.commit(r1[i].value.ck, pair[i].contribution, pair[i].salt)
    {
      hide Others, KeyingOk, Received, Restrict, PairCommitments, Ascending;
      if round != 2 {
        return Failed;
      }
      var others := Others(quorum, id);
      var ok := ValidateIncoming(others, r1, KeyingOk);
      if !ok.Done? {
        return if ok.Blame? then Blame(ok.culprit) else Failed;
      }
      KeyingsSome(others, r1);
      JoinCovers(quorum, id, keyings, r1);
      RestrictCovers(others, pairOpenings, pair);
      OwnEntry(quorum, id, keyings, r1);
      keyings := keyings + Received(others, r1);
      pairOpenings := pairOpenings + Restrict(others, pair);
      round := 3;
      r := Done((openings[id], PairCommitments(H, others, keyings, pair)));
      PairCommitmentsSent(H, others, old(keyings), r1, pair);
    }

    /** Checks the peers' common contributions against their commitments, recording them one by one:
        a bad one stops the round after k peers. */
    method Round3(r2: map<Id, Option<Opening>>, commitments: map<Id, Option<Bytes>>) returns (r: Outcome<map<Id, Opening>>, ghost k: nat)
      requires Valid()
      modifies this
      ensures Valid()
      ensures r.Blame? ==> r.culprit in Others(quorum, id)
      ensures r.Blame? ==> BadCommon(H, keyings, r2, commitments, r.culprit)
      ensures r.Failed? ==> old(round) != 3 || exists i :: i in Others(quorum, id) && (i !in r2 || i !in commitments)
      ensures !r.Done? ==>
        && round == old(round) && keyings == old(keyings) && pairOpenings == old(pairOpenings) && k <= |Others(quorum, id)|
        && openings == old(openings) + Received(Others(quorum, id)[..k], r2)
        && pairCommitments == old(pairCommitments) + Received(Others(quorum, id)[..k], commitments)
      ensures r.Blame? && k > 0 ==> k < |Others(quorum, id)| && r.culprit == Others(quorum, id)[k]
      ensures r.Done? ==>
        && old(round) == 3 && round == 4 && keyings == old(keyings) && pairOpenings == old(pairOpenings)
        && AllOk(Others(quorum, id), r2, OpeningOk) && AllOk(Others(quorum, id), commitments, CommitmentOk)
        && AllOpen(H, Others(quorum, id), Ascii(CommonKey), Commitments(Others(quorum, id), keyings), Received(Others(quorum, id), r2))
        && openings == old(openings) + Received(Others(quorum, id), r2)
        && pairCommitments == old(pairCommitments) + Received(Others(quorum, id), commitments)
        && r.value == Restrict(Others(quorum, id), pairOpenings)
      ensures r.Done? ==> forall i :: i in Others(quorum, id) ==> i in pairOpenings && i in r.value && r.value[i] == pairOpenings[i]
    {
      hide Others, OpeningOk, CommitmentOk, Received, Restrict, Ascending, Commitments, Ascii, Opens;
      k := 0;
      NoneReceived(Others(quorum, id), r2, openings);
      NoneReceived(Others(quorum, id), commitments, pairCommitments);
      if round != 3 {
        return Failed, 0;
      }
      var others := Others(quorum, id);
      var ok := ValidateIncoming(others, r2, OpeningOk);
      if !ok.Done? {
        return if ok.Blame? then Blame(ok.culprit) else Failed, 0;
      }
      ok := ValidateIncoming(others, commitments, CommitmentOk);
      if !ok.Done? {
        return if ok.Blame? then Blame(ok.culprit) else Failed, 0;
      }
      OpeningsSome(others, r2);
      CommitmentsSome(others, commitments);
      CommitmentsCover(quorum, id, keyings);
      var stopped := CheckOpenings(H, others, Ascii(CommonKey), Commitments(others, keyings), Received(others, r2));
      if stopped < |others| {
        BadCommonOpening(H, others, keyings, r2, commitments, others[stopped]);
        openings := openings + Received(others[..stopped], r2);
        pairCommitments := pairCommitments + Received(others[..stopped], commitments);
        return Blame(others[stopped]), stopped;
      }
      JoinCovers(quorum, id, openings, r2);
      ReceivedCovers(others, pairCommitments, commitments);
      OwnEntry(quorum, id, openings, r2);
      openings := openings + Received(others, r2);
      pairCommitments := pairCommitments + Received(others, commitments);
      round := 4;
      r, k := Done(Restrict(others, pairOpenings)), |others|;
      Restricted(others, pairOpenings);
    }

    /** Checks the pairwise contributions and derives the session context. */
    method Round4(r3: map<Id, Option<Opening>>) returns (r: Outcome<Context>)
      requires Valid()
      modifies this`round
      ensures Valid()
      ensures r.Blame? ==> r.culprit in Others(quorum, id)
      ensures r.Blame? ==> id in keyings && r.culprit in pairCommitments && BadPair(H, keyings[id].ck, pairCommitments[r.culprit], r3, r.culprit)
      ensures r.Failed? ==> old(round) != 4 || exists i :: i in Others(quorum, id) && i !in r3
      ensures !r.Done? ==> round == old(round)
      ensures r.Done? ==>
        && old(round) == 4 && round == 5 && fresh(r.value) && r.value.H == H && r.value.Value().Valid()
        && AllIn(quorum, keyings) && AllIn(quorum, openings) && AllOk(Others(quorum, id), r3, OpeningOk)
        && id in keyings && AllIn(Others(quorum, id), pairCommitments)
        && AllOpen(H, Others(quorum, id), keyings[id].ck, pairCommitments, Received(Others(quorum, id), r3))
        && var common := CommonSeed(quorum, keyings, openings);
           var seeds := PairSeeds(quorum, id, common, pairOpenings, r3);
           EnoughEntropy(id, quorum, common, seeds) && r.value.Value() == InitialState(H, id, quorum, common, seeds)
    {
      hide Others, OpeningOk, Received, Ascending, Ascii, Le64, InitialState, PairSeeds, CommonSeed, EnoughEntropy, Opens;
      if round != 4 {
        return Failed;
      }
      var others := Others(quorum, id);
      var ok := ValidateIncoming(others, r3, OpeningOk);
      if !ok.Done? {
        return if ok.Blame? then Blame(ok.culprit) else Failed;
      }
      OpeningsSome(others, r3);
      var common := EncodeCommonSeed(quorum, keyings, openings);
      var stopped := CheckOpenings(H, others, keyings[id].ck, pairCommitments, Received(others, r3));
      if stopped < |others| {
        BadPairOpening(H, others, keyings[id].ck, pairCommitments, r3, others[stopped]);
        return Blame(others[stopped]);
      }
      var seeds := PairSeeds(quorum, id, common, pairOpenings, r3);
      SeedsSuffice(id, quorum, keyings, openings, pairOpenings, r3);
      var c := NewContext(H, id, quorum, common, seeds);
      round := 5;
      r := Done(c.value);
    }
  }

  // ----- What the seeds contain

  lemma PresentMeans(b: Bytes)
    ensures Present(b) <==> |b| == 32 && b != seq(32, i => 0 as Byte)
  {
    if |b| == 32 && !Present(b) {
      assert b == seq(32, i => 0 as Byte);
    }
  }

  /** All byte arrays of these parties are 32 bytes long, as their types say in the original. */
  ghost predicate Arrays(ids: seq<Id>, k: map<Id, Keying>, o: map<Id, Opening>) {
    && AllIn(ids, k) && AllIn(ids, o)
    && forall id :: id in ids ==> |k[id].ck| == |k[id].commitment| == |o[id].contribution| == |o[id].salt| == 32
  }

  /** The record of the party at place i: its identifier, key, commitment, contribution and salt. */
  lemma {:induction false} RecordAt(ids: seq<Id>, k: map<Id, Keying>, o: map<Id, Opening>, i: nat)
    requires Arrays(ids, k, o) && i < |ids|
    ensures |Record(ids, k, o)| == 136 * |ids|
    ensures Record(ids, k, o)[136 * i..136 * i + 136] == Le64(ids[i]) + k[ids[i]].ck + k[ids[i]].commitment + o[ids[i]].contribution + o[ids[i]].salt
  {
    hide Le64;
    var init, id := ids[..|ids| - 1], ids[|ids| - 1];
    var last := Le64(id) + k[id].ck + k[id].commitment + o[id].contribution + o[id].salt;
    RecordLength(init, k, o);
    assert id in ids && |last| == 136;
    assert Record(ids, k, o) == Record(init, k, o) + last;
    if i < |ids| - 1 {
      RecordAt(init, k, o, i);
      assert Record(ids, k, o)[136 * i..136 * i + 136] == Record(init, k, o)[136 * i..136 * i + 136];
    } else {
      assert Record(ids, k, o)[136 * i..136 * i + 136] == last;
    }
  }

  lemma {:induction false} RecordLength(ids: seq<Id>, k: map<Id, Keying>, o: map<Id, Opening>)
    requires Arrays(ids, k, o)
    ensures |Record(ids, k, o)| == 136 * |ids|
  {
    hide Le64;
    if |ids| > 0 {
      assert ids[|ids| - 1] in ids;
      RecordLength(ids[..|ids| - 1], k, o);
    }
  }

  /** The common seed: the separator, the size, then one record of 136 bytes after the other. */
  lemma CommonSeedAt(quorum: seq<Id>, k: map<Id, Keying>, o: map<Id, Opening>)
    requires Arrays(quorum, k, o)
    ensures var seed := CommonSeed(quorum, k, o);
      && |seed| == 35 + 136 * |quorum| && seed[..27] == Ascii("BRON_CRYPTO_SESSION-SESSION") && seed[27..35] == Le64(|quorum|)
      && forall i :: 0 <= i < |quorum| ==>
           seed[35 + 136 * i..171 + 136 * i] == Le64(quorum[i]) + k[quorum[i]].ck + k[quorum[i]].commitment + o[quorum[i]].contribution + o[quorum[i]].salt
  {
    hide Le64, Ascii;
    var seed := CommonSeed(quorum, k, o);
    assert |SessionDomainSeparator| == 27;
    RecordLength(quorum, k, o);
    forall i | 0 <= i < |quorum|
      ensures seed[35 + 136 * i..171 + 136 * i] == Le64(quorum[i]) + k[quorum[i]].ck + k[quorum[i]].commitment + o[quorum[i]].contribution + o[quorum[i]].salt
    {
      RecordAt(quorum, k, o, i);
      assert seed[35 + 136 * i..171 + 136 * i] == Record(quorum, k, o)[136 * i..136 * i + 136];
    }
  }

  /** The common seed tells the quorum and everything each of its members published. */
  lemma CommonSeedTells(quorum: seq<Id>, k: map<Id, Keying>, o: map<Id, Opening>, quorum': seq<Id>, k': map<Id, Keying>, o': map<Id, Opening>)
    requires Arrays(quorum, k, o) && Arrays(quorum', k', o') && Small(quorum) && Small(quorum')
    requires CommonSeed(quorum, k, o) == CommonSeed(quorum', k', o')
    ensures quorum == quorum' && forall id :: id in quorum ==> k[id] == k'[id] && o[id] == o'[id]
  {
    hide Le64, Ascii, CommonSeed;
    CommonSeedAt(quorum, k, o);
    CommonSeedAt(quorum', k', o');
    forall i | 0 <= i < |quorum| ensures quorum[i] == quorum'[i] && k[quorum[i]] == k'[quorum[i]] && o[quorum[i]] == o'[quorum[i]] {
      SameFields(quorum[i], k[quorum[i]], o[quorum[i]], quorum'[i], k'[quorum'[i]], o'[quorum'[i]]);
    }
  }

  lemma SameFields(id: Id, k: Keying, o: Opening, id': Id, k': Keying, o': Opening)
    requires |k.ck| == |k.commitment| == |o.contribution| == |o.salt| == 32 && |k'.ck| == |k'.commitment| == |o'.contribution| == |o'.salt| == 32
    requires id < Limit64 && id' < Limit64
    requires Le64(id) + k.ck + k.commitment + o.contribution + o.salt == Le64(id') + k'.ck + k'.commitment + o'.contribution + o'.salt
    ensures id == id' && k == k' && o == o'
  {
    hide Le64;
    var x, x' := Le64(id) + k.ck + k.commitment + o.contribution + o.salt, Le64(id') + k'.ck + k'.commitment + o'.contribution + o'.salt;
    assert Le64(id) == x[..8] && Le64(id') == x'[..8];
    assert k.ck == x[8..40] && k'.ck == x'[8..40];
    assert k.commitment == x[40..72] && k'.commitment == x'[40..72];
    assert o.contribution == x[72..104] && o'.contribution == x'[72..104];
    assert o.salt == x[104..] && o'.salt == x'[104..];
    Le64Injective(id, id');
  }

  // ----- Message checks

  /** The commitments to the contributions for each peer, under that peer's key. */
  function PairCommitments(H: Hashes, ids: seq<Id>, keyings: map<Id, Keying>, pair: map<Id, Opening>): map<Id, Bytes> {
    map i | i in ids && i in keyings && i in pair :: H.commit(keyings[i].ck, pair[i].contribution, pair[i].salt)
  }

  lemma PairCommitmentsSent(H: Hashes, ids: seq<Id>, before: map<Id, Keying>, r1: map<Id, Option<Keying>>, pair: map<Id, Opening>)
    requires AllSome(ids, r1) && AllIn(ids, pair)
    ensures forall i :: i in ids ==>
      && i in PairCommitments(H, ids, before + Received(ids, r1), pair)
      && PairCommitments(H, ids, before + Received(ids, r1), pair)[i] == H.commit(r1[i].value.ck, pair[i].contribution, pair[i].salt)
  {
  }

  function Commitments(ids: seq<Id>, keyings: map<Id, Keying>): map<Id, Bytes> {
    map i | i in ids && i in keyings :: keyings[i].commitment
  }

  /** The peer's common contribution is missing or does not open its commitment. */
  ghost predicate BadCommon(H: Hashes, keyings: map<Id, Keying>, r2: map<Id, Option<Opening>>, commitments: map<Id, Option<Bytes>>, i: Id) {
    || (i in r2 && !OpeningOk(r2[i])) || (i in commitments && !CommitmentOk(commitments[i]))
    || (i in r2 && r2[i].Some? && i in keyings && !Opens(H, Ascii(CommonKey), keyings[i].commitment, r2[i].value))
  }

  ghost predicate BadPair(H: Hashes, ck: Bytes, commitment: Bytes, r3: map<Id, Option<Opening>>, i: Id) {
    i in r3 && (!OpeningOk(r3[i]) || !Opens(H, ck, commitment, r3[i].value))
  }

  lemma KeyingsSome(ids: seq<Id>, m: map<Id, Option<Keying>>)
    requires AllOk(ids, m, KeyingOk)
    ensures AllSome(ids, m)
  {
  }

  lemma OpeningsSome(ids: seq<Id>, m: map<Id, Option<Opening>>)
    requires AllOk(ids, m, OpeningOk)
    ensures AllSome(ids, m) && AllIn(ids, Received(ids, m))
  {
  }

  lemma CommitmentsSome(ids: seq<Id>, m: map<Id, Option<Bytes>>)
    requires AllOk(ids, m, CommitmentOk)
    ensures AllSome(ids, m)
  {
  }

  lemma RestrictCovers<T>(ids: seq<Id>, m: map<Id, T>, n: map<Id, T>)
    requires AllIn(ids, n)
    ensures AllIn(ids, m + Restrict(ids, n))
  {
  }

  lemma ReceivedCovers<T>(ids: seq<Id>, m: map<Id, T>, n: map<Id, Option<T>>)
    requires AllSome(ids, n)
    ensures AllIn(ids, m + Received(ids, n))
  {
  }

  lemma CommitmentsCover(ids: seq<Id>, me: Id, keyings: map<Id, Keying>)
    requires AllIn(ids, keyings)
    ensures AllIn(Others(ids, me), Commitments(Others(ids, me), keyings))
  {
    OthersMembers(ids, me);
  }

  lemma OwnEntry<T>(ids: seq<Id>, me: Id, m: map<Id, T>, messages: map<Id, Option<T>>)
    requires me in m
    ensures me in m + Received(Others(ids, me), messages) && (m + Received(Others(ids, me), messages))[me] == m[me]
  {
    OthersMembers(ids, me);
  }

  lemma BadCommonOpening(H: Hashes, ids: seq<Id>, keyings: map<Id, Keying>, r2: map<Id, Option<Opening>>, commitments: map<Id, Option<Bytes>>, i: Id)
    requires AllSome(ids, r2) && i in ids && i in Commitments(ids, keyings) && i in Received(ids, r2)
    requires !Opens(H, Ascii(CommonKey), Commitments(ids, keyings)[i], Received(ids, r2)[i])
    ensures BadCommon(H, keyings, r2, commitments, i)
  {
  }

  lemma BadPairOpening(H: Hashes, ids: seq<Id>, ck: Bytes, commitments: map<Id, Bytes>, r3: map<Id, Option<Opening>>, i: Id)
    requires AllSome(ids, r3) && i in ids && i in commitments && i in Received(ids, r3)
    requires !Opens(H, ck, commitments[i], Received(ids, r3)[i])
    ensures BadPair(H, ck, commitments[i], r3, i)
  {
  }

  ghost predicate AllOpen(H: Hashes, ids: seq<Id>, ck: Bytes, commitments: map<Id, Bytes>, openings: map<Id, Opening>) {
    forall id :: id in ids ==> id in commitments && id in openings && Opens(H, ck, commitments[id], openings[id])
  }

  /** The position of the first opening that does not match its commitment; past the end when all do. */
  method CheckOpenings(H: Hashes, ids: seq<Id>, ck: Bytes, commitments: map<Id, Bytes>, openings: map<Id, Opening>) returns (k: nat)
    requires AllIn(ids, commitments) && AllIn(ids, openings)
    ensures k <= |ids|
    ensures k == |ids| ==> AllOpen(H, ids, ck, commitments, openings)
    ensures k < |ids| ==> !Opens(H, ck, commitments[ids[k]], openings[ids[k]])
    ensures forall l :: 0 <= l < k ==> Opens(H, ck, commitments[ids[l]], openings[ids[l]])
  {
    k := 0;
    while k < |ids| && Opens(H, ck, commitments[ids[k]], openings[ids[k]])
      invariant k <= |ids| && forall l :: 0 <= l < k ==> Opens(H, ck, commitments[ids[l]], openings[ids[l]])
    {
      k := k + 1;
    }
  }

  lemma NoneReceived<T>(ids: seq<Id>, m: map<Id, Option<T>>, before: map<Id, T>)
    ensures before + Received(ids[..0], m) == before
  {
  }

  method EncodeCommonSeed(quorum: seq<Id>, keyings: map<Id, Keying>, openings: map<Id, Opening>) returns (seed: Bytes)
    requires AllIn(quorum, keyings) && AllIn(quorum, openings)
    ensures seed == CommonSeed(quorum, keyings, openings)
  {
    hide Ascii, Le64;
    seed := Ascii(SessionDomainSeparator);
    seed := seed + Le64(|quorum|);
    ghost var head := seed;
    for i := 0 to |quorum|
      invariant seed == head + Record(quorum[..i], keyings, openings)
    {
      var id := quorum[i];
      assert quorum[..i + 1][..i] == quorum[..i];
      ghost var before := Record(quorum[..i], keyings, openings);
      seed := seed + Le64(id);
      seed := seed + keyings[id].ck;
      seed := seed + keyings[id].commitment;
      seed := seed + openings[id].contribution;
      seed := seed + openings[id].salt;
      assert seed == head + (before + Le64(id) + keyings[id].ck + keyings[id].commitment + openings[id].contribution + openings[id].salt);
    }
    assert quorum[..|quorum|] == quorum;
  }

  /** The pairwise seeds with the other parties. */
  function PairSeeds(quorum: seq<Id>, me: Id, common: Bytes, pair: map<Id, Opening>, r3: map<Id, Option<Opening>>): map<Id, Bytes> {
    map i | i in quorum && i != me && i in pair && i in r3 && r3[i].Some? :: PairSeed(me, i, common, pair[i].contribution, r3[i].value.contribution)
  }

  /** The seeds are always long enough for a context. */
  lemma SeedsSuffice(id: Id, quorum: seq<Id>, keyings: map<Id, Keying>, openings: map<Id, Opening>, pair: map<Id, Opening>, r3: map<Id, Option<Opening>>)
    requires id in quorum && id >= 1 && Ascending(quorum) && |quorum| >= 2
    requires AllIn(quorum, keyings) && AllIn(quorum, openings) && AllIn(Others(quorum, id), pair) && AllSome(Others(quorum, id), r3)
    ensures var common := CommonSeed(quorum, keyings, openings);
      EnoughEntropy(id, quorum, common, PairSeeds(quorum, id, common, pair, r3))
  {
    OthersMembers(quorum, id);
    SortCorrect(quorum);
    AscendingUnique(Sort(quorum), quorum);
  }

  // ----- Runs

  /** One party's view of a run: what it sampled and what it received. */
  datatype View = View(
    id: Id, own: Opening, ck: Bytes, pair: map<Id, Opening>,
    r1: map<Id, Option<Keying>>, r2: map<Id, Option<Opening>>, commitments: map<Id, Option<Bytes>>, r3: map<Id, Option<Opening>>)
  {
    /** Everyone's keys and commitments, as this party knows them. */
    ghost function Keyings(H: Hashes, quorum: seq<Id>): map<Id, Keying> {
      map[][id := Keying(ck, H.commit(Ascii(CommonKey), own.contribution, own.salt))] + Received(Others(quorum, id), r1)
    }

    ghost function Openings(quorum: seq<Id>): map<Id, Opening> {
      map[][id := own] + Received(Others(quorum, id), r2)
    }

    ghost predicate Complete(quorum: seq<Id>) {
      && id in quorum && id >= 1 && Ascending(quorum) && |quorum| >= 2 && AllIn(Others(quorum, id), pair)
      && AllSome(Others(quorum, id), r1) && AllSome(Others(quorum, id), r2) && AllSome(Others(quorum, id), r3)
    }

    lemma Covered(H: Hashes, quorum: seq<Id>)
      requires Complete(quorum)
      ensures AllIn(quorum, Keyings(H, quorum)) && AllIn(quorum, Openings(quorum))
    {
      JoinCovers(quorum, id, map[][id := Keying(ck, H.commit(Ascii(CommonKey), own.contribution, own.salt))], r1);
      JoinCovers(quorum, id, map[][id := own], r2);
    }

    ghost function Common(H: Hashes, quorum: seq<Id>): Bytes
      requires Complete(quorum)
    {
      Covered(H, quorum);
      CommonSeed(quorum, Keyings(H, quorum), Openings(quorum))
    }

    /** The context the party ends up with. */
    ghost function Result(H: Hashes, quorum: seq<Id>): State
      requires Sum512(H) && Complete(quorum)
    {
      Covered(H, quorum);
      SeedsSuffice(id, quorum, Keyings(H, quorum), Openings(quorum), pair, r3);
      InitialState(H, id, quorum, Common(H, quorum), PairSeeds(quorum, id, Common(H, quorum), pair, r3))
    }
  }

  /** Everything the party needs from one peer: 32-byte arrays that are not all zero, and openings of the
      commitments sent before, the common one under the common key, the pairwise one under its own. */
  ghost predicate GoodFrom(H: Hashes, v: View, i: Id) {
    && i in v.r1 && v.r1[i].Some? && Present(v.r1[i].value.ck) && Present(v.r1[i].value.commitment)
    && i in v.r2 && v.r2[i].Some? && Present(v.r2[i].value.contribution) && Present(v.r2[i].value.salt)
    && i in v.commitments && v.commitments[i].Some? && Present(v.commitments[i].value)
    && i in v.r3 && v.r3[i].Some? && Present(v.r3[i].value.contribution) && Present(v.r3[i].value.salt)
    && v.r1[i].value.commitment == H.commit(Ascii("BRON_CRYPTO_NOTHING_UP_MY_SLEEVE"), v.r2[i].value.contribution, v.r2[i].value.salt)
    && v.commitments[i].value == H.commit(v.ck, v.r3[i].value.contribution, v.r3[i].value.salt)
  }

  /** The same in terms of the checks of the rounds. */
  ghost predicate PassesChecks(H: Hashes, v: View, i: Id) {
    && i in v.r1 && KeyingOk(v.r1[i]) && i in v.r2 && OpeningOk(v.r2[i]) && i in v.commitments && CommitmentOk(v.commitments[i])
    && i in v.r3 && OpeningOk(v.r3[i])
    && Opens(H, Ascii(CommonKey), v.r1[i].value.commitment, v.r2[i].value) && Opens(H, v.ck, v.commitments[i].value, v.r3[i].value)
  }

  lemma GoodMeans(H: Hashes, v: View, i: Id)
    ensures GoodFrom(H, v, i) <==> PassesChecks(H, v, i)
  {
    hide Present, Ascii;
  }

  lemma AllGoodMeans(H: Hashes, v: View, ids: seq<Id>)
    ensures (forall i :: i in ids && i != v.id ==> GoodFrom(H, v, i)) <==> (forall i :: i in Others(Sort(ids), v.id) ==> PassesChecks(H, v, i))
  {
    hide GoodFrom, PassesChecks;
    SortCorrect(ids);
    OthersMembers(Sort(ids), v.id);
    forall i ensures GoodFrom(H, v, i) <==> PassesChecks(H, v, i) {
      GoodMeans(H, v, i);
    }
  }

  /** What the finished context holds, byte by byte; fed is the input of the hash behind its session
      identifier. */
  ghost predicate Derived(H: Hashes, v: View, quorum: seq<Id>, fed: Bytes, c: State)
    requires Sum512(H)
  {
    && c.holder == v.id && c.quorum == quorum && c.sid == H.sum512(fed)[..32]
    && c.tape == [("BRON_CRYPTO_SETUP_TRANSCRIPT-", []), ("BRON_CRYPTO_SETUP_TRANSCRIPT_INIT-", H.sum512(fed)[32..])]
    && forall i :: i in quorum && i != v.id ==>
         && i in c.seeds && i in v.pair && i in v.r3 && v.r3[i].Some?
         && c.seeds[i].custom == Ascii("BRON_CRYPTO_SETUP_SEED_DOMAIN_SEPARATOR-") && c.seeds[i].offset == 32
         && c.seeds[i].absorbed == Le64(if v.id < i then v.id else i) + Le64(if v.id < i then i else v.id) + (Ascii("BRON_CRYPTO_SESSION-SEED") + fed
              + if v.id < i then v.pair[i].contribution + v.r3[i].value.contribution else v.r3[i].value.contribution + v.pair[i].contribution)
  }

  lemma ResultDerived(H: Hashes, v: View, quorum: seq<Id>)
    requires Sum512(H) && v.Complete(quorum)
    ensures Derived(H, v, quorum, v.Common(H, quorum), v.Result(H, quorum))
  {
    hide Ascii, Le64, CommonSeed, InitialState, EnoughEntropy, Sort, Others, Record;
    var common := v.Common(H, quorum);
    v.Covered(H, quorum);
    SeedsSuffice(v.id, quorum, v.Keyings(H, quorum), v.Openings(quorum), v.pair, v.r3);
    SortCorrect(quorum);
    AscendingUnique(Sort(quorum), quorum);
    OthersMembers(quorum, v.id);
    StateDerived(H, v, quorum, common);
  }

  lemma StateDerived(H: Hashes, v: View, quorum: seq<Id>, common: Bytes)
    requires Sum512(H) && v.id in quorum && Sort(quorum) == quorum && EnoughEntropy(v.id, quorum, common, PairSeeds(quorum, v.id, common, v.pair, v.r3))
    requires forall i :: i in quorum && i != v.id ==> i in v.pair && i in v.r3 && v.r3[i].Some?
    ensures Derived(H, v, quorum, common, InitialState(H, v.id, quorum, common, PairSeeds(quorum, v.id, common, v.pair, v.r3)))
  {
    hide Ascii, Le64, InitialState, EnoughEntropy, Sort;
    var seeds := PairSeeds(quorum, v.id, common, v.pair, v.r3);
    InitialSpelledOut(H, v.id, quorum, common, seeds, InitialState(H, v.id, quorum, common, seeds));
    InitialQuorum(H, v.id, quorum, common, seeds);
  }

  lemma InitialQuorum(H: Hashes, id: Id, quorum: seq<Id>, common: Bytes, seeds: map<Id, Bytes>)
    requires Sum512(H) && EnoughEntropy(id, quorum, common, seeds)
    ensures InitialState(H, id, quorum, common, seeds).quorum == Sort(quorum) && InitialState(H, id, quorum, common, seeds).holder == id
  {
  }

  /** Plays one party's part of a run: a party that finishes has the context fixed by its view, and
      every contribution it accepted, common or pairwise, opens the commitment its peer sent before. */
  method Play(H: Hashes, ids: seq<Id>, v: View) returns (r: Outcome<Context>)
    requires Sum512(H) && v.id >= 1 && v.id in ids && |Sort(ids)| >= 2 && AllIn(Others(Sort(ids), v.id), v.pair)
    ensures r.Done? <==> forall i :: i in ids && i != v.id ==> GoodFrom(H, v, i)
    ensures r.Done? ==> v.Complete(Sort(ids)) && r.value.Value() == v.Result(H, Sort(ids))
    ensures r.Done? ==> Derived(H, v, Sort(ids), v.Common(H, Sort(ids)), r.value.Value())
    ensures r.Blame? ==> r.culprit in ids && r.culprit != v.id
  {
    hide Derived, GoodFrom, PassesChecks, Sort, Others;
    r := PlayRounds(H, ids, v);
    AllGoodMeans(H, v, ids);
    SortCorrect(ids);
    OthersMembers(Sort(ids), v.id);
    if r.Done? {
      ResultDerived(H, v, Sort(ids));
    }
  }

  /** Rounds 1 and 2. */
  method PlayFirst(H: Hashes, ids: seq<Id>, v: View) returns (r: Outcome<Participant>)
    requires Sum512(H) && v.id >= 1 && v.id in ids && |Sort(ids)| >= 2 && AllIn(Others(Sort(ids), v.id), v.pair)
    ensures !r.Done? ==> exists i :: i in Others(Sort(ids), v.id) && !PassesChecks(H, v, i)
    ensures r.Blame? ==> r.culprit in Others(Sort(ids), v.id)
    ensures r.Done? ==> fresh(r.value) && r.value.Valid() && r.value.round == 3 && r.value.H == H && r.value.id == v.id && r.value.quorum == Sort(ids)
    ensures r.Done? ==> AllOk(Others(Sort(ids), v.id), v.r1, KeyingOk) && AllSome(Others(Sort(ids), v.id), v.r1)
    ensures r.Done? ==> var p, others := r.value, Others(Sort(ids), v.id);
      && p.keyings == map[v.id := Keying(v.ck, H.commit(Ascii(CommonKey), v.own.contribution, v.own.salt))] + Received(others, v.r1)
      && v.id in p.keyings && p.keyings[v.id].ck == v.ck
      && p.openings == map[v.id := v.own] && p.pairCommitments == map[] && p.pairOpenings == map[] + Restrict(others, v.pair)
  {
    hide Ascii, Sort, KeyingOk, Others, Received, Restrict, Ascending, PairCommitments, PassesChecks;
    var p := new Participant(H, v.id, ids);
    var a := p.Round1(v.ck, v.own);
    assert p.keyings == map[v.id := Keying(v.ck, H.commit(Ascii(CommonKey), v.own.contribution, v.own.salt))] && p.openings == map[v.id := v.own];
    ghost var k1 := p.keyings;
    var b := p.Round2(v.r1, v.pair);
    if !b.Done? {
      KeyFault(H, v, Others(p.quorum, v.id));
      return if b.Blame? then Blame(b.culprit) else Failed;
    }
    KeyingsSome(Others(p.quorum, v.id), v.r1);
    OwnKey(p.quorum, v.id, k1, v.r1);
    r := Done(p);
  }

  lemma KeyFault(H: Hashes, v: View, others: seq<Id>)
    ensures forall i :: i in others && (i !in v.r1 || !KeyingOk(v.r1[i])) ==> !PassesChecks(H, v, i)
  {
  }

  method PlayRounds(H: Hashes, ids: seq<Id>, v: View) returns (r: Outcome<Context>)
    requires Sum512(H) && v.id >= 1 && v.id in ids && |Sort(ids)| >= 2 && AllIn(Others(Sort(ids), v.id), v.pair)
    ensures r.Done? <==> forall i :: i in Others(Sort(ids), v.id) ==> PassesChecks(H, v, i)
    ensures r.Done? ==> v.Complete(Sort(ids)) && r.value.Value() == v.Result(H, Sort(ids))
    ensures r.Blame? ==> r.culprit in Others(Sort(ids), v.id)
  {
    hide Ascii, Le64, Sort, InitialState, EnoughEntropy, KeyingOk, OpeningOk, CommitmentOk, Others, Received, Restrict, PairSeeds, CommonSeed, Ascending, PairCommitments, Commitments, Opens, AllOpen, BadCommon, BadPair, PassesChecks;
    var first := PlayFirst(H, ids, v);
    if !first.Done? {
      return if first.Blame? then Blame(first.culprit) else Failed;
    }
    var p := first.value;
    ghost var others, k1 := Others(p.quorum, v.id), map[v.id := Keying(v.ck, H.commit(Ascii(CommonKey), v.own.contribution, v.own.salt))];
    var c, k := p.Round3(v.r2, v.commitments);
    MissingFault(H, v);
    if !c.Done? {
      if c.Blame? {
        CommonFault(H, v, others, k1, c.culprit);
      }
      return if c.Blame? then Blame(c.culprit) else Failed;
    }
    CommitmentsSome(others, v.commitments);
    OpeningsSome(others, v.r2);
    r := p.Round4(v.r3);
    if r.Blame? {
      PairFault(H, v, others, r.culprit);
    }
    if r.Done? {
      OpeningsSome(others, v.r3);
      RestrictedPairs(p.quorum, v.id, CommonSeed(p.quorum, p.keyings, p.openings), v.pair, v.r3);
      OpenedCommitments(H, p.quorum, v.id, k1, p.keyings, v.r1, v.r2);
      OpenedPairs(H, p.quorum, v.id, v.ck, p.pairCommitments, v.commitments, v.r3);
      AllPass(H, v, others);
    }
  }

  lemma MissingFault(H: Hashes, v: View)
    ensures forall i :: i !in v.r2 || i !in v.commitments || i !in v.r3 ==> !PassesChecks(H, v, i)
  {
  }

  lemma AllPass(H: Hashes, v: View, others: seq<Id>)
    requires AllOk(others, v.r1, KeyingOk) && AllOk(others, v.r2, OpeningOk) && AllOk(others, v.commitments, CommitmentOk) && AllOk(others, v.r3, OpeningOk)
    requires AllSome(others, v.r1) && AllSome(others, v.r2) && AllSome(others, v.commitments) && AllSome(others, v.r3)
    requires forall i :: i in others ==> Opens(H, Ascii(CommonKey), v.r1[i].value.commitment, v.r2[i].value)
    requires forall i :: i in others ==> Opens(H, v.ck, v.commitments[i].value, v.r3[i].value)
    ensures forall i :: i in others ==> PassesChecks(H, v, i)
  {
    hide Ascii, KeyingOk, OpeningOk, CommitmentOk, Opens;
  }

  lemma CommonFault(H: Hashes, v: View, others: seq<Id>, own: map<Id, Keying>, i: Id)
    requires i in others && AllSome(others, v.r1) && BadCommon(H, own + Received(others, v.r1), v.r2, v.commitments, i)
    ensures !PassesChecks(H, v, i)
  {
    assert (own + Received(others, v.r1))[i] == v.r1[i].value;
  }

  lemma Restricted<T>(ids: seq<Id>, m: map<Id, T>)
    requires AllIn(ids, m)
    ensures forall i :: i in ids ==> i in Restrict(ids, m) && Restrict(ids, m)[i] == m[i]
  {
  }

  /** What an honest peer sends in the three rounds is good: honest parties whose messages arrive finish. */
  lemma HonestPeerGood(H: Hashes, v: View, w: View)
    requires w.id in v.r1 && v.r1[w.id] == Some(Keying(w.ck, H.commit(Ascii("BRON_CRYPTO_NOTHING_UP_MY_SLEEVE"), w.own.contribution, w.own.salt)))
    requires w.id in v.r2 && v.r2[w.id] == Some(w.own)
    requires v.id in w.pair && w.id in v.commitments && v.commitments[w.id] == Some(H.commit(v.ck, w.pair[v.id].contribution, w.pair[v.id].salt))
    requires w.id in v.r3 && v.r3[w.id] == Some(w.pair[v.id])
    requires Present(w.ck) && Present(w.own.contribution) && Present(w.own.salt) && Present(w.pair[v.id].contribution) && Present(w.pair[v.id].salt)
    requires Present(v.r1[w.id].value.commitment) && Present(v.commitments[w.id].value)
    ensures GoodFrom(H, v, w.id)
  {
    hide Present, Ascii;
  }

  // ----- Different inputs

  /** The party's own arrays are 32 bytes long, as their types say in the original, and so are commitments. */
  ghost predicate OwnArrays(H: Hashes, v: View) {
    && |v.ck| == |v.own.contribution| == |v.own.salt| == 32 && (forall k, m, s :: |H.commit(k, m, s)| == 32)
    && forall i :: i in v.pair ==> |v.pair[i].contribution| == 32
  }

  lemma ViewArrays(H: Hashes, v: View, quorum: seq<Id>)
    requires v.Complete(quorum) && OwnArrays(H, v) && forall i :: i in quorum && i != v.id ==> GoodFrom(H, v, i)
    ensures Arrays(quorum, v.Keyings(H, quorum), v.Openings(quorum))
    ensures v.Openings(quorum)[v.id] == v.own
    ensures forall i :: i in quorum && i != v.id ==> i in v.r2 && v.r2[i].Some? && v.Openings(quorum)[i] == v.r2[i].value
  {
    hide Ascii, GoodFrom, Others, OwnArrays;
    v.Covered(H, quorum);
    forall i | i in quorum ensures |v.Keyings(H, quorum)[i].ck| == |v.Keyings(H, quorum)[i].commitment| == 32 && |v.Openings(quorum)[i].contribution| == |v.Openings(quorum)[i].salt| == 32 {
      EntryArrays(H, v, quorum, i);
    }
    forall i | i in quorum ensures v.Openings(quorum)[i] == if i == v.id then v.own else v.r2[i].value {
      EntryArrays(H, v, quorum, i);
    }
  }

  lemma EntryArrays(H: Hashes, v: View, quorum: seq<Id>, i: Id)
    requires v.Complete(quorum) && OwnArrays(H, v) && i in quorum && (i != v.id ==> GoodFrom(H, v, i))
    ensures i in v.Keyings(H, quorum) && i in v.Openings(quorum)
    ensures |v.Keyings(H, quorum)[i].ck| == |v.Keyings(H, quorum)[i].commitment| == 32 && |v.Openings(quorum)[i].contribution| == |v.Openings(quorum)[i].salt| == 32
    ensures i != v.id ==> i in v.r2 && v.r2[i].Some?
    ensures v.Openings(quorum)[i] == if i == v.id then v.own else v.r2[i].value
  {
    hide Ascii, Others;
    v.Covered(H, quorum);
    OthersMembers(quorum, v.id);
  }

  /** Two runs of one party. Different published contributions feed different bytes to the hash behind
      the session identifier; and the stream shared with a peer differs as soon as the contribution
      sent to it or received from it does, or anything published. */
  method PlayApart(H: Hashes, ids: seq<Id>, v: View, w: View, peer: Id) returns (a: Outcome<Context>, b: Outcome<Context>, ghost fed: Bytes, ghost fed': Bytes)
    requires Sum512(H) && v.id == w.id && v.id >= 1 && v.id in ids && peer in ids && peer != v.id && |Sort(ids)| >= 2 && Small(Sort(ids))
    requires AllIn(Others(Sort(ids), v.id), v.pair) && AllIn(Others(Sort(ids), v.id), w.pair) && OwnArrays(H, v) && OwnArrays(H, w)
    ensures a.Done? ==> a.value.sid == H.sum512(fed)[..32] && peer in a.value.seeds && peer in v.pair && peer in v.r3 && v.r3[peer].Some?
    ensures b.Done? ==> b.value.sid == H.sum512(fed')[..32] && peer in b.value.seeds && peer in w.pair && peer in w.r3 && w.r3[peer].Some?
    ensures a.Done? && b.Done? && v.own != w.own ==> fed != fed'
    ensures a.Done? && b.Done? && (exists i :: i in ids && i != v.id && i in v.r2 && i in w.r2 && v.r2[i] != w.r2[i]) ==> fed != fed'
    ensures a.Done? && b.Done? && fed != fed' ==> a.value.seeds[peer] != b.value.seeds[peer]
    ensures a.Done? && b.Done? && v.pair[peer].contribution != w.pair[peer].contribution ==> a.value.seeds[peer] != b.value.seeds[peer]
    ensures a.Done? && b.Done? && v.r3[peer].value.contribution != w.r3[peer].value.contribution ==> a.value.seeds[peer] != b.value.seeds[peer]
  {
    hide Sort, Others, GoodFrom, Derived, Ascii, Le64, CommonSeed, OwnArrays;
    a := Play(H, ids, v);
    b := Play(H, ids, w);
    fed, fed' := [], [];
    SortCorrect(ids);
    if a.Done? {
      fed := v.Common(H, Sort(ids));
      DerivedFor(H, v, Sort(ids), fed, a.value.Value(), peer);
    }
    if b.Done? {
      fed' := w.Common(H, Sort(ids));
      DerivedFor(H, w, Sort(ids), fed', b.value.Value(), peer);
    }
    if a.Done? && b.Done? {
      PublishedApart(H, Sort(ids), v, w);
      StreamsApart(H, Sort(ids), v, w, fed, fed', a.value.Value(), b.value.Value(), peer);
    }
  }

  lemma DerivedFor(H: Hashes, v: View, quorum: seq<Id>, fed: Bytes, c: State, peer: Id)
    requires Sum512(H) && Derived(H, v, quorum, fed, c) && peer in quorum && peer != v.id
    ensures c.sid == H.sum512(fed)[..32] && peer in c.seeds && peer in v.pair && peer in v.r3 && v.r3[peer].Some?
  {
    hide Ascii, Le64;
  }

  lemma PublishedApart(H: Hashes, quorum: seq<Id>, v: View, w: View)
    requires v.Complete(quorum) && w.Complete(quorum) && v.id == w.id && Small(quorum) && OwnArrays(H, v) && OwnArrays(H, w)
    requires forall i :: i in quorum && i != v.id ==> GoodFrom(H, v, i) && GoodFrom(H, w, i)
    ensures v.own != w.own || (exists i :: i in quorum && i != v.id && i in v.r2 && i in w.r2 && v.r2[i] != w.r2[i]) ==> v.Common(H, quorum) != w.Common(H, quorum)
  {
    hide CommonSeed, Ascii, Le64, GoodFrom, OwnArrays;
    ViewArrays(H, v, quorum);
    ViewArrays(H, w, quorum);
    OthersMembers(quorum, v.id);
    if v.Common(H, quorum) == w.Common(H, quorum) {
      CommonSeedTells(quorum, v.Keyings(H, quorum), v.Openings(quorum), quorum, w.Keyings(H, quorum), w.Openings(quorum));
    }
  }

  lemma CommonLength(H: Hashes, v: View, quorum: seq<Id>)
    requires v.Complete(quorum) && OwnArrays(H, v) && forall i :: i in quorum && i != v.id ==> GoodFrom(H, v, i)
    ensures |v.Common(H, quorum)| == 35 + 136 * |quorum|
  {
    hide CommonSeed, Ascii, Le64, GoodFrom, OwnArrays;
    ViewArrays(H, v, quorum);
    CommonSeedAt(quorum, v.Keyings(H, quorum), v.Openings(quorum));
  }

  lemma StreamsApart(H: Hashes, quorum: seq<Id>, v: View, w: View, fed: Bytes, fed': Bytes, c: State, c': State, peer: Id)
    requires Sum512(H) && v.Complete(quorum) && w.Complete(quorum) && v.id == w.id && OwnArrays(H, v) && OwnArrays(H, w)
    requires forall i :: i in quorum && i != v.id ==> GoodFrom(H, v, i) && GoodFrom(H, w, i)
    requires fed == v.Common(H, quorum) && fed' == w.Common(H, quorum) && Derived(H, v, quorum, fed, c) && Derived(H, w, quorum, fed', c')
    requires peer in quorum && peer != v.id
    ensures peer in v.pair && peer in w.pair && peer in v.r3 && peer in w.r3 && v.r3[peer].Some? && w.r3[peer].Some? && peer in c.seeds && peer in c'.seeds
    ensures c.seeds[peer] == c'.seeds[peer] ==>
      fed == fed' && v.pair[peer].contribution == w.pair[peer].contribution && v.r3[peer].value.contribution == w.r3[peer].value.contribution
  {
    hide CommonSeed, Ascii, Le64;
    CommonLength(H, v, quorum);
    CommonLength(H, w, quorum);
    var m, n, m', n' := v.pair[peer].contribution, v.r3[peer].value.contribution, w.pair[peer].contribution, w.r3[peer].value.contribution;
    assert GoodFrom(H, v, peer) && GoodFrom(H, w, peer);
    if c.seeds[peer] == c'.seeds[peer] {
      if v.id < peer {
        SplitStream(Le64(v.id) + Le64(peer), Ascii("BRON_CRYPTO_SESSION-SEED"), fed, m, n, fed', m', n');
      } else {
        SplitStream(Le64(peer) + Le64(v.id), Ascii("BRON_CRYPTO_SESSION-SEED"), fed, n, m, fed', n', m');
      }
    }
  }

  lemma SplitStream(head: Bytes, separator: Bytes, f: Bytes, m: Bytes, n: Bytes, f': Bytes, m': Bytes, n': Bytes)
    requires |f| == |f'| && |m| == |m'| && |n| == |n'|
    requires head + (separator + f + (m + n)) == head + (separator + f' + (m' + n'))
    ensures f == f' && m == m' && n == n'
  {
    var x, x' := head + (separator + f + (m + n)), head + (separator + f' + (m' + n'));
    var i := |head| + |separator|;
    var j := i + |f|;
    var k := j + |m|;
    assert f == x[i..j] && f' == x'[i..j];
    assert m == x[j..k] && m' == x'[j..k];
    assert n == x[k..] && n' == x'[k..];
  }

  lemma PairFault(H: Hashes, v: View, others: seq<Id>, i: Id)
    requires i in others && AllSome(others, v.commitments) && i in map[] + Received(others, v.commitments)
    requires BadPair(H, v.ck, (map[] + Received(others, v.commitments))[i], v.r3, i)
    ensures !PassesChecks(H, v, i)
  {
  }

  lemma RestrictedPairs(quorum: seq<Id>, me: Id, common: Bytes, pair: map<Id, Opening>, r3: map<Id, Option<Opening>>)
    ensures PairSeeds(quorum, me, common, map[] + Restrict(Others(quorum, me), pair), r3) == PairSeeds(quorum, me, common, pair, r3)
  {
    OthersMembers(quorum, me);
  }

  lemma OpenedCommitments(H: Hashes, quorum: seq<Id>, me: Id, own: map<Id, Keying>, keyings: map<Id, Keying>, r1: map<Id, Option<Keying>>, r2: map<Id, Option<Opening>>)
    requires AllSome(Others(quorum, me), r1) && AllSome(Others(quorum, me), r2)
    requires keyings == own + Received(Others(quorum, me), r1)
    requires AllOpen(H, Others(quorum, me), Ascii(CommonKey), Commitments(Others(quorum, me), keyings), Received(Others(quorum, me), r2))
    ensures forall i :: i in Others(quorum, me) ==> Opens(H, Ascii(CommonKey), r1[i].value.commitment, r2[i].value)
  {
    forall i | i in Others(quorum, me) ensures Opens(H, Ascii(CommonKey), r1[i].value.commitment, r2[i].value) {
      assert keyings[i] == r1[i].value;
    }
  }

  lemma OwnKey(quorum: seq<Id>, me: Id, own: map<Id, Keying>, r1: map<Id, Option<Keying>>)
    requires me in own
    ensures me in own + Received(Others(quorum, me), r1) && (own + Received(Others(quorum, me), r1))[me] == own[me]
  {
    OthersMembers(quorum, me);
  }

  lemma OpenedPairs(H: Hashes, quorum: seq<Id>, me: Id, ck: Bytes, pairCommitments: map<Id, Bytes>, commitments: map<Id, Option<Bytes>>, r3: map<Id, Option<Opening>>)
    requires AllOk(Others(quorum, me), commitments, CommitmentOk) && AllSome(Others(quorum, me), r3)
    requires pairCommitments == map[] + Received(Others(quorum, me), commitments)
    requires AllOpen(H, Others(quorum, me), ck, pairCommitments, Received(Others(quorum, me), r3))
    ensures forall i :: i in Others(quorum, me) ==> i in commitments && commitments[i].Some? && Opens(H, ck, commitments[i].value, r3[i].value)
  {
    forall i | i in Others(quorum, me) ensures i in commitments && commitments[i].Some? && Opens(H, ck, commitments[i].value, r3[i].value) {
      assert pairCommitments[i] == commitments[i].value;
    }
  }

  lemma SameSeed(quorum: seq<Id>, k: map<Id, Keying>, o: map<Id, Opening>, k': map<Id, Keying>, o': map<Id, Opening>)
    requires AllIn(quorum, k) && AllIn(quorum, o) && AllIn(quorum, k') && AllIn(quorum, o')
    requires forall id :: id in quorum ==> k[id] == k'[id] && o[id] == o'[id]
    ensures CommonSeed(quorum, k, o) == CommonSeed(quorum, k', o')
  {
    RecordDependsOnQuorum(quorum, k, o, k', o');
  }

  /** The broadcasts two parties know agree: on third parties, and on their own values. */
  ghost predicate ConsistentBroadcasts(H: Hashes, quorum: seq<Id>, v: View, w: View) {
    forall i :: i in quorum ==>
      && i in v.Keyings(H, quorum) && i in w.Keyings(H, quorum) && v.Keyings(H, quorum)[i] == w.Keyings(H, quorum)[i]
      && i in v.Openings(quorum) && i in w.Openings(quorum) && v.Openings(quorum)[i] == w.Openings(quorum)[i]
  }

  /** Honest finishers with consistent broadcasts have the same session identifier and transcript,
      and the same stream for each other; so they stay paired along any chain of sub-contexts. */
  lemma SessionAgreement(H: Hashes, quorum: seq<Id>, v: View, w: View)
    requires Sum512(H) && v.Complete(quorum) && w.Complete(quorum) && v.id != w.id
    requires ConsistentBroadcasts(H, quorum, v, w)
    requires v.id in w.pair && w.id in v.pair
    requires w.id in v.r3 && v.r3[w.id] == Some(w.pair[v.id]) && v.id in w.r3 && w.r3[v.id] == Some(v.pair[w.id])
    ensures Paired(v.Result(H, quorum), w.Result(H, quorum))
  {
    SameCommon(H, quorum, v, w);
    hide Ascii, Le64, InitialState, EnoughEntropy, PairSeed;
    var common := v.Common(H, quorum);
    v.Covered(H, quorum);
    w.Covered(H, quorum);
    SeedsSuffice(v.id, quorum, v.Keyings(H, quorum), v.Openings(quorum), v.pair, v.r3);
    SeedsSuffice(w.id, quorum, w.Keyings(H, quorum), w.Openings(quorum), w.pair, w.r3);
    PairSeedSymmetric(v.id, w.id, common, v.pair[w.id].contribution, w.pair[v.id].contribution);
    InitialPaired(H, v.id, w.id, quorum, quorum, common, PairSeeds(quorum, v.id, common, v.pair, v.r3), PairSeeds(quorum, w.id, common, w.pair, w.r3));
  }

  lemma SameCommon(H: Hashes, quorum: seq<Id>, v: View, w: View)
    requires v.Complete(quorum) && w.Complete(quorum) && ConsistentBroadcasts(H, quorum, v, w)
    ensures v.Common(H, quorum) == w.Common(H, quorum)
  {
    v.Covered(H, quorum);
    w.Covered(H, quorum);
    SameSeed(quorum, v.Keyings(H, quorum), v.Openings(quorum), w.Keyings(H, quorum), w.Openings(quorum));
  }
}
