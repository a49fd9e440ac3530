/** Agree-on-random (pkg/mpc/aor): commit, open, and combine by exclusive or. Messages are
    serialised when sent, so later changes to a buffer do not reach the receivers. */
module AgreeOnRandom {
  import opened Options
  import opened Network
  import SessionContext

  type Id = nat
  type Bytes = seq<bv8>

  datatype Opening = Opening(message: Bytes, salt: Bytes)

  /** The commitment function, under the key all parties extract from the transcript. */
  type Commit = (Bytes, Bytes) -> Bytes

  predicate NonZero(b: Bytes) {
    exists i :: 0 <= i < |b| && b[i] != 0
  }

  predicate CommitmentOk(m: Option<Bytes>) {
    m.Some? && NonZero(m.value)
  }

  predicate OpeningOk(size: nat, m: Option<Opening>) {
    m.Some? && |m.value.message| == size && NonZero(m.value.message) && NonZero(m.value.salt)
  }

  function OpeningTest(size: nat): Option<Opening> -> bool {
    m => OpeningOk(size, m)
  }

  // ----- Exclusive or

  function XorByte(a: bv8, b: bv8): bv8 { a ^ b }

  lemma XorByteLaws(a: bv8, b: bv8, c: bv8)
    ensures XorByte(a, b) == XorByte(b, a)
    ensures XorByte(XorByte(a, b), c) == XorByte(a, XorByte(b, c))
    ensures XorByte(a, 0) == a
  {
  }

  function Xor(a: Bytes, b: Bytes): (r: Bytes)
    requires |a| == |b|
    ensures |r| == |a|
  {
    seq(|a|, i requires 0 <= i < |a| => XorByte(a[i], b[i]))
  }

  function Zero(n: nat): (r: Bytes)
    ensures |r| == n
  {
    seq(n, i => 0)
  }

  lemma XorLaws(a: Bytes, b: Bytes, c: Bytes)
    requires |a| == |b| == |c|
    ensures Xor(a, b) == Xor(b, a)
    ensures Xor(Xor(a, b), c) == Xor(a, Xor(b, c))
    ensures Xor(a, Zero(|a|)) == a
  {
    hide XorByte;
    forall i | 0 <= i < |a|
      ensures Xor(a, b)[i] == Xor(b, a)[i] && Xor(Xor(a, b), c)[i] == Xor(a, Xor(b, c))[i] && Xor(a, Zero(|a|))[i] == a[i]
    {
      XorByteLaws(a[i], b[i], c[i]);
    }
  }

  ghost predicate Sized(ids: seq<Id>, f: map<Id, Bytes>, n: nat) {
    forall id :: id in ids ==> id in f && |f[id]| == n
  }

  /** The exclusive or of the contributions of the parties in ids. */
  ghost function XorAll(n: nat, ids: seq<Id>, f: map<Id, Bytes>): (r: Bytes)
    requires Sized(ids, f, n)
    ensures |r| == n
  {
    if |ids| == 0 then Zero(n) else Xor(f[ids[0]], XorAll(n, ids[1..], f))
  }

  lemma {:induction false} XorRemove(n: nat, ids: seq<Id>, f: map<Id, Bytes>, i: nat)
    requires Sized(ids, f, n) && i < |ids|
    ensures Sized(ids[..i] + ids[i + 1..], f, n)
    ensures XorAll(n, ids, f) == Xor(f[ids[i]], XorAll(n, ids[..i] + ids[i + 1..], f))
  {
    hide Xor;
    if i == 0 {
      assert ids[..0] + ids[1..] == ids[1..];
    } else {
      var tail := ids[1..];
      var rest := tail[..i - 1] + tail[i..];
      XorRemove(n, tail, f, i - 1);
      assert ids[..i] + ids[i + 1..] == [ids[0]] + rest;
      assert (ids[..i] + ids[i + 1..])[1..] == rest;
      XorLaws(f[ids[0]], f[ids[i]], XorAll(n, rest, f));
      XorLaws(f[ids[i]], f[ids[0]], XorAll(n, rest, f));
    }
  }

  ghost predicate Distinct(ids: seq<Id>) {
    forall i, j :: 0 <= i < j < |ids| ==> ids[i] != ids[j]
  }

  /** The order of the parties does not matter. */
  lemma {:induction false} XorAnyOrder(n: nat, a: seq<Id>, b: seq<Id>, f: map<Id, Bytes>)
    requires Sized(a, f, n) && Distinct(a) && Distinct(b) && forall x :: x in a <==> x in b
    ensures Sized(b, f, n) && XorAll(n, a, f) == XorAll(n, b, f)
  {
    FirstIn(a);
    FirstIn(b);
    if |a| > 0 {
      var i :| 0 <= i < |b| && b[i] == a[0];
      var rest := b[..i] + b[i + 1..];
      XorRemove(n, b, f, i);
      RemoveMembers(b, i);
      RemoveMembers(a, 0);
      assert a[..0] + a[1..] == a[1..];
      forall x ensures x in a[1..] <==> x in rest {
        assert x in a[1..] <==> x in a && x != a[0];
        assert x in rest <==> x in b && x != b[i];
      }
      XorAnyOrder(n, a[1..], rest, f);
    }
  }

  lemma FirstIn(a: seq<Id>)
    ensures |a| > 0 ==> a[0] in a
  {
  }

  lemma RemoveMembers(b: seq<Id>, i: nat)
    requires Distinct(b) && i < |b|
    ensures Distinct(b[..i] + b[i + 1..])
    ensures forall x :: x in b[..i] + b[i + 1..] <==> x in b && x != b[i]
  {
    var rest := b[..i] + b[i + 1..];
    forall x ensures x in rest <==> x in b && x != b[i] {
      assert b == b[..i] + [b[i]] + b[i + 1..];
      if x in rest {
        var k :| 0 <= k < |rest| && rest[k] == x;
        assert rest[k] == b[if k < i then k else k + 1];
      }
    }
  }

  lemma ConsDistinct(x: Id, s: seq<Id>)
    requires x !in s && Distinct(s)
    ensures Distinct([x] + s)
  {
  }

  lemma {:induction false} OthersDistinct(ids: seq<Id>, me: Id)
    requires Distinct(ids)
    ensures Distinct(Others(ids, me))
  {
    if |ids| > 0 {
      var tail := Others(ids[1..], me);
      OthersDistinct(ids[1..], me);
      OthersMembers(ids[1..], me);
      if ids[0] == me {
        assert Others(ids, me) == tail;
      } else {
        ConsDistinct(ids[0], tail);
      }
    }
  }

  /** Only the contributions of the parties in ids matter. */
  lemma {:induction false} XorCongruent(n: nat, ids: seq<Id>, f: map<Id, Bytes>, g: map<Id, Bytes>)
    requires Sized(ids, f, n) && Sized(ids, g, n) && forall i :: i in ids ==> f[i] == g[i]
    ensures XorAll(n, ids, f) == XorAll(n, ids, g)
  {
    if |ids| > 0 {
      assert ids[0] in ids;
      XorCongruent(n, ids[1..], f, g);
    }
  }

  /** a + z == a only for z == 0. */
  lemma XorIdentity(a: Bytes, z: Bytes)
    requires |a| == |z|
    ensures Xor(a, z) == a <==> z == Zero(|a|)
  {
    XorLaws(a, z, a);
    if Xor(a, z) == a {
      forall i | 0 <= i < |a| ensures z[i] == 0 {
        assert XorByte(a[i], z[i]) == a[i];
        XorByteZero(a[i], z[i]);
      }
    }
  }

  lemma XorByteZero(a: bv8, z: bv8)
    requires XorByte(a, z) == a
    ensures z == 0
  {
  }

  lemma StartXor(n: nat, me: Id, f: map<Id, Bytes>)
    requires me in f && |f[me]| == n
    ensures Sized([me], f, n) && XorAll(n, [me], f) == f[me]
  {
    XorLaws(f[me], f[me], f[me]);
    assert XorAll(n, [me], f) == Xor(f[me], XorAll(n, [], f));
  }

  lemma NextXor(n: nat, ids: seq<Id>, i: Id, f: map<Id, Bytes>)
    requires Sized(ids, f, n) && i in f && |f[i]| == n
    ensures Sized(ids + [i], f, n)
    ensures XorAll(n, ids + [i], f) == Xor(XorAll(n, ids, f), f[i])
  {
    XorRemove(n, ids + [i], f, |ids|);
    assert (ids + [i])[..|ids|] + (ids + [i])[|ids| + 1..] == ids;
    XorLaws(f[i], XorAll(n, ids, f), f[i]);
  }

  lemma CommitmentsSome(ids: seq<Id>, m: map<Id, Option<Bytes>>)
    requires AllOk(ids, m, CommitmentOk)
    ensures AllSome(ids, m)
  {
  }

  lemma OwnCommitment(ids: seq<Id>, me: Id, m: map<Id, Bytes>, messages: map<Id, Option<Bytes>>)
    requires me in m
    ensures me in m + Received(Others(ids, me), messages) && (m + Received(Others(ids, me), messages))[me] == m[me]
  {
    OthersMembers(ids, me);
  }

  // ----- Messages and transcript

  /** The messages that the parties in ids sent. */
  function Messages(ids: seq<Id>, r2: map<Id, Option<Opening>>): map<Id, Bytes> {
    map i | i in ids && i in r2 && r2[i].Some? :: r2[i].value.message
  }

  /** Everyone's contribution as party me knows it. */
  ghost function Contributions(quorum: seq<Id>, me: Id, own: Bytes, r2: map<Id, Option<Opening>>): map<Id, Bytes> {
    map i | i in quorum && (i == me || (i in r2 && r2[i].Some?)) :: if i == me then own else r2[i].value.message
  }

  ghost predicate Opens(commit: Commit, commitments: map<Id, Bytes>, r2: map<Id, Option<Opening>>, i: Id) {
    i in commitments && i in r2 && r2[i].Some? && commitments[i] == commit(r2[i].value.message, r2[i].value.salt)
  }

  /** order lists the other parties, in whatever order this call happens to visit them. */
  ghost predicate Enumerates(order: seq<Id>, quorum: seq<Id>, me: Id) {
    Distinct(order) && forall i :: i in order <==> i in quorum && i != me
  }

  /** A transcript is the list of labelled commitments appended to it. */
  type Tape = seq<(string, Id, Bytes)>

  const CommitmentLabel := "BRON_CRYPTO_AOR_COMMITMENT-"

  ghost function Entries(sorted: seq<Id>, commitments: map<Id, Bytes>): (r: Tape)
    requires AllIn(sorted, commitments)
  {
    seq(|sorted|, i requires 0 <= i < |sorted| => (assert sorted[i] in sorted; (CommitmentLabel, sorted[i], commitments[sorted[i]])))
  }

  method WriteCommitments(tape: Tape, quorum: seq<Id>, commitments: map<Id, Bytes>) returns (r: Tape)
    requires AllIn(SessionContext.Sort(quorum), commitments)
    ensures r == tape + Entries(SessionContext.Sort(quorum), commitments)
  {
    var sorted := SessionContext.Sort(quorum);
    r := tape;
    for i := 0 to |sorted|
      invariant r == tape + Entries(sorted, commitments)[..i]
    {
      assert sorted[i] in sorted;
      r := r + [(CommitmentLabel, sorted[i], commitments[sorted[i]])];
    }
  }

  // ----- The participant

  class Participant {
    const commit: Commit
    const me: Id
    const size: nat
    const quorum: seq<Id>
    var round: nat
    var r: Bytes
    var salt: Bytes
    var commitments: map<Id, Bytes>
    var tape: Tape
    /** The contribution this party committed to. */
    ghost var own: Bytes
    /** What calls of round 3 that were aborted have already folded into r. */
    ghost var folded: Bytes

    ghost predicate Valid()
      reads this
    {
      && me in quorum && Distinct(quorum) && size > 0
      && (round == 2 || round == 3 ==>
        && |own| == |folded| == size && r == Xor(own, folded)
        && me in commitments && commitments[me] == commit(own, salt))
      && (round == 2 ==> folded == Zero(size))
      && (round == 3 ==> AllIn(quorum, commitments))
    }

    constructor (commit: Commit, me: Id, size: nat, quorum: seq<Id>, tape: Tape)
      requires me in quorum && Distinct(quorum) && size > 0
      ensures Valid() && round == 1
      ensures this.commit == commit && this.me == me && this.size == size && this.quorum == quorum && this.tape == tape
    {
      this.commit, this.me, this.size, this.quorum, this.tape, this.round := commit, me, size, quorum, tape, 1;
      r, salt, commitments, own, folded := [], [], map[], [], [];
    }

    /** Commits to a random contribution. */
    method Round1(sample: Opening) returns (out: Outcome<Bytes>)
      requires Valid() && |sample.message| == size
      modifies this
      ensures Valid() && !out.Blame? && tape == old(tape)
      ensures out.Done? <==> old(round) == 1
      ensures out.Failed? ==> unchanged(this)
      ensures out.Done? ==> round == 2 && r == own == sample.message && salt == sample.salt && out.value == commit(r, salt)
      ensures out.Done? ==> commitments == map[][me := out.value]
    {
      if round != 1 {
        return Failed;
      }
      r, salt := sample.message, sample.salt;
      own, folded := r, Zero(size);
      XorLaws(r, r, r);
      commitments := map[][me := commit(r, salt)];
      round := 2;
      out := Done(commitments[me]);
    }

    /** Records the commitments, writes them to the transcript and opens one's own. */
    method Round2(r1: map<Id, Option<Bytes>>) returns (out: Outcome<Opening>)
      requires Valid()
      modifies this`round, this`commitments, this`tape
      ensures Valid()
      ensures out.Blame? ==> out.culprit in Others(quorum, me) && out.culprit in r1 && !CommitmentOk(r1[out.culprit])
      ensures out.Failed? ==> old(round) != 2 || exists i :: i in Others(quorum, me) && i !in r1
      ensures !out.Done? ==> round == old(round) && commitments == old(commitments) && tape == old(tape)
      ensures out.Done? ==>
        && old(round) == 2 && round == 3 && out.value == Opening(own, salt)
        && AllOk(Others(quorum, me), r1, CommitmentOk)
        && commitments == old(commitments) + Received(Others(quorum, me), r1)
        && AllIn(SessionContext.Sort(quorum), commitments)
        && tape == old(tape) + Entries(SessionContext.Sort(quorum), commitments)
    {
      hide CommitmentOk, Others, Received, Distinct, Entries;
      if round != 2 {
        return Failed;
      }
      var others := Others(quorum, me);
      var ok := ValidateIncoming(others, r1, CommitmentOk);
      if !ok.Done? {
        return if ok.Blame? then Blame(ok.culprit) else Failed;
      }
      CommitmentsSome(others, r1);
      JoinCovers(quorum, me, commitments, r1);
      OwnCommitment(quorum, me, commitments, r1);
      SessionContext.SortCorrect(quorum);
      XorIdentity(own, folded);
      commitments := commitments + Received(others, r1);
      tape := WriteCommitments(tape, quorum, commitments);
      round := 3;
      out := Done(Opening(r, salt));
    }

    /** Verifies the openings one by one, folding each into r in place. A bad opening stops the call
        after k parties, with what was folded left in r and the round not advanced. */
    method Round3(order: seq<Id>, r2: map<Id, Option<Opening>>) returns (out: Outcome<Bytes>, ghost k: nat)
      requires Valid() && Enumerates(order, quorum, me)
      modifies this`round, this`r, this`folded
      ensures Valid()
      ensures out.Failed? ==> k == 0 && (old(round) != 3 || exists i :: i in order && i !in r2)
      ensures old(round) != 3 ==> unchanged(this)
      ensures out.Blame? ==> round == 3 && out.culprit in order && out.culprit in r2
      ensures out.Blame? ==> if OpeningOk(size, r2[out.culprit]) then k < |order| && order[k] == out.culprit && !Opens(commit, commitments, r2, out.culprit) else k == 0
      // what is left in r, whatever the outcome
      ensures k <= |order| && (old(round) == 3 ==>
        && Sized(order[..k], Messages(order, r2), size)
        && (forall l :: 0 <= l < k ==> Opens(commit, commitments, r2, order[l]))
        && r == Xor(old(r), XorAll(size, order[..k], Messages(order, r2)))
        && folded == if out.Done? then old(folded) else Xor(old(folded), XorAll(size, order[..k], Messages(order, r2))))
      // a call that finishes outputs everyone's committed contribution, shifted by what aborted calls left
      ensures out.Done? ==>
        && old(round) == 3 && round == 4 && k == |order|
        && (forall i :: i in order ==> OpeningOk(size, r2[i]) && Opens(commit, commitments, r2, i))
        && Sized(quorum, Contributions(quorum, me, own, r2), size)
        && out.value == Xor(XorAll(size, quorum, Contributions(quorum, me, own, r2)), folded)
        && (out.value == XorAll(size, quorum, Contributions(quorum, me, own, r2)) <==> folded == Zero(size))
    {
      hide Distinct, OpeningOk, NonZero, XorAll, Xor, Contributions, Sized, Messages;
      k := 0;
      NothingFolded(size, order, r2);
      if round != 3 {
        return Failed, 0;
      }
      XorLaws(r, r, r);
      XorLaws(folded, r, r);
      var ok := ValidateIncoming(order, r2, OpeningTest(size));
      if !ok.Done? {
        return if ok.Blame? then Blame(ok.culprit) else Failed, 0;
      }
      MessagesSized(size, order, r2);
      var combined, stopped := Combine(commit, size, order, r, commitments, r2);
      k := stopped;
      Prefix(size, order, k, Messages(order, r2));
      ghost var x := XorAll(size, order[..k], Messages(order, r2));
      XorLaws(own, folded, x);
      r := combined;
      if stopped < |order| {
        folded := Xor(folded, x);
        return Blame(order[stopped]), k;
      }
      AllFolded(size, quorum, me, own, order, r2);
      XorLaws(folded, x, own);
      XorLaws(own, x, folded);
      XorIdentity(XorAll(size, quorum, Contributions(quorum, me, own, r2)), folded);
      round := 4;
      out := Done(r);
    }
  }

  lemma NothingFolded(n: nat, order: seq<Id>, r2: map<Id, Option<Opening>>)
    ensures order[..0] == [] && Sized(order[..0], Messages(order, r2), n)
    ensures XorAll(n, order[..0], Messages(order, r2)) == Zero(n)
  {
  }

  lemma MessagesSized(size: nat, order: seq<Id>, r2: map<Id, Option<Opening>>)
    requires AllOk(order, r2, OpeningTest(size))
    ensures Sized(order, Messages(order, r2), size)
    ensures forall i :: i in order ==> i in r2 && OpeningOk(size, r2[i]) && Messages(order, r2)[i] == r2[i].value.message
  {
  }

  lemma Prefix(n: nat, order: seq<Id>, k: nat, f: map<Id, Bytes>)
    requires k <= |order| && Sized(order, f, n)
    ensures Sized(order[..k], f, n)
  {
  }

  /** Folding in every other party gives the exclusive or over the quorum. */
  lemma AllFolded(n: nat, quorum: seq<Id>, me: Id, own: Bytes, order: seq<Id>, r2: map<Id, Option<Opening>>)
    requires me in quorum && Distinct(quorum) && Enumerates(order, quorum, me) && |own| == n
    requires Sized(order, Messages(order, r2), n)
    ensures order[..|order|] == order
    ensures Sized(quorum, Contributions(quorum, me, own, r2), n)
    ensures XorAll(n, quorum, Contributions(quorum, me, own, r2)) == Xor(own, XorAll(n, order, Messages(order, r2)))
  {
    var f := Contributions(quorum, me, own, r2);
    ContributionsOfOthers(n, quorum, me, own, order, r2);
    hide Xor, Contributions, Messages, Distinct;
    ConsDistinct(me, order);
    XorAnyOrder(n, [me] + order, quorum, f);
    XorCongruent(n, order, f, Messages(order, r2));
    assert ([me] + order)[1..] == order;
  }

  lemma ContributionsOfOthers(n: nat, quorum: seq<Id>, me: Id, own: Bytes, order: seq<Id>, r2: map<Id, Option<Opening>>)
    requires me in quorum && Enumerates(order, quorum, me) && |own| == n && Sized(order, Messages(order, r2), n)
    ensures var f := Contributions(quorum, me, own, r2);
      && Sized(order, f, n) && Sized([me] + order, f, n) && f[me] == own
      && (forall i :: i in order ==> f[i] == Messages(order, r2)[i])
    ensures forall x :: x in [me] + order <==> x in quorum
  {
  }

  /** Folds the parties' messages into start one by one, stopping at the first opening that fails. */
  method Combine(commit: Commit, size: nat, order: seq<Id>, start: Bytes, commitments: map<Id, Bytes>, r2: map<Id, Option<Opening>>)
      returns (r: Bytes, k: nat)
    requires |start| == size && Sized(order, Messages(order, r2), size)
    requires forall i :: i in order ==> i in commitments && i in r2 && OpeningOk(size, r2[i]) && Messages(order, r2)[i] == r2[i].value.message
    ensures k <= |order| && (k < |order| ==> !Opens(commit, commitments, r2, order[k]))
    ensures forall l :: 0 <= l < k ==> Opens(commit, commitments, r2, order[l])
    ensures Sized(order[..k], Messages(order, r2), size) && |r| == size
    ensures r == Xor(start, XorAll(size, order[..k], Messages(order, r2)))
  {
    hide XorAll, Xor, Messages;
    ghost var f := Messages(order, r2);
    r, k := start, 0;
    StartFold(size, order, f, start);
    while k < |order|
      invariant k <= |order| && |r| == size
      invariant forall l :: 0 <= l < k ==> Opens(commit, commitments, r2, order[l])
      invariant Sized(order[..k], f, size)
      invariant r == Xor(start, XorAll(size, order[..k], f))
    {
      var i := order[k];
      var m := r2[i].value;
      if commitments[i] != commit(m.message, m.salt) {
        return;
      }
      NextXor(size, order[..k], i, f);
      assert order[..k] + [i] == order[..k + 1];
      XorLaws(start, XorAll(size, order[..k], f), f[i]);
      r := Xor(r, m.message);
      k := k + 1;
    }
  }

  lemma StartFold(n: nat, order: seq<Id>, f: map<Id, Bytes>, start: Bytes)
    requires |start| == n
    ensures Sized(order[..0], f, n) && start == Xor(start, XorAll(n, order[..0], f))
  {
    XorLaws(start, start, start);
  }

  // ----- Runs

  /** One party's view of a run: what it sampled, what it received, and the order in which it visits
      the others in round 3. */
  datatype View = View(me: Id, quorum: seq<Id>, sample: Opening, r1: map<Id, Option<Bytes>>, order: seq<Id>, r2: map<Id, Option<Opening>>) {
    ghost predicate Proper(size: nat) {
      && size > 0 && me in quorum && Distinct(quorum) && |sample.message| == size && Enumerates(order, quorum, me)
    }

    ghost function Commitments(commit: Commit): map<Id, Bytes> {
      map[][me := commit(sample.message, sample.salt)] + Received(Others(quorum, me), r1)
    }

    /** The exclusive or of all contributions. */
    ghost predicate Complete(size: nat) {
      Sized(quorum, Contributions(quorum, me, sample.message, r2), size)
    }

    ghost function Output(size: nat): Bytes
      requires Complete(size)
    {
      XorAll(size, quorum, Contributions(quorum, me, sample.message, r2))
    }
  }

  /** Everything the party needs from one peer: a commitment and an opening of it, the right size, and
      nothing all zero. */
  ghost predicate GoodFrom(commit: Commit, size: nat, v: View, i: Id) {
    && i in v.r1 && v.r1[i].Some? && v.r1[i].value != seq(|v.r1[i].value|, k => 0)
    && i in v.r2 && v.r2[i].Some? && |v.r2[i].value.message| == size && v.r2[i].value.message != seq(size, k => 0)
    && v.r2[i].value.salt != seq(|v.r2[i].value.salt|, k => 0)
    && v.r1[i].value == commit(v.r2[i].value.message, v.r2[i].value.salt)
  }

  lemma NonZeroMeans(b: Bytes)
    ensures NonZero(b) <==> b != seq(|b|, k => 0)
  {
    if !NonZero(b) {
      assert b == seq(|b|, k => 0);
    }
  }

  lemma GoodMeans(commit: Commit, size: nat, v: View, i: Id)
    requires i in Others(v.quorum, v.me)
    ensures GoodFrom(commit, size, v, i) <==>
      i in v.r1 && CommitmentOk(v.r1[i]) && i in v.r2 && OpeningOk(size, v.r2[i]) && Opens(commit, v.Commitments(commit), v.r2, i)
  {
    hide NonZero;
    OthersMembers(v.quorum, v.me);
    if i in v.r1 && v.r1[i].Some? {
      NonZeroMeans(v.r1[i].value);
    }
    if i in v.r2 && v.r2[i].Some? {
      NonZeroMeans(v.r2[i].value.message);
      NonZeroMeans(v.r2[i].value.salt);
    }
  }

  /** The commitments of all parties, in ascending order, under one label. */
  ghost predicate Recorded(commit: Commit, v: View, sorted: seq<Id>, before: Tape, after: Tape) {
    && |after| == |before| + |sorted| && after[..|before|] == before
    && forall k :: 0 <= k < |sorted| ==>
         after[|before| + k].0 == "BRON_CRYPTO_AOR_COMMITMENT-" && after[|before| + k].1 == sorted[k]
         && if sorted[k] == v.me then after[|before| + k].2 == commit(v.sample.message, v.sample.salt)
            else sorted[k] in v.r1 && Some(after[|before| + k].2) == v.r1[sorted[k]]
  }

  lemma EntriesRecorded(commit: Commit, v: View, tape: Tape)
    requires v.me in v.quorum && AllSome(Others(v.quorum, v.me), v.r1) && AllIn(SessionContext.Sort(v.quorum), v.Commitments(commit))
    ensures Recorded(commit, v, SessionContext.Sort(v.quorum), tape, tape + Entries(SessionContext.Sort(v.quorum), v.Commitments(commit)))
  {
    SessionContext.SortCorrect(v.quorum);
    OthersMembers(v.quorum, v.me);
    var sorted := SessionContext.Sort(v.quorum);
    forall k | 0 <= k < |sorted| ensures sorted[k] in v.quorum {
      assert sorted[k] in sorted;
    }
  }

  /** Plays one party's part of a run: a party that finishes its first round 3 outputs the exclusive or
      of all contributions, each of which opened the commitment its sender made in round 1, and its
      transcript holds exactly those commitments. */
  method Play(commit: Commit, size: nat, tape: Tape, v: View) returns (out: Outcome<Bytes>, tape': Tape)
    requires v.Proper(size)
    ensures out.Done? ==> v.Complete(size) && out.value == v.Output(size)
    ensures out.Done? ==> forall i :: i in v.order ==>
      i in v.r1 && v.r1[i].Some? && i in v.r2 && v.r2[i].Some? && v.r1[i].value == commit(v.r2[i].value.message, v.r2[i].value.salt)
    ensures out.Done? ==> AllIn(SessionContext.Sort(v.quorum), v.Commitments(commit))
    ensures out.Done? ==> tape' == tape + Entries(SessionContext.Sort(v.quorum), v.Commitments(commit))
    ensures out.Blame? ==> out.culprit in v.order
    ensures out.Done? <==> forall i :: i in v.quorum && i != v.me ==> GoodFrom(commit, size, v, i)
    ensures out.Done? ==> Recorded(commit, v, SessionContext.Sort(v.quorum), tape, tape')
  {
    hide Distinct, Entries, XorAll, Xor, Contributions, Sized, Messages, CommitmentOk, OpeningOk, Received, GoodFrom, Recorded;
    OthersMembers(v.quorum, v.me);
    forall i | i in Others(v.quorum, v.me)
      ensures GoodFrom(commit, size, v, i) <==>
        i in v.r1 && CommitmentOk(v.r1[i]) && i in v.r2 && OpeningOk(size, v.r2[i]) && Opens(commit, v.Commitments(commit), v.r2, i)
    {
      GoodMeans(commit, size, v, i);
    }
    var p := new Participant(commit, v.me, size, v.quorum, tape);
    var a := p.Round1(v.sample);
    var b := p.Round2(v.r1);
    tape' := p.tape;
    if !b.Done? {
      out := if b.Blame? then Blame(b.culprit) else Failed;
      return;
    }
    CommitmentsSome(Others(v.quorum, v.me), v.r1);
    ghost var k;
    out, k := p.Round3(v.order, v.r2);
    if out.Done? {
      XorIdentity(p.own, Zero(size));
      OpenedEarlier(commit, v);
      EntriesRecorded(commit, v, tape);
    }
  }

  lemma OpenedEarlier(commit: Commit, v: View)
    requires AllSome(Others(v.quorum, v.me), v.r1) && forall i :: i in v.order ==> i in v.quorum && i != v.me
    requires forall i :: i in v.order ==> Opens(commit, v.Commitments(commit), v.r2, i)
    ensures forall i :: i in v.order ==>
      i in v.r1 && v.r1[i].Some? && i in v.r2 && v.r2[i].Some? && v.r1[i].value == commit(v.r2[i].value.message, v.r2[i].value.salt)
  {
    OthersMembers(v.quorum, v.me);
  }

  /** Two parties that received the same commitments and openings from third parties, and from each
      other what the other made. */
  ghost predicate Consistent(commit: Commit, v: View, w: View) {
    && v.me != w.me && (forall i :: i in v.quorum <==> i in w.quorum)
    && v.me in w.r1 && w.r1[v.me] == Some(commit(v.sample.message, v.sample.salt)) && v.me in w.r2 && w.r2[v.me] == Some(v.sample)
    && w.me in v.r1 && v.r1[w.me] == Some(commit(w.sample.message, w.sample.salt)) && w.me in v.r2 && v.r2[w.me] == Some(w.sample)
    && forall i :: i in v.quorum && i != v.me && i != w.me ==>
      i in v.r1 && i in w.r1 && v.r1[i] == w.r1[i] && i in v.r2 && i in w.r2 && v.r2[i] == w.r2[i]
  }

  lemma SameContributions(commit: Commit, v: View, w: View, i: Id)
    requires Consistent(commit, v, w) && i in v.quorum
    requires i in Contributions(v.quorum, v.me, v.sample.message, v.r2) && i in Contributions(w.quorum, w.me, w.sample.message, w.r2)
    ensures Contributions(v.quorum, v.me, v.sample.message, v.r2)[i] == Contributions(w.quorum, w.me, w.sample.message, w.r2)[i]
  {
  }

  lemma SameCommitments(commit: Commit, v: View, w: View, i: Id)
    requires v.me in v.quorum && w.me in w.quorum && Consistent(commit, v, w) && i in v.quorum
    requires i in v.Commitments(commit) && i in w.Commitments(commit)
    ensures v.Commitments(commit)[i] == w.Commitments(commit)[i]
  {
    OthersMembers(v.quorum, v.me);
    OthersMembers(w.quorum, w.me);
  }

  /** Equal contributions give equal outputs, whatever order each party processes them in. */
  lemma SameOutput(size: nat, quorum: seq<Id>, f: map<Id, Bytes>, quorum': seq<Id>, g: map<Id, Bytes>)
    requires Distinct(quorum) && Distinct(quorum') && forall x :: x in quorum <==> x in quorum'
    requires Sized(quorum, f, size) && Sized(quorum', g, size) && forall i :: i in quorum' ==> f[i] == g[i]
    ensures XorAll(size, quorum, f) == XorAll(size, quorum', g)
  {
    hide XorAll, Distinct;
    XorAnyOrder(size, quorum, quorum', f);
    XorCongruent(size, quorum', f, g);
  }

  lemma SameViews(commit: Commit, size: nat, v: View, w: View)
    requires v.Proper(size) && w.Proper(size) && Consistent(commit, v, w) && v.Complete(size) && w.Complete(size)
    ensures v.Output(size) == w.Output(size)
  {
    var f, g := Contributions(v.quorum, v.me, v.sample.message, v.r2), Contributions(w.quorum, w.me, w.sample.message, w.r2);
    forall i | i in w.quorum ensures i in f && i in g && f[i] == g[i] {
      SameContributions(commit, v, w, i);
    }
    hide XorAll, Contributions, Distinct;
    SameOutput(size, v.quorum, f, w.quorum, g);
  }

  lemma SameTapes(commit: Commit, v: View, w: View)
    requires v.me in v.quorum && w.me in w.quorum && Consistent(commit, v, w)
    requires AllIn(SessionContext.Sort(v.quorum), v.Commitments(commit)) && AllIn(SessionContext.Sort(w.quorum), w.Commitments(commit))
    ensures SessionContext.Sort(v.quorum) == SessionContext.Sort(w.quorum)
    ensures Entries(SessionContext.Sort(v.quorum), v.Commitments(commit)) == Entries(SessionContext.Sort(w.quorum), w.Commitments(commit))
  {
    SessionContext.SortEqual(v.quorum, w.quorum);
    SessionContext.SortCorrect(v.quorum);
    var sorted := SessionContext.Sort(v.quorum);
    forall k | 0 <= k < |sorted| ensures v.Commitments(commit)[sorted[k]] == w.Commitments(commit)[sorted[k]] {
      assert sorted[k] in sorted;
      SameCommitments(commit, v, w, sorted[k]);
    }
  }

  /** Two honest parties with consistent broadcasts that both finish output the same bytes and extend
      the transcript alike, whatever order each visits the others in. */
  method PlayTwo(commit: Commit, size: nat, tape: Tape, v: View, w: View) returns (a: Outcome<Bytes>, ta: Tape, b: Outcome<Bytes>, tb: Tape)
    requires v.Proper(size) && w.Proper(size) && Consistent(commit, v, w)
    ensures a.Done? && b.Done? ==> a.value == b.value && ta == tb
    ensures a.Done? ==> v.Complete(size) && a.value == v.Output(size)
  {
    hide Consistent, XorAll, Contributions, Distinct, Entries, Sized;
    a, ta := Play(commit, size, tape, v);
    b, tb := Play(commit, size, tape, w);
    if a.Done? && b.Done? {
      SameViews(commit, size, v, w);
      SameTapes(commit, v, w);
    }
  }

  // ----- A retried round 3

  /** Party me of the quorum 1, 2, 3 after its first two rounds. */
  method ReachRound3(commit: Commit, size: nat, me: Id, sample: Opening, r1: map<Id, Option<Bytes>>) returns (p: Participant)
    requires size > 0 && (me == 1 || me == 2) && |sample.message| == size
    requires forall i :: i in [1, 2, 3] ==> i in r1 && CommitmentOk(r1[i])
    ensures fresh(p) && p.Valid() && p.round == 3 && p.commit == commit && p.me == me && p.size == size && p.quorum == [1, 2, 3]
    ensures p.own == sample.message && p.folded == Zero(size)
    ensures forall i :: i in [1, 2, 3] && i != me ==> i in p.commitments && Some(p.commitments[i]) == r1[i]
  {
    hide NonZero, CommitmentOk, Entries, Xor, Zero, Received;
    p := new Participant(commit, me, size, [1, 2, 3], []);
    var a := p.Round1(sample);
    OthersMembers([1, 2, 3], me);
    var b := p.Round2(r1);
    ReceivedEntries([1, 2, 3], me, map[][me := a.value], r1);
    XorIdentity(p.own, p.folded);
  }

  lemma ReceivedEntries(ids: seq<Id>, me: Id, m: map<Id, Bytes>, r1: map<Id, Option<Bytes>>)
    requires forall i :: i in ids ==> i in r1 && CommitmentOk(r1[i])
    ensures forall i :: i in ids && i != me ==>
      i in m + Received(Others(ids, me), r1) && Some((m + Received(Others(ids, me), r1))[i]) == r1[i]
  {
    OthersMembers(ids, me);
  }

  /** The sum over the three parties, and what one more copy of the second contribution does to it. */
  lemma ThreeSums(n: nat, f: map<Id, Bytes>, g: map<Id, Bytes>)
    requires Sized([1, 2, 3], f, n) && 2 in g && g[2] == f[2]
    ensures 1 in f && 2 in f && 3 in f && |f[1]| == |f[2]| == |f[3]| == n
    ensures XorAll(n, [1, 2, 3], f) == Xor(Xor(f[1], f[2]), f[3])
    ensures Sized([2], g, n) && XorAll(n, [2], g) == f[2]
    ensures Xor(Xor(Xor(f[1], f[2]), f[3]), Xor(Zero(n), f[2])) == Xor(f[1], f[3])
  {
    assert 1 in [1, 2, 3] && 2 in [1, 2, 3] && 3 in [1, 2, 3];
    hide Xor, Zero;
    var x, y, z := f[1], f[2], f[3];
    StartXor(n, 2, g);
    StartXor(n, 1, f);
    NextXor(n, [1], 2, f);
    NextXor(n, [1, 2], 3, f);
    assert [1] + [2] == [1, 2] && [1, 2] + [3] == [1, 2, 3];
    XorLaws(Zero(n), y, y);
    XorLaws(y, y, y);
    XorLaws(x, y, z);
    XorLaws(y, z, y);
    XorLaws(z, y, y);
    XorLaws(z, z, z);
    SelfInverse(y);
    XorLaws(x, Xor(y, z), y);
  }

  lemma SelfInverse(y: Bytes)
    ensures Xor(y, y) == Zero(|y|)
  {
    forall i | 0 <= i < |y| ensures XorByte(y[i], y[i]) == 0 {
      SelfInverseByte(y[i]);
    }
  }

  lemma SelfInverseByte(a: bv8)
    ensures XorByte(a, a) == 0
  {
  }

  /** A retried round 3: party 1 folds in party 2's contribution, meets a bad opening from party 3, and
      is called again with a good one. It finishes without party 2's contribution, which it folded
      in twice, while party 2 finishes with all three. */
  method RetriedRound3(commit: Commit, size: nat, a: Opening, b: Opening, c: Opening, bad: Opening) returns (retried: Bytes, straight: Bytes)
    requires size > 0 && OpeningOk(size, Some(a)) && OpeningOk(size, Some(b)) && OpeningOk(size, Some(c)) && OpeningOk(size, Some(bad))
    requires NonZero(commit(a.message, a.salt)) && NonZero(commit(b.message, b.salt)) && NonZero(commit(c.message, c.salt))
    requires commit(bad.message, bad.salt) != commit(c.message, c.salt)
    ensures straight == Xor(Xor(a.message, b.message), c.message)
    ensures retried == Xor(a.message, c.message) != straight
  {
    hide Xor, XorAll, NonZero, Zero;
    var all: map<Id, Option<Bytes>> :=
      map[1 := Some(commit(a.message, a.salt)), 2 := Some(commit(b.message, b.salt)), 3 := Some(commit(c.message, c.salt))];
    var first: map<Id, Option<Opening>> := map[2 := Some(b), 3 := Some(bad)];
    var again: map<Id, Option<Opening>> := map[2 := Some(b), 3 := Some(c)];
    var p := ReachRound3(commit, size, 1, a, all);
    var x, k := p.Round3([2, 3], first);
    assert k == 1 && [2, 3][..1] == [2];
    var y, l := p.Round3([2, 3], again);
    retried := y.value;
    ThreeSums(size, Contributions([1, 2, 3], 1, a.message, again), Messages([2, 3], first));
    straight := StraightRound3(commit, size, a, b, c, all);
    Differs(a.message, b.message, c.message);
  }

  method StraightRound3(commit: Commit, size: nat, a: Opening, b: Opening, c: Opening, all: map<Id, Option<Bytes>>) returns (straight: Bytes)
    requires size > 0 && OpeningOk(size, Some(a)) && OpeningOk(size, Some(b)) && OpeningOk(size, Some(c))
    requires forall i :: i in [1, 2, 3] ==> i in all && CommitmentOk(all[i])
    requires 1 in all && 3 in all && all[1] == Some(commit(a.message, a.salt)) && all[3] == Some(commit(c.message, c.salt))
    ensures straight == Xor(Xor(a.message, b.message), c.message)
  {
    hide Xor, XorAll, NonZero, Zero;
    var q := ReachRound3(commit, size, 2, b, all);
    var r2: map<Id, Option<Opening>> := map[1 := Some(a), 3 := Some(c)];
    var z, m := q.Round3([1, 3], r2);
    straight := z.value;
    ghost var f := Contributions([1, 2, 3], 2, b.message, r2);
    ThreeSums(size, f, f);
  }

  /** A non-zero contribution makes a difference. */
  lemma Differs(x: Bytes, y: Bytes, z: Bytes)
    requires |x| == |y| == |z| && NonZero(y)
    ensures Xor(Xor(x, y), z) != Xor(x, z)
  {
    XorLaws(x, y, z);
    XorLaws(x, z, y);
    XorLaws(y, z, y);
    XorIdentity(Xor(x, z), y);
  }

  /** The example in numbers: contributions 1, 2 and 4, the commitment to m with salt s being m s. */
  method RetryExample() returns (retried: Bytes, straight: Bytes)
    ensures retried != straight
  {
    var a, b, c, bad := Opening([1], [1]), Opening([2], [1]), Opening([4], [1]), Opening([8], [1]);
    LastNonZero(a.message);
    LastNonZero(b.message);
    LastNonZero(c.message);
    LastNonZero(bad.message);
    LastNonZero([1, 1]);
    LastNonZero([2, 1]);
    LastNonZero([4, 1]);
    var commit: Commit := (m: Bytes, s: Bytes) => m + s;
    assert commit(a.message, a.salt) == [1, 1] && commit(b.message, b.salt) == [2, 1] && commit(c.message, c.salt) == [4, 1];
    assert commit(bad.message, bad.salt)[0] != commit(c.message, c.salt)[0];
    hide NonZero, Xor;
    retried, straight := RetriedRound3(commit, 1, a, b, c, bad);
  }

  lemma LastNonZero(b: Bytes)
    requires |b| > 0 && b[|b| - 1] != 0
    ensures NonZero(b)
  {
  }
}
