/** Three-round echo broadcast (pkg/network/echo). A message that decodes to a nil pointer is None;
    payloads are byte strings, for which nil and empty are the same. */
module EchoBroadcast {
  import opened Options
  import opened ConstantTime

  type Id = nat
  type Echo = map<Id, Bytes>

  /** A serialisation that decodes what it encodes. */
  datatype Codec<!B(!new)> = Codec(encode: B -> Bytes, decode: Bytes -> Option<B>) {
    ghost predicate Lawful() {
      forall b :: RoundTrips(b)
    }

    ghost predicate RoundTrips(b: B) {
      decode(encode(b)) == Some(b)
    }
  }

  /** Looking up a missing key gives the empty payload. */
  function At(m: Echo, id: Id): Bytes {
    if id in m then m[id] else []
  }

  predicate Arrived<T>(messages: map<Id, Option<T>>, id: Id) {
    id in messages && messages[id].Some?
  }

  // ----- What each round computes

  /** Every other party's payload arrived. */
  ghost predicate Complete(me: Id, quorum: set<Id>, r1: map<Id, Option<Bytes>>) {
    forall id :: id in quorum && id != me ==> Arrived(r1, id)
  }

  /** The payloads received from the other parties, which are also what is echoed. */
  function ReceivedFrom(me: Id, quorum: set<Id>, r1: map<Id, Option<Bytes>>): Echo {
    map id | id in quorum && id != me && Arrived(r1, id) :: r1[id].value
  }

  /** The echo that party e sent is there and repeats the payload of party id. */
  predicate Repeats(messages: Echo, r2: map<Id, Option<Echo>>, id: Id, e: Id) {
    Arrived(r2, e) && At(r2[e].value, id) == At(messages, id)
  }

  /** Every payload is repeated by every third party. */
  ghost predicate Consistent(me: Id, quorum: set<Id>, messages: Echo, r2: map<Id, Option<Echo>>) {
    forall id, e :: id in quorum && id != me && e in quorum && e != me && e != id ==> Repeats(messages, r2, id, e)
  }

  ghost predicate Decodable<B(!new)>(codec: Codec<B>, me: Id, quorum: set<Id>, messages: Echo) {
    forall id :: id in quorum && id != me ==> codec.decode(At(messages, id)).Some?
  }

  ghost function Decoded<B(!new)>(codec: Codec<B>, me: Id, quorum: set<Id>, messages: Echo): map<Id, B> {
    map id | id in quorum && id != me && codec.decode(At(messages, id)).Some? :: codec.decode(At(messages, id)).value
  }

  function Members(ids: seq<Id>): set<Id> {
    set i | 0 <= i < |ids| :: ids[i]
  }

  // ----- The participant

  class Participant<B(!new)> {
    const codec: Codec<B>
    const me: Id
    const quorum: seq<Id>
    var messages: Echo

    ghost function Quorum(): set<Id> {
      Members(quorum)
    }

    constructor (codec: Codec<B>, me: Id, quorum: seq<Id>)
      requires me in quorum
      ensures this.codec == codec && this.me == me && this.quorum == quorum && messages == map[]
    {
      this.codec, this.me, this.quorum, this.messages := codec, me, quorum, map[];
    }

    /** Sends the serialised message to every other party. */
    method Round1(message: B) returns (sent: map<Id, Bytes>)
      modifies this
      ensures messages == old(messages)[me := codec.encode(message)]
      ensures forall id :: id in sent <==> id in Quorum() && id != me
      ensures forall id :: id in sent ==> sent[id] == codec.encode(message)
    {
      var payload := codec.encode(message);
      sent := map[];
      for i := 0 to |quorum|
        invariant forall id :: id in sent <==> id in quorum[..i] && id != me
        invariant forall id :: id in sent ==> sent[id] == payload
      {
        if quorum[i] != me {
          sent := sent[quorum[i] := payload];
        }
      }
      messages := messages[me := payload];
    }

    /** Records the payloads one by one and echoes them to every other party; a missing one stops the
        round after k parties. */
    method Round2(r1: map<Id, Option<Bytes>>) returns (sent: Option<Echo>, ghost k: nat)
      modifies this
      ensures sent.Some? <==> Complete(me, Quorum(), r1)
      ensures sent.Some? ==> k == |quorum| && sent.value == ReceivedFrom(me, Quorum(), r1)
      ensures sent.None? ==> k < |quorum| && quorum[k] != me && !Arrived(r1, quorum[k])
      ensures k <= |quorum| && messages == old(messages) + ReceivedFrom(me, Members(quorum[..k]), r1)
    {
      hide ReceivedFrom;
      var received: Echo := map[];
      NothingReceived(me, quorum, r1);
      for i := 0 to |quorum|
        invariant received == ReceivedFrom(me, Members(quorum[..i]), r1)
        invariant forall l :: 0 <= l < i && quorum[l] != me ==> Arrived(r1, quorum[l])
        invariant messages == old(messages) + received
      {
        var id := quorum[i];
        ReceivedNext(me, quorum, i, r1);
        if id != me {
          if !Arrived(r1, id) {
            assert id in Quorum();
            return None, i;
          }
          received := received[id := r1[id].value];
          messages := messages[id := r1[id].value];
        }
      }
      assert quorum[..|quorum|] == quorum;
      sent, k := Some(received), |quorum|;
    }

    /** Accepts when all echoes agree, and returns the decoded messages. */
    method Round3(r2: map<Id, Option<Echo>>) returns (r: Option<map<Id, B>>)
      ensures r.Some? <==> Consistent(me, Quorum(), messages, r2) && Decodable(codec, me, Quorum(), messages)
      ensures r.Some? ==> r.value == Decoded(codec, me, Quorum(), messages)
      // the same, written out; a missing payload counts as the empty one
      ensures r.Some? <==>
        && (forall id, e :: id in quorum && id != me && e in quorum && e != me && e != id ==>
              e in r2 && r2[e].Some? && (if id in r2[e].value then r2[e].value[id] else []) == if id in messages then messages[id] else [])
        && forall id :: id in quorum && id != me ==> codec.decode(if id in messages then messages[id] else []).Some?
      ensures r.Some? ==> forall id :: id in r.value <==> id in quorum && id != me
      ensures r.Some? ==> forall id :: id in r.value ==> codec.decode(if id in messages then messages[id] else []) == Some(r.value[id])
    {
      hide Consistent, Decodable;
      ConsistentSpelledOut(codec, me, quorum, messages, r2);
      r := Agree(r2);
    }

    /** Compares all echoes, then decodes. */
    method Agree(r2: map<Id, Option<Echo>>) returns (r: Option<map<Id, B>>)
      ensures r.Some? <==> Consistent(me, Quorum(), messages, r2) && Decodable(codec, me, Quorum(), messages)
      ensures r.Some? ==> r.value == Decoded(codec, me, Quorum(), messages)
    {
      for i := 0 to |quorum|
        invariant forall k, l :: 0 <= k < i && 0 <= l < |quorum| && quorum[k] != me && quorum[l] != me && quorum[l] != quorum[k] ==> Repeats(messages, r2, quorum[k], quorum[l])
      {
        var id := quorum[i];
        if id != me {
          var ok := CheckEchoes(id, r2);
          if !ok {
            return None;
          }
        }
      }
      var out: map<Id, B> := map[];
      for i := 0 to |quorum|
        invariant forall id :: id in out <==> id in quorum[..i] && id != me
        invariant forall id :: id in out ==> codec.decode(At(messages, id)) == Some(out[id])
      {
        var id := quorum[i];
        if id != me {
          var decoded := codec.decode(At(messages, id));
          if decoded.None? {
            assert id in Quorum();
            return None;
          }
          out := out[id := decoded.value];
        }
      }
      r := Some(out);
    }

    /** Compares the recorded payload of one sender with every third party's echo of it. */
    method CheckEchoes(id: Id, r2: map<Id, Option<Echo>>) returns (ok: bool)
      ensures ok <==> forall l :: 0 <= l < |quorum| && quorum[l] != me && quorum[l] != id ==> Repeats(messages, r2, id, quorum[l])
    {
      for j := 0 to |quorum|
        invariant forall l :: 0 <= l < j && quorum[l] != me && quorum[l] != id ==> Repeats(messages, r2, id, quorum[l])
      {
        var e := quorum[j];
        if e != me && e != id {
          if !Arrived(r2, e) {
            return false;
          }
          var _, isEq, _ := CompareBytes(At(messages, id), At(r2[e].value, id));
          if isEq != 1 {
            return false;
          }
        }
      }
      ok := true;
    }
  }

  lemma ReceivedNext(me: Id, quorum: seq<Id>, i: nat, r1: map<Id, Option<Bytes>>)
    requires i < |quorum|
    ensures ReceivedFrom(me, Members(quorum[..i + 1]), r1) ==
      if quorum[i] != me && Arrived(r1, quorum[i]) then ReceivedFrom(me, Members(quorum[..i]), r1)[quorum[i] := r1[quorum[i]].value]
      else ReceivedFrom(me, Members(quorum[..i]), r1)
  {
    var id := quorum[i];
    forall x ensures x in Members(quorum[..i + 1]) <==> x == id || x in Members(quorum[..i]) {
      if x in Members(quorum[..i]) {
        var l :| 0 <= l < i && quorum[..i][l] == x;
        assert quorum[..i + 1][l] == x;
      }
      assert quorum[..i + 1][i] == id;
    }
  }

  lemma NothingReceived(me: Id, quorum: seq<Id>, r1: map<Id, Option<Bytes>>)
    ensures ReceivedFrom(me, Members(quorum[..0]), r1) == map[]
  {
  }

  lemma ConsistentSpelledOut<B(!new)>(codec: Codec<B>, me: Id, quorum: seq<Id>, messages: Echo, r2: map<Id, Option<Echo>>)
    ensures Consistent(me, Members(quorum), messages, r2) <==> forall id, e :: id in quorum && id != me && e in quorum && e != me && e != id ==>
      e in r2 && r2[e].Some? && (if id in r2[e].value then r2[e].value[id] else []) == if id in messages then messages[id] else []
    ensures Decodable(codec, me, Members(quorum), messages) <==>
      forall id :: id in quorum && id != me ==> codec.decode(if id in messages then messages[id] else []).Some?
    ensures forall id :: id in Members(quorum) <==> id in quorum
  {
    assert forall id :: id in Members(quorum) <==> id in quorum;
    assert forall id :: At(messages, id) == if id in messages then messages[id] else [];
  }

  // ----- Runs with faulty parties

  /** One run: who follows the protocol, the message each honest party broadcasts, and what every
      party received in rounds 1 and 2. Everything the other parties send is arbitrary. */
  datatype Run<!B(!new)> = Run(
    codec: Codec<B>, quorum: set<Id>, honest: set<Id>, inputs: map<Id, B>,
    r1: map<Id, map<Id, Option<Bytes>>>, r2: map<Id, map<Id, Option<Echo>>>)
  {
    /** What party p has recorded after round 2. */
    ghost function State(p: Id): Echo
      requires p in inputs && p in r1
    {
      map[p := codec.encode(inputs[p])] + ReceivedFrom(p, quorum, r1[p])
    }

    ghost predicate Finishes(p: Id)
      requires p in inputs && p in r1 && p in r2
    {
      && Complete(p, quorum, r1[p])
      && Consistent(p, quorum, State(p), r2[p])
      && Decodable(codec, p, quorum, State(p))
    }

    ghost function Output(p: Id): map<Id, B>
      requires p in inputs && p in r1 && p in r2
    {
      Decoded(codec, p, quorum, State(p))
    }

    /** Honest parties' messages arrive as sent. */
    ghost predicate Delivered() {
      && codec.Lawful() && honest <= quorum
      && (forall p :: p in honest ==> p in inputs && p in r1 && p in r2)
      && (forall p, q :: p in honest && q in honest && p != q ==> q in r1[p] && r1[p][q] == Some(codec.encode(inputs[q])))
      && (forall p, q :: p in honest && q in honest && p != q ==> q in r2[p] && r2[p][q] == Some(ReceivedFrom(q, quorum, r1[q])))
    }
  }

  /** One party's part of a run: it sends what the others expect of an honest party, and finishes with
      exactly the output the run gives it. */
  method Play<B(!new)>(ghost run: Run<B>, codec: Codec<B>, me: Id, quorum: seq<Id>, message: B, r1: map<Id, Option<Bytes>>, r2: map<Id, Option<Echo>>)
      returns (sent1: map<Id, Bytes>, sent2: Option<Echo>, out: Option<map<Id, B>>)
    requires me in quorum && run.codec == codec && run.quorum == Members(quorum)
    requires me in run.inputs && run.inputs[me] == message && me in run.r1 && run.r1[me] == r1 && me in run.r2 && run.r2[me] == r2
    ensures forall id :: id in sent1 <==> id in run.quorum && id != me
    ensures forall id :: id in sent1 ==> sent1[id] == codec.encode(message)
    ensures sent2.Some? ==> sent2.value == ReceivedFrom(me, run.quorum, r1)
    ensures out.Some? <==> run.Finishes(me)
    ensures out.Some? ==> out.value == run.Output(me)
  {
    hide Consistent, Decodable, Decoded, Complete;
    var p := new Participant(codec, me, quorum);
    sent1 := p.Round1(message);
    ghost var k;
    sent2, k := p.Round2(r1);
    out := None;
    if sent2.Some? {
      assert quorum[..|quorum|] == quorum;
      assert p.messages == run.State(me);
      out := p.Round3(r2);
    }
  }

  /** Two honest parties that finish hold the same payload for every third sender, honest or not. */
  lemma Agreement<B(!new)>(run: Run<B>, p: Id, q: Id, s: Id)
    requires run.Delivered() && p in run.honest && q in run.honest && run.Finishes(p) && run.Finishes(q)
    requires s in run.quorum && s != p && s != q
    ensures At(run.State(p), s) == At(run.State(q), s)
    ensures s in run.Output(p) && s in run.Output(q) && run.Output(p)[s] == run.Output(q)[s]
  {
    if p != q {
      assert Repeats(run.State(p), run.r2[p], s, q);
      assert Arrived(run.r1[q], s);
    }
  }

  /** An honest party's message is delivered unchanged. */
  lemma Validity<B(!new)>(run: Run<B>, p: Id, s: Id)
    requires run.Delivered() && p in run.honest && s in run.honest && s != p && run.Finishes(p)
    ensures s in run.Output(p) && run.Output(p)[s] == run.inputs[s]
  {
    assert run.codec.RoundTrips(run.inputs[s]);
    assert Arrived(run.r1[p], s);
  }

  /** When all parties are honest, every one finishes with everyone else's message. */
  lemma AllHonestFinish<B(!new)>(run: Run<B>, p: Id)
    requires run.Delivered() && run.honest == run.quorum && p in run.honest
    ensures run.Finishes(p)
    ensures forall s :: s in run.Output(p) <==> s in run.quorum && s != p
  {
    forall id | id in run.quorum && id != p
      ensures Arrived(run.r1[p], id) && At(run.State(p), id) == run.codec.encode(run.inputs[id]) && run.codec.decode(At(run.State(p), id)).Some?
    {
      assert run.codec.RoundTrips(run.inputs[id]);
    }
    forall id, e | id in run.quorum && id != p && e in run.quorum && e != p && e != id
      ensures Repeats(run.State(p), run.r2[p], id, e)
    {
      assert Arrived(run.r1[e], id) && id in ReceivedFrom(e, run.quorum, run.r1[e]);
    }
  }
}
