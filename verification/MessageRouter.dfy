/** The correlation-aware router (pkg/network/router.go). The transport is the sequence of
    deliveries still to come, each tagged with its authenticated sender. */
module MessageRouter {
  import opened Options

  type Id = nat

  datatype Message<T> = Message(from: Id, correlation: string, payload: T)

  /** A delivery whose content does not decode is None. */
  datatype Delivery<T> = Delivery(from: Id, content: Option<(string, T)>)

  datatype Outcome<T> = Received(messages: map<Id, T>) | Conflict(culprit: Id) | BufferFull | Malformed | TransportFailed

  const MaxBuffer: nat := 10000

  // ----- Messages and their selection

  predicate Matches<T>(m: Message<T>, correlation: string, expected: set<Id>) {
    m.correlation == correlation && m.from in expected
  }

  /** The messages a call leaves for later, in order. */
  function Kept<T>(ms: seq<Message<T>>, correlation: string, expected: set<Id>): (r: seq<Message<T>>)
    ensures |r| <= |ms|
  {
    if |ms| == 0 then []
    else
      var last := ms[|ms| - 1];
      Kept(ms[..|ms| - 1], correlation, expected) + if Matches(last, correlation, expected) then [] else [last]
  }

  /** The decoded messages from quorum members among some deliveries, in order. */
  function Accepted<T>(ds: seq<Delivery<T>>, quorum: set<Id>): seq<Message<T>> {
    if |ds| == 0 then []
    else
      var last := ds[|ds| - 1];
      Accepted(ds[..|ds| - 1], quorum) +
      if last.from in quorum && last.content.Some? then [Message(last.from, last.content.value.0, last.content.value.1)] else []
  }

  lemma KeptNext<T>(ms: seq<Message<T>>, m: Message<T>, correlation: string, expected: set<Id>)
    ensures Kept(ms + [m], correlation, expected) == Kept(ms, correlation, expected) + if Matches(m, correlation, expected) then [] else [m]
  {
    assert (ms + [m])[..|ms|] == ms;
  }

  lemma AcceptedNext<T>(ds: seq<Delivery<T>>, n: nat, quorum: set<Id>)
    requires n < |ds|
    ensures var d := ds[n];
      Accepted(ds[..n + 1], quorum) == Accepted(ds[..n], quorum) +
        if d.from in quorum && d.content.Some? then [Message(d.from, d.content.value.0, d.content.value.1)] else []
  {
    assert ds[..n + 1][..n] == ds[..n];
  }

  /** What is kept keeps its order: selection goes through a concatenation part by part. */
  lemma {:induction false} KeptConcat<T>(a: seq<Message<T>>, b: seq<Message<T>>, correlation: string, expected: set<Id>)
    ensures Kept(a + b, correlation, expected) == Kept(a, correlation, expected) + Kept(b, correlation, expected)
  {
    if |b| > 0 {
      KeptConcat(a, b[..|b| - 1], correlation, expected);
      KeptNext(a + b[..|b| - 1], b[|b| - 1], correlation, expected);
      assert a + b == a + b[..|b| - 1] + [b[|b| - 1]];
    } else {
      assert a + b == a;
    }
  }

  lemma KeptSingle<T>(m: Message<T>, correlation: string, expected: set<Id>)
    ensures Kept([m], correlation, expected) == if m.correlation == correlation && m.from in expected then [] else [m]
  {
    assert [m][..0] == [];
  }

  lemma AcceptedSingle<T>(d: Delivery<T>, quorum: set<Id>)
    ensures Accepted([d], quorum) == if d.from in quorum && d.content.Some? then [Message(d.from, d.content.value.0, d.content.value.1)] else []
  {
    assert [d][..0] == [];
  }

  lemma {:induction false} AcceptedConcat<T>(a: seq<Delivery<T>>, b: seq<Delivery<T>>, quorum: set<Id>)
    ensures Accepted(a + b, quorum) == Accepted(a, quorum) + Accepted(b, quorum)
  {
    if |b| > 0 {
      AcceptedConcat(a, b[..|b| - 1], quorum);
      AcceptedNext(a + b, |a| + |b| - 1, quorum);
      assert (a + b)[..|a| + |b| - 1] == a + b[..|b| - 1] && (a + b)[..|a| + |b|] == a + b;
    } else {
      assert a + b == a;
    }
  }

  /** received holds, for every sender of a matching message, that message's payload, and nothing else. */
  ghost predicate Collected<T>(received: map<Id, T>, ms: seq<Message<T>>, correlation: string, expected: set<Id>) {
    && (forall m :: m in ms && Matches(m, correlation, expected) ==> m.from in received && received[m.from] == m.payload)
    && (forall id :: id in received ==> id in expected && Message(id, correlation, received[id]) in ms)
  }

  lemma CollectedNext<T>(received: map<Id, T>, ms: seq<Message<T>>, m: Message<T>, correlation: string, expected: set<Id>)
    requires Collected(received, ms, correlation, expected)
    ensures !Matches(m, correlation, expected) ==> Collected(received, ms + [m], correlation, expected)
    ensures Matches(m, correlation, expected) && (m.from in received ==> received[m.from] == m.payload) ==>
      Collected(received[m.from := m.payload], ms + [m], correlation, expected)
  {
    if Matches(m, correlation, expected) && (m.from in received ==> received[m.from] == m.payload) {
      var r := received[m.from := m.payload];
      forall id | id in r ensures id in expected && Message(id, correlation, r[id]) in ms + [m] {
        if id == m.from {
          assert Message(id, correlation, r[id]) == m;
        }
      }
    }
  }

  function Ids(froms: seq<Id>): set<Id> {
    set i | 0 <= i < |froms| :: froms[i]
  }

  predicate Covers<T>(received: map<Id, T>, froms: seq<Id>) {
    forall i :: 0 <= i < |froms| ==> froms[i] in received
  }

  // ----- The router

  class Router<T(==)> {
    const quorum: set<Id>
    var buffer: seq<Message<T>>
    var inbox: seq<Delivery<T>>

    constructor (quorum: set<Id>, inbox: seq<Delivery<T>>)
      ensures this.quorum == quorum && this.inbox == inbox && buffer == [] && Valid()
    {
      this.quorum, this.inbox, this.buffer := quorum, inbox, [];
    }

    ghost predicate Valid()
      reads this
    {
      |buffer| <= MaxBuffer
    }

    /** Takes the matching messages out of the buffer; on a conflict the buffer stays as it was. */
    method ScanBuffer(correlation: string, expected: set<Id>) returns (received: map<Id, T>, conflict: Option<Id>)
      requires Valid()
      modifies this`buffer
      ensures Valid()
      ensures conflict.None? ==> Collected(received, old(buffer), correlation, expected)
      ensures conflict.None? ==> buffer == Kept(old(buffer), correlation, expected)
      ensures conflict.Some? ==> buffer == old(buffer)
      ensures conflict.Some? ==> Conflicting(old(buffer), correlation, conflict.value)
    {
      received, conflict := map[], None;
      var kept: seq<Message<T>> := [];
      for i := 0 to |buffer|
        invariant buffer == old(buffer) && conflict.None?
        invariant Collected(received, buffer[..i], correlation, expected)
        invariant kept == Kept(buffer[..i], correlation, expected)
      {
        var m := buffer[i];
        assert buffer[..i + 1] == buffer[..i] + [m];
        KeptNext(buffer[..i], m, correlation, expected);
        CollectedNext(received, buffer[..i], m, correlation, expected);
        if Matches(m, correlation, expected) {
          if m.from in received && received[m.from] != m.payload {
            ConflictFound(received, buffer[..i], buffer, m, correlation, expected);
            return received, Some(m.from);
          }
          received := received[m.from := m.payload];
        } else {
          kept := kept + [m];
        }
      }
      assert buffer[..|buffer|] == buffer;
      buffer := kept;
    }

    /** Takes a matching message, or buffers any other. */
    method Handle(m: Message<T>, received: map<Id, T>, correlation: string, expected: set<Id>, ghost all: seq<Message<T>>)
        returns (received': map<Id, T>, stop: Option<Outcome<T>>)
      requires Valid() && Collected(received, all, correlation, expected) && buffer == Kept(all, correlation, expected)
      modifies this`buffer
      ensures Valid()
      ensures stop.None? ==> Collected(received', all + [m], correlation, expected) && buffer == Kept(all + [m], correlation, expected)
      ensures stop.Some? ==> buffer == old(buffer)
      ensures stop.Some? ==>
        || (stop.value == Conflict(m.from) && Conflicting(all + [m], correlation, m.from))
        || (stop.value.BufferFull? && |buffer| == MaxBuffer)
    {
      received', stop := received, None;
      KeptNext(all, m, correlation, expected);
      CollectedNext(received, all, m, correlation, expected);
      if Matches(m, correlation, expected) {
        if m.from in received && received[m.from] != m.payload {
          ConflictFound(received, all, all + [m], m, correlation, expected);
          return received, Some(Conflict(m.from));
        }
        received' := received[m.from := m.payload];
      } else {
        if |buffer| >= MaxBuffer {
          return received, Some(BufferFull);
        }
        buffer := buffer + [m];
      }
    }

    /** Takes one delivery: drops it when its sender is outside the quorum, stops when it does not
        decode, and handles it otherwise. */
    method Next(received: map<Id, T>, correlation: string, expected: set<Id>, ghost all: seq<Message<T>>)
        returns (received': map<Id, T>, stop: Option<Outcome<T>>, ghost all': seq<Message<T>>)
      requires Valid() && inbox != [] && Collected(received, all, correlation, expected) && buffer == Kept(all, correlation, expected)
      modifies this
      ensures Valid() && inbox == old(inbox)[1..]
      ensures var d := old(inbox)[0];
        all' == all + if d.from in quorum && d.content.Some? then [Message(d.from, d.content.value.0, d.content.value.1)] else []
      ensures stop.None? ==> Collected(received', all', correlation, expected) && buffer == Kept(all', correlation, expected)
      ensures stop.Some? ==> buffer == old(buffer) && !stop.value.Received? && !stop.value.TransportFailed?
      ensures stop.Some? ==>
        || (stop.value.Conflict? && Conflicting(all', correlation, stop.value.culprit))
        || (stop.value.BufferFull? && |buffer| == MaxBuffer)
        || (stop.value.Malformed? && old(inbox)[0].from in quorum && old(inbox)[0].content.None?)
    {
      hide Collected, Kept, Conflicting;
      var d := inbox[0];
      inbox := inbox[1..];
      received', stop, all' := received, None, all;
      if d.from in quorum {
        if d.content.None? {
          return received, Some(Malformed), all;
        }
        var m := Message(d.from, d.content.value.0, d.content.value.1);
        received', stop := Handle(m, received, correlation, expected, all);
        all' := all + [m];
      }
    }

    /** Collects one payload from each of the given senders under a correlation identifier.
        n is the number of deliveries consumed. */
    method ReceiveFrom(correlation: string, froms: seq<Id>) returns (r: Outcome<T>, ghost n: nat)
      requires Valid()
      modifies this
      ensures Valid()
      ensures n <= |old(inbox)| && inbox == old(inbox)[n..]
      ensures r.Received? ==>
        var all := Seen(old(buffer), old(inbox), n, quorum);
        && r.messages.Keys == Ids(froms)
        && Collected(r.messages, all, correlation, Ids(froms))
        && buffer == Kept(all, correlation, Ids(froms))
      // the buffer after any outcome: matching messages are gone from it, unless they clashed at once
      ensures r.BufferFull? || r.Malformed? ==> n > 0
      ensures buffer == if r.Conflict? && n == 0 then old(buffer) else Kept(Seen(old(buffer), old(inbox), Stored(r, n), quorum), correlation, Ids(froms))
      // it stops at the first delivery that completes the set
      ensures r.Received? && n > 0 ==> Lacks(Seen(old(buffer), old(inbox), n - 1, quorum), correlation, froms)
      ensures r.Conflict? ==> Conflicting(Seen(old(buffer), old(inbox), n, quorum), correlation, r.culprit)
      ensures r.BufferFull? ==> |buffer| == 10000
      ensures r.Malformed? ==> n > 0 && old(inbox)[n - 1].from in quorum && old(inbox)[n - 1].content.None?
      ensures r.TransportFailed? ==> inbox == [] && Lacks(Seen(old(buffer), old(inbox), n, quorum), correlation, froms)
    {
      hide Collected, Kept, Conflicting, Lacks, Seen, Covers;
      n := 0;
      var expected := Ids(froms);
      ghost var b0, ds := buffer, inbox;
      SeenNothing(b0, ds, quorum);
      var received: map<Id, T>, conflict := ScanBuffer(correlation, expected);
      if conflict.Some? {
        return Conflict(conflict.value), 0;
      }
      while !Covers(received, froms)
        invariant Valid() && n <= |ds| && inbox == ds[n..]
        invariant Collected(received, Seen(b0, ds, n, quorum), correlation, expected)
        invariant buffer == Kept(Seen(b0, ds, n, quorum), correlation, expected)
        invariant n > 0 ==> Lacks(Seen(b0, ds, n - 1, quorum), correlation, froms)
        decreases |inbox|
      {
        ghost var all := Seen(b0, ds, n, quorum);
        StillLacking(received, all, correlation, froms);
        if inbox == [] {
          return TransportFailed, n;
        }
        SeenNext(b0, ds, n, quorum);
        var stop: Option<Outcome<T>>;
        received, stop, all := Next(received, correlation, expected, all);
        n := n + 1;
        if stop.Some? {
          return stop.value, n;
        }
      }
      CollectedKeys(received, Seen(b0, ds, n, quorum), correlation, froms);
      r := Received(received);
    }
  }

  /** The deliveries that a call of ReceiveFrom has put away: the one that stops it is not among them. */
  function Stored<T>(r: Outcome<T>, n: nat): nat {
    if r.Received? || r.TransportFailed? || n == 0 then n else n - 1
  }

  /** The buffered messages followed by those accepted from the first n deliveries. */
  ghost function Seen<T>(buffer: seq<Message<T>>, ds: seq<Delivery<T>>, n: nat, quorum: set<Id>): seq<Message<T>>
    requires n <= |ds|
  {
    buffer + Accepted(ds[..n], quorum)
  }

  lemma SeenNothing<T>(buffer: seq<Message<T>>, ds: seq<Delivery<T>>, quorum: set<Id>)
    ensures Seen(buffer, ds, 0, quorum) == buffer
  {
  }

  lemma SeenNext<T>(buffer: seq<Message<T>>, ds: seq<Delivery<T>>, n: nat, quorum: set<Id>)
    requires n < |ds|
    ensures var d := ds[n];
      Seen(buffer, ds, n + 1, quorum) == Seen(buffer, ds, n, quorum) +
        if d.from in quorum && d.content.Some? then [Message(d.from, d.content.value.0, d.content.value.1)] else []
  {
    AcceptedNext(ds, n, quorum);
  }

  /** Some requested sender has no matching message among ms. */
  ghost predicate Lacks<T>(ms: seq<Message<T>>, correlation: string, froms: seq<Id>) {
    exists id :: id in froms && Silent(ms, correlation, id)
  }

  ghost predicate Silent<T>(ms: seq<Message<T>>, correlation: string, id: Id) {
    forall m :: m in ms && m.from == id ==> m.correlation != correlation
  }

  lemma StillLacking<T>(received: map<Id, T>, ms: seq<Message<T>>, correlation: string, froms: seq<Id>)
    requires Collected(received, ms, correlation, Ids(froms)) && !Covers(received, froms)
    ensures Lacks(ms, correlation, froms)
  {
    var i :| 0 <= i < |froms| && froms[i] !in received;
    assert froms[i] in Ids(froms);
    assert Silent(ms, correlation, froms[i]) by {
      forall m | m in ms && m.from == froms[i] ensures m.correlation != correlation {
        assert !Matches(m, correlation, Ids(froms));
      }
    }
  }

  lemma CollectedKeys<T>(received: map<Id, T>, ms: seq<Message<T>>, correlation: string, froms: seq<Id>)
    requires Collected(received, ms, correlation, Ids(froms)) && Covers(received, froms)
    ensures received.Keys == Ids(froms)
  {
  }

  /** The sender delivered two different payloads under one correlation identifier. */
  ghost predicate Conflicting<T>(ms: seq<Message<T>>, correlation: string, id: Id) {
    exists a, b :: a in ms && b in ms && Clash(a, b, correlation, id)
  }

  ghost predicate Clash<T>(a: Message<T>, b: Message<T>, correlation: string, id: Id) {
    a.from == b.from == id && a.correlation == b.correlation == correlation && a.payload != b.payload
  }

  lemma ConflictFound<T>(received: map<Id, T>, ms: seq<Message<T>>, all: seq<Message<T>>, m: Message<T>, correlation: string, expected: set<Id>)
    requires Collected(received, ms, correlation, expected) && Matches(m, correlation, expected)
    requires m.from in received && received[m.from] != m.payload
    requires m in all && forall x :: x in ms ==> x in all
    ensures Conflicting(all, correlation, m.from)
  {
    assert Clash(Message(m.from, correlation, received[m.from]), m, correlation, m.from);
  }

  // ----- Retries

  /** A retried call has nothing left of what a failed one took: it succeeds only if every sender
      sends again. */
  method RetryReceive<T(==)>(router: Router<T>, correlation: string, froms: seq<Id>, more: seq<Delivery<T>>)
      returns (first: Outcome<T>, second: Outcome<T>, ghost n: nat, ghost n': nat)
    requires router.Valid()
    modifies router
    ensures router.Valid()
    ensures n <= |old(router.inbox)| && n' <= |old(router.inbox)[n..] + more|
    ensures !first.Received? && !(first.Conflict? && n == 0) && second.Received? ==>
      forall id :: id in froms ==> !Silent(Accepted((old(router.inbox)[n..] + more)[..n'], router.quorum), correlation, id)
  {
    first, n := router.ReceiveFrom(correlation, froms);
    router.inbox := router.inbox + more;
    ghost var b, ds := router.buffer, router.inbox;
    second, n' := router.ReceiveFrom(correlation, froms);
    if !first.Received? && !(first.Conflict? && n == 0) && second.Received? {
      KeptMember(Seen(old(router.buffer), old(router.inbox), Stored(first, n), router.quorum), correlation, Ids(froms));
      forall id | id in froms ensures !Silent(Accepted(ds[..n'], router.quorum), correlation, id) {
        SentAgain(second.messages, b, ds[..n'], router.quorum, correlation, froms, id);
      }
    }
  }

  lemma SentAgain<T>(received: map<Id, T>, buffer: seq<Message<T>>, ds: seq<Delivery<T>>, quorum: set<Id>, correlation: string, froms: seq<Id>, id: Id)
    requires Collected(received, buffer + Accepted(ds, quorum), correlation, Ids(froms)) && received.Keys == Ids(froms) && id in froms
    requires forall m :: m in buffer ==> !Matches(m, correlation, Ids(froms))
    ensures !Silent(Accepted(ds, quorum), correlation, id)
  {
    var i :| 0 <= i < |froms| && froms[i] == id;
    assert id in Ids(froms);
    var m := Message(id, correlation, received[id]);
    assert m in buffer + Accepted(ds, quorum) && Matches(m, correlation, Ids(froms));
  }

  lemma AcceptedOne<T>(d: Delivery<T>, m: Message<T>, quorum: set<Id>)
    requires d.from in quorum && d.content == Some((m.correlation, m.payload)) && m.from == d.from
    ensures Seen([], [d], 0, quorum) == [] && Seen([], [d], 1, quorum) == [m]
    ensures forall correlation, id :: !Conflicting([m], correlation, id) && !Conflicting(Seen([], [d], 0, quorum), correlation, id)
  {
    assert [d][..1] == [d] && [d][..0] == [];
  }

  /** A call that gets one of the messages it waits for, and no more, fails and keeps nothing. */
  method ReceiveOne<T(==)>(router: Router<T>, correlation: string, froms: seq<Id>, d: Delivery<T>, absent: Id) returns (r: Outcome<T>)
    requires router.buffer == [] && router.inbox == [d]
    requires d.from in router.quorum && d.from in froms && d.content.Some? && d.content.value.0 == correlation
    requires absent in froms && absent != d.from
    modifies router
    ensures r.TransportFailed? && router.buffer == [] && router.inbox == []
  {
    hide Conflicting, Seen, Kept;
    ghost var m := Message(d.from, correlation, d.content.value.1);
    AcceptedOne(d, m, router.quorum);
    OneKept(m, correlation, froms);
    assert [m][..0] == [];
    ghost var n;
    r, n := router.ReceiveFrom(correlation, froms);
    assert n <= 1;
    if r.Received? {
      assert Message(absent, correlation, r.messages[absent]) in [m] by {
        InIds(froms, absent);
      }
    }
  }

  lemma InIds(froms: seq<Id>, id: Id)
    requires id in froms
    ensures id in Ids(froms)
  {
  }

  lemma OneKept<T>(m: Message<T>, correlation: string, froms: seq<Id>)
    requires m.correlation == correlation && m.from in froms
    ensures Kept([m][..0], correlation, Ids(froms)) == [] && Kept([m], correlation, Ids(froms)) == []
  {
    InIds(froms, m.from);
  }

  lemma AcceptedBoth<T>(d: Delivery<T>, d': Delivery<T>, m: Message<T>, m': Message<T>, quorum: set<Id>)
    requires d.from in quorum && d.content == Some((m.correlation, m.payload)) && m.from == d.from
    requires d'.from in quorum && d'.content == Some((m'.correlation, m'.payload)) && m'.from == d'.from != d.from
    ensures Seen([], [d, d'], 0, quorum) == [] && Seen([], [d, d'], 1, quorum) == [m] && Seen([], [d, d'], 2, quorum) == [m, m']
    ensures forall n, correlation, id :: 0 <= n <= 2 ==> !Conflicting(Seen([], [d, d'], n, quorum), correlation, id)
  {
    assert [d, d'][..2] == [d, d'] && [d, d'][..1] == [d] && [d, d'][..0] == [] && [d][..0] == [];
  }

  /** A call that gets both messages it waits for succeeds. */
  method ReceiveBoth<T(==)>(router: Router<T>, correlation: string, d: Delivery<T>, d': Delivery<T>) returns (r: Outcome<T>)
    requires router.buffer == [] && router.inbox == [d, d'] && d.from in router.quorum && d'.from in router.quorum && d.from != d'.from
    requires d.content.Some? && d.content.value.0 == correlation && d'.content.Some? && d'.content.value.0 == correlation
    modifies router
    ensures r == Received(map[d.from := d.content.value.1, d'.from := d'.content.value.1])
  {
    hide Conflicting, Seen;
    var froms := [d.from, d'.from];
    ghost var m, m' := Message(d.from, correlation, d.content.value.1), Message(d'.from, correlation, d'.content.value.1);
    AcceptedBoth(d, d', m, m', router.quorum);
    ghost var n;
    r, n := router.ReceiveFrom(correlation, froms);
    assert n == 0 || n == 1 || n == 2;
    InIds(froms, d.from);
    InIds(froms, d'.from);
    BothOnly(d.from, d'.from);
    assert m in [m, m'] && m' in [m, m'];
    assert !r.BufferFull?;
    assert !r.Malformed?;
    assert Message(d.from, correlation, r.messages[d.from]) in [m, m'] && Message(d'.from, correlation, r.messages[d'.from]) in [m, m'];
  }

  lemma BothOnly(a: Id, b: Id)
    ensures Ids([a, b]) == {a, b}
  {
    assert [a, b][0] == a && [a, b][1] == b;
  }

  /** Party 1's message arrives, the transport fails before party 2's does, and the call is retried:
      both messages have been delivered, yet the retry fails, where one call would have succeeded. */
  method LostMessage<T(==)>(correlation: string, a: T, b: T) returns (first: Outcome<T>, second: Outcome<T>, straight: Outcome<T>)
    ensures first.TransportFailed? && second.TransportFailed?
    ensures straight == Received(map[1 := a, 2 := b])
  {
    var one, two := Delivery(1, Some((correlation, a))), Delivery(2, Some((correlation, b)));
    var router := new Router<T>({1, 2}, [one]);
    first := ReceiveOne(router, correlation, [1, 2], one, 2);
    router.inbox := [two];
    second := ReceiveOne(router, correlation, [1, 2], two, 1);
    router := new Router<T>({1, 2}, [one, two]);
    straight := ReceiveBoth(router, correlation, one, two);
  }

  // ----- Runs: interleavings do not matter

  /** The one payload each sender sends under each correlation identifier. */
  type Script<!T> = (Id, string) -> T

  ghost predicate Follows<T>(script: Script<T>, m: Message<T>) {
    m.payload == script(m.from, m.correlation)
  }

  ghost predicate AllFollow<T>(script: Script<T>, ms: seq<Message<T>>) {
    forall m :: m in ms ==> Follows(script, m)
  }

  /** Every quorum member's deliveries follow the script; others may deliver anything. */
  ghost predicate Scripted<T>(script: Script<T>, quorum: set<Id>, ds: seq<Delivery<T>>) {
    forall d :: d in ds && d.from in quorum && d.content.Some? ==> d.content.value.1 == script(d.from, d.content.value.0)
  }

  ghost function Expected<T>(script: Script<T>, correlation: string, froms: seq<Id>): map<Id, T> {
    map id | id in Ids(froms) :: script(id, correlation)
  }

  lemma {:induction false} AcceptedFollows<T>(script: Script<T>, quorum: set<Id>, ds: seq<Delivery<T>>)
    requires Scripted(script, quorum, ds)
    ensures AllFollow(script, Accepted(ds, quorum))
  {
    if |ds| > 0 {
      assert ds[|ds| - 1] in ds;
      AcceptedFollows(script, quorum, ds[..|ds| - 1]);
    }
  }

  lemma {:induction false} KeptMember<T>(ms: seq<Message<T>>, correlation: string, expected: set<Id>)
    ensures forall m :: m in Kept(ms, correlation, expected) <==> m in ms && !Matches(m, correlation, expected)
  {
    if |ms| > 0 {
      KeptMember(ms[..|ms| - 1], correlation, expected);
      assert ms == ms[..|ms| - 1] + [ms[|ms| - 1]];
    }
  }

  ghost function Occurrences<T(!new)>(ms: seq<Message<T>>, m: Message<T>): nat {
    if |ms| == 0 then 0 else Occurrences(ms[..|ms| - 1], m) + if ms[|ms| - 1] == m then 1 else 0
  }

  lemma OccurrencesNext<T(!new)>(ms: seq<Message<T>>, last: Message<T>, m: Message<T>)
    ensures Occurrences(ms + [last], m) == Occurrences(ms, m) + if last == m then 1 else 0
  {
    assert (ms + [last])[..|ms|] == ms;
  }

  /** Nothing is lost or duplicated: every message that does not match is kept as often as it was there. */
  lemma {:induction false} KeptConserves<T(!new)>(ms: seq<Message<T>>, correlation: string, expected: set<Id>, m: Message<T>)
    ensures Occurrences(Kept(ms, correlation, expected), m) == if Matches(m, correlation, expected) then 0 else Occurrences(ms, m)
  {
    if |ms| > 0 {
      var init, last := ms[..|ms| - 1], ms[|ms| - 1];
      KeptConserves(init, correlation, expected, m);
      OccurrencesNext(Kept(init, correlation, expected), last, m);
      if Matches(last, correlation, expected) {
        assert Kept(ms, correlation, expected) == Kept(init, correlation, expected);
      }
    }
  }

  /** Any sequence of calls: as long as they succeed, their results are fixed by the script, for
      every interleaving of the deliveries; and no call ever reports a conflict. */
  method ReceiveAll<T(==)>(router: Router<T>, calls: seq<(string, seq<Id>)>, ghost script: Script<T>) returns (results: seq<map<Id, T>>, last: Option<Outcome<T>>)
    requires router.Valid() && AllFollow(script, router.buffer) && Scripted(script, router.quorum, router.inbox)
    modifies router
    ensures router.Valid() && |results| <= |calls|
    ensures forall k :: 0 <= k < |results| ==> results[k] == Expected(script, calls[k].0, calls[k].1)
    ensures last.None? <==> |results| == |calls|
    ensures last.Some? ==> last.value.BufferFull? || last.value.Malformed? || last.value.TransportFailed?
  {
    hide Kept, Accepted, Conflicting, Lacks;
    results, last := [], None;
    for i := 0 to |calls|
      invariant router.Valid() && |results| == i
      invariant AllFollow(script, router.buffer) && Scripted(script, router.quorum, router.inbox)
      invariant forall k :: 0 <= k < |results| ==> results[k] == Expected(script, calls[k].0, calls[k].1)
    {
      ghost var b, ds := router.buffer, router.inbox;
      var r, n := router.ReceiveFrom(calls[i].0, calls[i].1);
      AcceptedFollows(script, router.quorum, ds[..n]);
      ghost var all := Seen(b, ds, n, router.quorum);
      assert AllFollow(script, all);
      if r.Conflict? {
        NoClash(script, all, calls[i].0, r.culprit);
      }
      if !r.Received? {
        return results, Some(r);
      }
      KeptMember(all, calls[i].0, Ids(calls[i].1));
      assert r.messages == Expected(script, calls[i].0, calls[i].1) by {
        forall id | id in r.messages ensures r.messages[id] == script(id, calls[i].0) {
          assert Follows(script, Message(id, calls[i].0, r.messages[id]));
        }
      }
      results := results + [r.messages];
    }
  }

  lemma NoClash<T>(script: Script<T>, ms: seq<Message<T>>, correlation: string, id: Id)
    requires AllFollow(script, ms)
    ensures !Conflicting(ms, correlation, id)
  {
    forall a, b | a in ms && b in ms ensures !Clash(a, b, correlation, id) {
      assert Follows(script, a) && Follows(script, b);
    }
  }
}
