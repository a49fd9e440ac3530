/** Rounds and their incoming messages (pkg/network/mpc.go). */
module Network {
  import opened Options

  /** Outcome of a step: a value, an abort naming the party at fault, or an error naming nobody. */
  datatype Outcome<+T> = Done(value: T) | Blame(culprit: nat) | Failed

  /** Every sender's message is there and passes the test. */
  ghost predicate AllOk<T>(ids: seq<nat>, messages: map<nat, T>, ok: T -> bool) {
    forall id :: id in ids ==> id in messages && ok(messages[id])
  }

  method ValidateIncoming<T>(ids: seq<nat>, messages: map<nat, T>, ok: T -> bool) returns (r: Outcome<()>)
    ensures r.Done? <==> AllOk(ids, messages, ok)
    ensures r.Blame? ==> r.culprit in ids && r.culprit in messages && !ok(messages[r.culprit])
    ensures r.Failed? ==> exists id :: id in ids && id !in messages
  {
    for i := 0 to |ids|
      invariant forall k :: 0 <= k < i ==> ids[k] in messages && ok(messages[ids[k]])
    {
      if ids[i] !in messages {
        return Failed;
      }
      if !ok(messages[ids[i]]) {
        return Blame(ids[i]);
      }
    }
    r := Done(());
  }

  /** The parties other than oneself, in order. */
  function Others(ids: seq<nat>, me: nat): (r: seq<nat>) {
    if |ids| == 0 then [] else (if ids[0] == me then [] else [ids[0]]) + Others(ids[1..], me)
  }

  lemma {:induction false} OthersMembers(ids: seq<nat>, me: nat)
    ensures forall id :: id in Others(ids, me) <==> id in ids && id != me
  {
    if |ids| > 0 {
      OthersMembers(ids[1..], me);
      assert ids == [ids[0]] + ids[1..];
    }
  }

  /** ... in their order. */
  lemma {:induction false} OthersConcat(a: seq<nat>, b: seq<nat>, me: nat)
    ensures Others(a + b, me) == Others(a, me) + Others(b, me)
    ensures forall id :: Others([id], me) == if id == me then [] else [id]
  {
    if |a| > 0 {
      OthersConcat(a[1..], b, me);
      assert (a + b)[1..] == a[1..] + b;
    } else {
      assert a + b == b;
    }
  }

  /** The contents of the messages of the given senders. */
  function Received<T>(ids: seq<nat>, messages: map<nat, Option<T>>): map<nat, T> {
    map id | id in ids && id in messages && messages[id].Some? :: messages[id].value
  }

  ghost predicate AllIn<T>(ids: seq<nat>, m: map<nat, T>) {
    forall id :: id in ids ==> id in m
  }

  function Restrict<T>(ids: seq<nat>, m: map<nat, T>): map<nat, T> {
    map id | id in ids && id in m :: m[id]
  }

  ghost predicate AllSome<T>(ids: seq<nat>, messages: map<nat, Option<T>>) {
    forall id :: id in ids ==> id in messages && messages[id].Some?
  }

  /** One's own entry and the others' messages make an entry for everyone. */
  lemma JoinCovers<T>(ids: seq<nat>, me: nat, m: map<nat, T>, messages: map<nat, Option<T>>)
    requires me in m && AllSome(Others(ids, me), messages)
    ensures AllIn(ids, m + Received(Others(ids, me), messages))
  {
    OthersMembers(ids, me);
  }
}
