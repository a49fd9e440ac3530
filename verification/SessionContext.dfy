/** Session contexts and their pairwise seed streams (pkg/mpc/session/context.go).

    A SHAKE instance is what it absorbed and how far it was read; hash functions are uninterpreted. */
module SessionContext {
  import opened Options

  type Id = nat
  newtype Byte = x: int | 0 <= x < 256
  type Bytes = seq<Byte>

  /** The hash functions: sum512 and commit are plain functions, xof gives byte i of the output. */
  datatype Hashes = Hashes(sum512: Bytes -> Bytes, xof: (Bytes, Bytes, nat) -> Byte, commit: (Bytes, Bytes, Bytes) -> Bytes)

  datatype Shake = Shake(custom: Bytes, absorbed: Bytes, offset: nat) {
    /** The next n bytes. */
    function Peek(H: Hashes, n: nat): (out: Bytes)
      ensures |out| == n
    {
      seq(n, i requires 0 <= i < n => H.xof(custom, absorbed, offset + i))
    }

    function Skip(n: nat): Shake {
      Shake(custom, absorbed, offset + n)
    }
  }

  /** A transcript is the list of labelled entries appended to it. */
  type Tape = seq<(string, Bytes)>

  const TranscriptInitLabel := "BRON_CRYPTO_SETUP_TRANSCRIPT_INIT-"
  const TranscriptName := "BRON_CRYPTO_SETUP_TRANSCRIPT-"
  const SeedDomainSeparatorLabel := "BRON_CRYPTO_SETUP_SEED_DOMAIN_SEPARATOR-"
  const SubQuorumLabel := "BRON_CRYPTO_SETUP_SUBQUORUM-"
  const SubContextDomainSeparatorLabel := "BRON_CRYPTO_SETUP_SUBCONTEXT-"
  const SeedLength: nat := 32

  function Ascii(s: string): (r: Bytes)
    ensures |r| == |s|
  {
    seq(|s|, i requires 0 <= i < |s| => (s[i] as int % 256) as Byte)
  }

  /** Little-endian encoding in k bytes. */
  function LittleEndian(n: nat, k: nat): (r: Bytes)
    ensures |r| == k
  {
    if k == 0 then [] else [(n % 256) as Byte] + LittleEndian(n / 256, k - 1)
  }

  function Le64(n: nat): (r: Bytes)
    ensures |r| == 8
  {
    LittleEndian(n, 8)
  }

  lemma AsciiAt(s: string, i: nat)
    requires i < |s| && s[i] as int < 256
    ensures Ascii(s)[i] as int == s[i] as int
  {
  }

  /** The number written by bytes, lowest first. */
  ghost function Number(b: Bytes): nat {
    if |b| == 0 then 0 else b[0] as nat + 256 * Number(b[1..])
  }

  ghost function Power256(k: nat): nat {
    if k == 0 then 1 else 256 * Power256(k - 1)
  }

  /** The encoding can be read back. */
  lemma {:induction false} LittleEndianNumber(n: nat, k: nat)
    requires n < Power256(k)
    ensures Number(LittleEndian(n, k)) == n
  {
    if k > 0 {
      assert n / 256 < Power256(k - 1);
      LittleEndianNumber(n / 256, k - 1);
      assert LittleEndian(n, k)[1..] == LittleEndian(n / 256, k - 1);
    }
  }

  const Limit64: nat := 0x1_0000_0000_0000_0000

  lemma Le64Number(n: nat)
    requires n < Limit64
    ensures Number(Le64(n)) == n
  {
    assert Power256(4) == 0x1_0000_0000;
    assert Power256(8) == 0x1_0000_0000_0000_0000;
    LittleEndianNumber(n, 8);
  }

  lemma Le64Injective(n: nat, m: nat)
    requires n < Limit64 && m < Limit64 && Le64(n) == Le64(m)
    ensures n == m
  {
    Le64Number(n);
    Le64Number(m);
  }

  // ----- Ordered quorums

  ghost predicate Ascending(ids: seq<Id>) {
    forall i, j :: 0 <= i < j < |ids| ==> ids[i] < ids[j]
  }

  function Insert(x: Id, ids: seq<Id>): (r: seq<Id>) {
    if |ids| == 0 then [x]
    else if x < ids[0] then [x] + ids
    else if x == ids[0] then ids
    else [ids[0]] + Insert(x, ids[1..])
  }

  /** A set given by any enumeration, in ascending order. */
  function Sort(ids: seq<Id>): (r: seq<Id>) {
    if |ids| == 0 then [] else Insert(ids[0], Sort(ids[1..]))
  }

  lemma {:induction false} InsertMembers(x: Id, ids: seq<Id>)
    ensures forall y :: y in Insert(x, ids) <==> y == x || y in ids
  {
    if |ids| > 0 {
      InsertMembers(x, ids[1..]);
      assert ids == [ids[0]] + ids[1..];
    }
  }

  lemma {:induction false} InsertAscending(x: Id, ids: seq<Id>)
    requires Ascending(ids)
    ensures Ascending(Insert(x, ids))
  {
    if |ids| > 0 && x > ids[0] {
      InsertAscending(x, ids[1..]);
      InsertMembers(x, ids[1..]);
      var tail := Insert(x, ids[1..]);
      forall j | 0 <= j < |tail| ensures ids[0] < tail[j] {
        assert tail[j] in tail;
      }
    }
  }

  lemma {:induction false} SortCorrect(ids: seq<Id>)
    ensures Ascending(Sort(ids))
    ensures forall y :: y in Sort(ids) <==> y in ids
  {
    if |ids| > 0 {
      SortCorrect(ids[1..]);
      InsertAscending(ids[0], Sort(ids[1..]));
      InsertMembers(ids[0], Sort(ids[1..]));
      assert ids == [ids[0]] + ids[1..];
    }
  }

  /** A set has only one ascending enumeration. */
  lemma {:induction false} AscendingUnique(a: seq<Id>, b: seq<Id>)
    requires Ascending(a) && Ascending(b) && forall x :: x in a <==> x in b
    ensures a == b
  {
    HeadMember(a);
    HeadMember(b);
    if |a| > 0 {
      var i :| 0 <= i < |b| && b[i] == a[0];
      var j :| 0 <= j < |a| && a[j] == b[0];
      assert a[0] == b[0];
      forall x ensures x in a[1..] <==> x in b[1..] {
        TailMember(a, x);
        TailMember(b, x);
      }
      AscendingUnique(a[1..], b[1..]);
      assert a == [a[0]] + a[1..] && b == [b[0]] + b[1..];
    }
  }

  lemma HeadMember(a: seq<Id>)
    ensures |a| > 0 ==> a[0] in a
  {
  }

  lemma TailMember(a: seq<Id>, x: Id)
    requires |a| > 0 && Ascending(a)
    ensures x in a[1..] <==> x in a && x != a[0]
  {
    assert a == [a[0]] + a[1..];
    if x in a[1..] {
      var i :| 0 <= i < |a[1..]| && a[1..][i] == x;
      assert a[0] < a[i + 1];
    }
  }

  /** Two enumerations of the same set sort to the same sequence. */
  lemma SortEqual(a: seq<Id>, b: seq<Id>)
    requires forall x :: x in a <==> x in b
    ensures Sort(a) == Sort(b)
  {
    SortCorrect(a);
    SortCorrect(b);
    AscendingUnique(Sort(a), Sort(b));
  }

  // ----- Contexts

  datatype State = State(sid: Bytes, holder: Id, quorum: seq<Id>, tape: Tape, seeds: map<Id, Shake>) {
    ghost predicate Valid() {
      && Ascending(quorum) && holder in quorum
      && forall id :: id in seeds <==> id in quorum && id != holder
    }
  }

  function Min(a: Id, b: Id): Id { if a < b then a else b }
  function Max(a: Id, b: Id): Id { if a < b then b else a }

  /** A stream keyed by both parties' identifiers and their pairwise seed; its first 32 bytes are
      discarded. */
  function PairStream(id: Id, other: Id, seed: Bytes): Shake {
    Shake(Ascii(SeedDomainSeparatorLabel), Le64(Min(id, other)) + Le64(Max(id, other)) + seed, 32)
  }

  function InitialTape(image: Bytes): Tape
    requires |image| == 64
  {
    [(TranscriptName, []), (TranscriptInitLabel, image[32..])]
  }

  predicate EnoughEntropy(id: Id, quorum: seq<Id>, commonSeed: Bytes, pairSeeds: map<Id, Bytes>) {
    && id >= 1 && |Sort(quorum)| >= 2 && id in quorum && |commonSeed| >= SeedLength
    && forall i :: i in quorum && i != id ==> i in pairSeeds && |pairSeeds[i]| >= SeedLength
  }

  ghost predicate Sum512(H: Hashes) {
    forall b :: |H.sum512(b)| == 64
  }

  ghost function InitialState(H: Hashes, id: Id, quorum: seq<Id>, commonSeed: Bytes, pairSeeds: map<Id, Bytes>): State
    requires Sum512(H) && EnoughEntropy(id, quorum, commonSeed, pairSeeds)
  {
    var image := H.sum512(commonSeed);
    State(image[..32], id, Sort(quorum), InitialTape(image),
      map i | i in quorum && i != id :: PairStream(id, i, pairSeeds[i]))
  }

  function QuorumData(sorted: seq<Id>): Bytes {
    Le64(|sorted|) + QuorumMembers(sorted)
  }

  function QuorumMembers(sorted: seq<Id>): Bytes {
    if |sorted| == 0 then [] else QuorumMembers(sorted[..|sorted| - 1]) + Le64(sorted[|sorted| - 1])
  }

  /** A fresh stream keyed by the next 32 bytes of the parent's and by the new quorum. */
  function SubStream(H: Hashes, parent: Shake, quorumData: Bytes): Shake {
    Shake(Ascii(SubContextDomainSeparatorLabel), parent.Peek(H, SeedLength) + quorumData, 32)
  }

  /** Member i of a quorum is encoded in bytes 8 i to 8 i + 7, after the size. */
  lemma {:induction false} MembersAt(sorted: seq<Id>, i: nat)
    requires i < |sorted|
    ensures |QuorumMembers(sorted)| == 8 * |sorted| && QuorumMembers(sorted)[8 * i..8 * i + 8] == Le64(sorted[i])
  {
    var init := sorted[..|sorted| - 1];
    MembersLength(init);
    if i < |sorted| - 1 {
      MembersAt(init, i);
      assert QuorumMembers(sorted)[8 * i..8 * i + 8] == QuorumMembers(init)[8 * i..8 * i + 8];
    }
  }

  lemma {:induction false} MembersLength(sorted: seq<Id>)
    ensures |QuorumMembers(sorted)| == 8 * |sorted|
  {
    if |sorted| > 0 {
      MembersLength(sorted[..|sorted| - 1]);
    }
  }

  ghost predicate Small(ids: seq<Id>) {
    |ids| < Limit64 && forall i :: 0 <= i < |ids| ==> ids[i] < Limit64
  }

  /** Different quorums have different encodings. */
  lemma QuorumDataInjective(a: seq<Id>, b: seq<Id>)
    requires Small(a) && Small(b) && QuorumData(a) == QuorumData(b)
    ensures a == b
  {
    hide Le64;
    MembersLength(a);
    MembersLength(b);
    assert QuorumData(a)[8..] == QuorumMembers(a) && QuorumData(b)[8..] == QuorumMembers(b);
    forall i | 0 <= i < |a| ensures a[i] == b[i] {
      MembersAt(a, i);
      MembersAt(b, i);
      Le64Injective(a[i], b[i]);
    }
  }

  predicate ProperSubQuorum(s: State, sub: seq<Id>) {
    |Sort(sub)| >= 2 && (forall id :: id in sub ==> id in s.quorum) && s.holder in sub
  }

  ghost function SubState(H: Hashes, s: State, sub: seq<Id>): State
    requires s.Valid() && ProperSubQuorum(s, sub)
  {
    var data := QuorumData(Sort(sub));
    State(s.sid, s.holder, Sort(sub), s.tape + [(SubQuorumLabel, data)],
      map id | id in sub && id != s.holder :: SubStream(H, s.seeds[id], data))
  }

  /** A sorted quorum has two members if it has one beside a given one. */
  lemma TwoMembers(ids: seq<Id>, id: Id)
    requires id in ids
    ensures |Sort(ids)| >= 2 <==> exists i :: i in ids && i != id
  {
    SortCorrect(ids);
    var sorted := Sort(ids);
    if exists i :: i in ids && i != id {
      var i :| i in ids && i != id;
      assert i in sorted && id in sorted;
    }
    if |sorted| >= 2 {
      assert sorted[0] < sorted[1] && sorted[0] in sorted && sorted[1] in sorted;
    }
  }

  lemma EntropySpelledOut(id: Id, quorum: seq<Id>, commonSeed: Bytes, pairSeeds: map<Id, Bytes>)
    ensures EnoughEntropy(id, quorum, commonSeed, pairSeeds) <==> (
      && id >= 1 && id in quorum && (exists i :: i in quorum && i != id) && |commonSeed| >= 32
      && forall i :: i in quorum && i != id ==> i in pairSeeds && |pairSeeds[i]| >= 32)
  {
    hide Sort;
    if id in quorum {
      TwoMembers(quorum, id);
    }
  }

  /** What goes into a new context, byte by byte. */
  lemma InitialSpelledOut(H: Hashes, id: Id, quorum: seq<Id>, commonSeed: Bytes, pairSeeds: map<Id, Bytes>, c: State)
    requires Sum512(H) && EnoughEntropy(id, quorum, commonSeed, pairSeeds) && c == InitialState(H, id, quorum, commonSeed, pairSeeds)
    ensures c.sid == H.sum512(commonSeed)[..32]
      && c.tape == [("BRON_CRYPTO_SETUP_TRANSCRIPT-", []), ("BRON_CRYPTO_SETUP_TRANSCRIPT_INIT-", H.sum512(commonSeed)[32..])]
    ensures forall i :: i in quorum && i != id ==>
      && i in c.seeds && c.seeds[i].custom == Ascii("BRON_CRYPTO_SETUP_SEED_DOMAIN_SEPARATOR-") && c.seeds[i].offset == 32
      && c.seeds[i].absorbed == Le64(if id < i then id else i) + Le64(if id < i then i else id) + pairSeeds[i]
  {
    hide Ascii, Le64, Sort;
  }

  /** What goes into a sub-context, byte by byte: the next 32 bytes of the parent's stream, then the
      encoding of the sub-quorum, which the transcript gets too. */
  ghost predicate NarrowedFrom(H: Hashes, s: State, c: State, data: Bytes) {
    && c.sid == s.sid && c.holder == s.holder && c.tape == s.tape + [("BRON_CRYPTO_SETUP_SUBQUORUM-", data)]
    && |data| == 8 + 8 * |c.quorum| && data[..8] == Le64(|c.quorum|)
    && (forall i :: 0 <= i < |c.quorum| ==> data[8 + 8 * i..16 + 8 * i] == Le64(c.quorum[i]))
    && forall id :: id in c.quorum && id != c.holder ==>
         && id in s.seeds && id in c.seeds && c.seeds[id].custom == Ascii("BRON_CRYPTO_SETUP_SUBCONTEXT-") && c.seeds[id].offset == 32
         && |c.seeds[id].absorbed| == 32 + |data| && c.seeds[id].absorbed[32..] == data
         && forall k :: 0 <= k < 32 ==> c.seeds[id].absorbed[k] == H.xof(s.seeds[id].custom, s.seeds[id].absorbed, s.seeds[id].offset + k)
  }

  lemma SubSpelledOut(H: Hashes, s: State, sub: seq<Id>, c: State, data: Bytes)
    requires s.Valid() && ProperSubQuorum(s, sub) && c == SubState(H, s, sub) && data == QuorumData(Sort(sub))
    ensures NarrowedFrom(H, s, c, data)
  {
    hide Ascii, Le64, Sort, QuorumData;
    SortCorrect(sub);
    QuorumDataAt(c.quorum);
  }

  /** The size, then one member after the other. */
  lemma QuorumDataAt(sorted: seq<Id>)
    ensures var data := QuorumData(sorted);
      && |data| == 8 + 8 * |sorted| && data[..8] == Le64(|sorted|)
      && forall i :: 0 <= i < |sorted| ==> data[8 + 8 * i..16 + 8 * i] == Le64(sorted[i])
  {
    hide Le64;
    var data := QuorumData(sorted);
    MembersLength(sorted);
    forall i | 0 <= i < |sorted| ensures data[8 + 8 * i..16 + 8 * i] == Le64(sorted[i]) {
      MembersAt(sorted, i);
      assert data[8 + 8 * i..16 + 8 * i] == QuorumMembers(sorted)[8 * i..8 * i + 8];
    }
  }

  lemma SubStateValid(H: Hashes, s: State, sub: seq<Id>)
    requires s.Valid() && ProperSubQuorum(s, sub)
    ensures SubState(H, s, sub).Valid()
  {
    SortCorrect(sub);
  }

  lemma InitialStateValid(H: Hashes, id: Id, quorum: seq<Id>, commonSeed: Bytes, pairSeeds: map<Id, Bytes>)
    requires Sum512(H) && EnoughEntropy(id, quorum, commonSeed, pairSeeds)
    ensures InitialState(H, id, quorum, commonSeed, pairSeeds).Valid()
  {
    SortCorrect(quorum);
  }

  // ----- Two parties' contexts belong together

  /** Same session, transcript and quorum, and each has the same stream for the other, at the same
      position. */
  ghost predicate Paired(a: State, b: State) {
    && a.Valid() && b.Valid() && a.holder != b.holder
    && a.sid == b.sid && a.tape == b.tape && a.quorum == b.quorum
    && b.holder in a.seeds && a.holder in b.seeds && a.seeds[b.holder] == b.seeds[a.holder]
  }

  /** Contexts from one common seed and one pairwise seed are paired. */
  lemma InitialPaired(H: Hashes, p: Id, q: Id, quorum: seq<Id>, quorum': seq<Id>, commonSeed: Bytes, seeds: map<Id, Bytes>, seeds': map<Id, Bytes>)
    requires Sum512(H) && p != q && (forall x :: x in quorum <==> x in quorum')
    requires EnoughEntropy(p, quorum, commonSeed, seeds) && EnoughEntropy(q, quorum', commonSeed, seeds')
    requires seeds[q] == seeds'[p]
    ensures Paired(InitialState(H, p, quorum, commonSeed, seeds), InitialState(H, q, quorum', commonSeed, seeds'))
  {
    SortEqual(quorum, quorum');
    InitialStateValid(H, p, quorum, commonSeed, seeds);
    InitialStateValid(H, q, quorum', commonSeed, seeds');
  }

  /** Narrowing to a common sub-quorum keeps contexts paired. */
  lemma SubPaired(H: Hashes, a: State, b: State, sub: seq<Id>, sub': seq<Id>)
    requires Paired(a, b) && ProperSubQuorum(a, sub) && ProperSubQuorum(b, sub') && forall x :: x in sub <==> x in sub'
    ensures Paired(SubState(H, a, sub), SubState(H, b, sub'))
  {
    SortEqual(sub, sub');
    SubStateValid(H, a, sub);
    SubStateValid(H, b, sub');
  }

  /** What happens to a context: it is narrowed to a sub-quorum, or its transcript grows. */
  datatype Step = Narrow(sub: seq<Id>) | Append(entry: string, data: Bytes)

  predicate ProperStep(s: State, step: Step) {
    step.Narrow? ==> ProperSubQuorum(s, step.sub)
  }

  ghost function Apply(H: Hashes, s: State, step: Step): State
    requires s.Valid() && ProperStep(s, step)
  {
    match step
    case Narrow(sub) => SubState(H, s, sub)
    case Append(entry, data) => s.(tape := s.tape + [(entry, data)])
  }

  lemma ApplyValid(H: Hashes, s: State, step: Step)
    requires s.Valid() && ProperStep(s, step)
    ensures Apply(H, s, step).Valid()
  {
    if step.Narrow? {
      SubStateValid(H, s, step.sub);
    }
  }

  ghost predicate ProperChain(H: Hashes, s: State, steps: seq<Step>)
    requires s.Valid()
    decreases |steps|, 0
  {
    |steps| == 0 ||
    (var init := steps[..|steps| - 1];
     ProperChain(H, s, init) && Chain(H, s, init).Valid() && ProperStep(Chain(H, s, init), steps[|steps| - 1]))
  }

  /** The context after a chain of steps. */
  ghost function Chain(H: Hashes, s: State, steps: seq<Step>): State
    requires s.Valid() && ProperChain(H, s, steps)
    decreases |steps|, 1
  {
    if |steps| == 0 then s else Apply(H, Chain(H, s, steps[..|steps| - 1]), steps[|steps| - 1])
  }

  /** Both parties narrow to the same set, or append the same entry. */
  ghost predicate SameStep(a: Step, b: Step) {
    match a
    case Narrow(sub) => b.Narrow? && forall x :: x in sub <==> x in b.sub
    case Append(_, _) => a == b
  }

  lemma StepPaired(H: Hashes, a: State, b: State, s: Step, s': Step)
    requires Paired(a, b) && ProperStep(a, s) && ProperStep(b, s') && SameStep(s, s')
    ensures Paired(Apply(H, a, s), Apply(H, b, s'))
  {
    if s.Narrow? {
      SubPaired(H, a, b, s.sub, s'.sub);
    }
  }

  /** Pairing survives any chain of narrowings and transcript entries. */
  lemma {:induction false} ChainPaired(H: Hashes, a: State, b: State, steps: seq<Step>, steps': seq<Step>)
    requires Paired(a, b) && ProperChain(H, a, steps) && ProperChain(H, b, steps') && |steps| == |steps'|
    requires forall k :: 0 <= k < |steps| ==> SameStep(steps[k], steps'[k])
    ensures Paired(Chain(H, a, steps), Chain(H, b, steps'))
    decreases |steps|
  {
    if |steps| > 0 {
      var n := |steps| - 1;
      ChainPaired(H, a, b, steps[..n], steps'[..n]);
      StepPaired(H, Chain(H, a, steps[..n]), Chain(H, b, steps'[..n]), steps[n], steps'[n]);
    }
  }

  // ----- The operations

  method EncodeMembers(sorted: seq<Id>) returns (members: Bytes)
    ensures members == QuorumMembers(sorted)
  {
    members := [];
    for i := 0 to |sorted|
      invariant members == QuorumMembers(sorted[..i])
    {
      assert sorted[..i + 1][..i] == sorted[..i];
      members := members + Le64(sorted[i]);
    }
    assert sorted[..|sorted|] == sorted;
  }

  /** Derives a stream for every other party, reading each parent stream through a copy. */
  method SubStreams(H: Hashes, seeds: map<Id, Shake>, sorted: seq<Id>, holder: Id, data: Bytes) returns (r: map<Id, Shake>)
    requires forall id :: id in sorted && id != holder ==> id in seeds
    ensures r == map id | id in sorted && id != holder :: SubStream(H, seeds[id], data)
  {
    hide Ascii;
    r := map[];
    for i := 0 to |sorted|
      invariant forall id :: id in r <==> id in sorted[..i] && id != holder
      invariant forall id :: id in r ==> id in seeds && r[id] == SubStream(H, seeds[id], data)
    {
      var id := sorted[i];
      if id != holder {
        var clone := seeds[id];
        var seed := clone.Peek(H, SeedLength);
        r := r[id := Shake(Ascii(SubContextDomainSeparatorLabel), seed + data, 0).Skip(32)];
      }
    }
  }

  method PairStreams(id: Id, sorted: seq<Id>, pairSeeds: map<Id, Bytes>) returns (seeds: map<Id, Shake>)
    requires forall i :: i in sorted && i != id ==> i in pairSeeds
    ensures seeds == map i | i in sorted && i != id :: PairStream(id, i, pairSeeds[i])
  {
    hide Ascii, Le64;
    seeds := map[];
    for k := 0 to |sorted|
      invariant forall i :: i in seeds <==> i in sorted[..k] && i != id
      invariant forall i :: i in seeds ==> i in pairSeeds && seeds[i] == PairStream(id, i, pairSeeds[i])
    {
      var i := sorted[k];
      if i != id {
        var seed := Shake(Ascii(SeedDomainSeparatorLabel), Le64(Min(id, i)), 0);
        seed := seed.(absorbed := seed.absorbed + Le64(Max(id, i)));
        seed := seed.(absorbed := seed.absorbed + pairSeeds[i]);
        seeds := seeds[i := seed.Skip(32)];
      }
    }
  }

  class Context {
    const H: Hashes
    const sid: Bytes
    const holder: Id
    const quorum: seq<Id>
    var tape: Tape
    var seeds: map<Id, Shake>

    ghost function Value(): State
      reads this
    {
      State(sid, holder, quorum, tape, seeds)
    }

    constructor Make(H: Hashes, sid: Bytes, holder: Id, quorum: seq<Id>, tape: Tape, seeds: map<Id, Shake>)
      ensures this.H == H && Value() == State(sid, holder, quorum, tape, seeds)
    {
      this.H, this.sid, this.holder, this.quorum, this.tape, this.seeds := H, sid, holder, quorum, tape, seeds;
    }

    /** Appends to the session transcript. */
    method AppendBytes(entry: string, data: Bytes)
      modifies this
      ensures Value() == old(Value()).(tape := old(tape) + [(entry, data)])
    {
      tape := tape + [(entry, data)];
    }

    /** A context for part of the quorum. The parent is not touched: its streams do not advance. */
    method SubContext(sub: seq<Id>) returns (r: Option<Context>)
      requires Value().Valid()
      ensures r.Some? <==> ProperSubQuorum(Value(), sub)
      ensures r.Some? ==> fresh(r.value) && r.value.H == H && r.value.Value() == SubState(H, Value(), sub) && r.value.Value().Valid()
      // the same, byte by byte
      ensures r.Some? <==> holder in sub && (exists i :: i in sub && i != holder) && forall i :: i in sub ==> i in quorum
      ensures r.Some? ==> |r.value.tape| > 0 && NarrowedFrom(H, Value(), r.value.Value(), r.value.tape[|r.value.tape| - 1].1)
    {
      hide Ascii, Le64, Sort, SubStream, Ascending, QuorumMembers, NarrowedFrom;
      if holder in sub {
        TwoMembers(sub, holder);
      }
      var sorted := Sort(sub);
      if |sorted| < 2 || !(forall id :: id in sub ==> id in quorum) || holder !in sub {
        return None;
      }
      SortCorrect(sub);
      SubStateValid(H, Value(), sub);
      var members := EncodeMembers(sorted);
      var data := Le64(|sorted|) + members;
      var subSeeds := SubStreams(H, seeds, sorted, holder, data);
      var c := new Context.Make(H, sid, holder, sorted, tape + [(SubQuorumLabel, data)], subSeeds);
      assert subSeeds == SubState(H, Value(), sub).seeds;
      SubSpelledOut(H, Value(), sub, c.Value(), data);
      r := Some(c);
    }

    /** An independent copy, streams at the same positions. */
    method Clone() returns (c: Context)
      ensures fresh(c) && c.H == H && c.Value() == Value()
    {
      c := new Context.Make(H, sid, holder, quorum, tape, seeds);
    }
  }

  method NewContext(H: Hashes, id: Id, quorum: seq<Id>, commonSeed: Bytes, pairSeeds: map<Id, Bytes>) returns (r: Option<Context>)
    requires Sum512(H)
    ensures r.Some? <==> EnoughEntropy(id, quorum, commonSeed, pairSeeds)
    ensures r.Some? ==> fresh(r.value) && r.value.H == H && r.value.Value() == InitialState(H, id, quorum, commonSeed, pairSeeds) && r.value.Value().Valid()
    // the same, byte by byte
    ensures r.Some? <==> (id >= 1 && id in quorum && (exists i :: i in quorum && i != id) && |commonSeed| >= 32
      && forall i :: i in quorum && i != id ==> i in pairSeeds && |pairSeeds[i]| >= 32)
    ensures r.Some? ==> (r.value.sid == H.sum512(commonSeed)[..32]
      && r.value.tape == [("BRON_CRYPTO_SETUP_TRANSCRIPT-", []), ("BRON_CRYPTO_SETUP_TRANSCRIPT_INIT-", H.sum512(commonSeed)[32..])])
    ensures r.Some? ==> (forall i :: i in quorum && i != id ==>
      && i in r.value.seeds && r.value.seeds[i].custom == Ascii("BRON_CRYPTO_SETUP_SEED_DOMAIN_SEPARATOR-") && r.value.seeds[i].offset == 32
      && r.value.seeds[i].absorbed == Le64(if id < i then id else i) + Le64(if id < i then i else id) + pairSeeds[i])
  {
    hide Ascii, Le64, Sort, PairStream, Ascending;
    EntropySpelledOut(id, quorum, commonSeed, pairSeeds);
    if !EnoughEntropy(id, quorum, commonSeed, pairSeeds) {
      return None;
    }
    InitialStateValid(H, id, quorum, commonSeed, pairSeeds);
    var image := H.sum512(commonSeed);
    var sorted := Sort(quorum);
    SortCorrect(quorum);
    var seeds := PairStreams(id, sorted, pairSeeds);
    var c := new Context.Make(H, image[..32], id, sorted, InitialTape(image), seeds);
    assert seeds == InitialState(H, id, quorum, commonSeed, pairSeeds).seeds;
    InitialSpelledOut(H, id, quorum, commonSeed, pairSeeds, c.Value());
    r := Some(c);
  }

  /** Two contexts narrowed: their streams for a common peer differ as soon as the parents' next 32 bytes
      do, or the sub-quorums; and different sub-quorums leave different transcripts. */
  method NarrowApart(c: Context, d: Context, sub: seq<Id>, sub': seq<Id>, peer: Id) returns (a: Option<Context>, b: Option<Context>)
    requires c.Value().Valid() && d.Value().Valid() && c.H == d.H && Small(sub) && Small(sub')
    requires peer in sub && peer != c.holder && peer in sub' && peer != d.holder
    ensures a.Some? && b.Some? ==> peer in a.value.seeds && peer in b.value.seeds && peer in c.seeds && peer in d.seeds
    ensures a.Some? && b.Some? && c.seeds[peer].Peek(c.H, 32) != d.seeds[peer].Peek(d.H, 32) ==> a.value.seeds[peer] != b.value.seeds[peer]
    ensures a.Some? && b.Some? && (exists x :: x in sub <==> x !in sub') ==>
      a.value.seeds[peer] != b.value.seeds[peer] && a.value.tape != b.value.tape
  {
    hide Ascii, Le64, Sort, QuorumMembers, SubState, NarrowedFrom, ProperSubQuorum, Ascending;
    a := c.SubContext(sub);
    b := d.SubContext(sub');
    if a.Some? && b.Some? {
      SubStreamsApart(c.H, c.Value(), d.Value(), sub, sub', a.value.Value(), b.value.Value(), peer);
      if exists x :: x in sub <==> x !in sub' {
        SubQuorumsApart(c.H, c.Value(), d.Value(), sub, sub', a.value.Value(), b.value.Value(), peer);
      }
    }
  }

  lemma SubStreamsApart(H: Hashes, s: State, s': State, sub: seq<Id>, sub': seq<Id>, c: State, c': State, peer: Id)
    requires s.Valid() && s'.Valid() && ProperSubQuorum(s, sub) && ProperSubQuorum(s', sub')
    requires c == SubState(H, s, sub) && c' == SubState(H, s', sub')
    requires peer in sub && peer in sub' && peer != s.holder && peer != s'.holder
    ensures peer in c.seeds && peer in c'.seeds && peer in s.seeds && peer in s'.seeds
    ensures s.seeds[peer].Peek(H, 32) != s'.seeds[peer].Peek(H, 32) ==> c.seeds[peer] != c'.seeds[peer]
  {
    hide Ascii, Le64, QuorumMembers, QuorumData;
    SubSpelledOut(H, s, sub, c, QuorumData(Sort(sub)));
    SubSpelledOut(H, s', sub', c', QuorumData(Sort(sub')));
    SortCorrect(sub);
    SortCorrect(sub');
    assert s.seeds[peer].Peek(H, 32) == c.seeds[peer].absorbed[..32] && s'.seeds[peer].Peek(H, 32) == c'.seeds[peer].absorbed[..32];
  }

  lemma SubQuorumsApart(H: Hashes, s: State, s': State, sub: seq<Id>, sub': seq<Id>, c: State, c': State, peer: Id)
    requires s.Valid() && s'.Valid() && ProperSubQuorum(s, sub) && ProperSubQuorum(s', sub') && Small(sub) && Small(sub')
    requires c == SubState(H, s, sub) && c' == SubState(H, s', sub')
    requires peer in sub && peer in sub' && peer != s.holder && peer != s'.holder
    requires exists x :: x in sub <==> x !in sub'
    ensures peer in c.seeds && peer in c'.seeds && c.seeds[peer] != c'.seeds[peer] && c.tape != c'.tape
  {
    hide Ascii, Le64, QuorumMembers, QuorumData;
    var data, data' := QuorumData(Sort(sub)), QuorumData(Sort(sub'));
    SubSpelledOut(H, s, sub, c, data);
    SubSpelledOut(H, s', sub', c', data');
    SmallSorted(sub);
    SmallSorted(sub');
    SortCorrect(sub);
    SortCorrect(sub');
    if data == data' {
      QuorumDataInjective(Sort(sub), Sort(sub'));
      assert false;
    }
    assert c.tape[|c.tape| - 1].1 == data && c'.tape[|c'.tape| - 1].1 == data';
  }

  lemma {:induction false} SmallSorted(ids: seq<Id>)
    requires Small(ids)
    ensures Small(Sort(ids))
  {
    SortCorrect(ids);
    SortShorter(ids);
    forall i | 0 <= i < |Sort(ids)| ensures Sort(ids)[i] < Limit64 {
      assert Sort(ids)[i] in ids;
    }
  }

  lemma {:induction false} SortShorter(ids: seq<Id>)
    ensures |Sort(ids)| <= |ids|
  {
    if |ids| > 0 {
      SortShorter(ids[1..]);
      InsertLength(ids[0], Sort(ids[1..]));
    }
  }

  lemma {:induction false} InsertLength(x: Id, ids: seq<Id>)
    ensures |Insert(x, ids)| <= |ids| + 1
  {
    if |ids| > 0 {
      InsertLength(x, ids[1..]);
    }
  }

  /** Takes a copy of a context through a chain of steps; the original and its streams stay as they are. */
  method Advance(c: Context, steps: seq<Step>) returns (r: Option<Context>)
    requires c.Value().Valid()
    ensures r.Some? <==> ProperChain(c.H, c.Value(), steps)
    ensures r.Some? ==> fresh(r.value) && r.value.H == c.H && r.value.Value() == Chain(c.H, c.Value(), steps)
  {
    hide SubState, ProperSubQuorum;
    ghost var s := c.Value();
    var cur := c.Clone();
    assert steps[..0] == [];
    for i := 0 to |steps|
      invariant c.Value() == s && fresh(cur) && cur.H == c.H && cur.Value().Valid()
      invariant ProperChain(c.H, s, steps[..i]) && cur.Value() == Chain(c.H, s, steps[..i])
    {
      assert steps[..i + 1][..i] == steps[..i];
      if !ProperStep(State(cur.sid, cur.holder, cur.quorum, cur.tape, cur.seeds), steps[i]) {
        ImproperPrefix(c.H, s, steps, i + 1);
        return None;
      }
      ApplyValid(c.H, cur.Value(), steps[i]);
      match steps[i]
      case Narrow(sub) =>
        var next := cur.SubContext(sub);
        cur := next.value;
      case Append(entry, data) =>
        cur.AppendBytes(entry, data);
    }
    assert steps[..|steps|] == steps;
    r := Some(cur);
  }

  /** A chain is proper only if all its beginnings are. */
  lemma {:induction false} ImproperPrefix(H: Hashes, s: State, steps: seq<Step>, k: nat)
    requires s.Valid() && k <= |steps| && !ProperChain(H, s, steps[..k])
    ensures !ProperChain(H, s, steps)
    decreases |steps| - k
  {
    if k == |steps| {
      assert steps[..k] == steps;
    } else {
      assert steps[..k + 1][..k] == steps[..k];
      ImproperPrefix(H, s, steps, k + 1);
    }
  }
}
