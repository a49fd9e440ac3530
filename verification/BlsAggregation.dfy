/** BLS aggregate verification (pkg/signatures/bls): the fast path for one repeated message against
    the general multi-pairing (sections 2.7, 2.9 and 3.3.4 of draft-irtf-cfrg-bls-signature-05). */
module BlsAggregation {
  import opened Options
  import opened Groups
  import opened Modules
  import Lifting

  type Bytes = seq<bv8>

  /** Keys and signatures live in two curves, abelian groups as a whole, with a pairing between their
      prime-order subgroups; all facts about the pairing, and about how the scalar action agrees with
      it, are facts about subgroup points only. */
  datatype Pairing<!K(!new), !G(!new), !T(!new), !S(!new)> = Pairing(
    keys: Module<K, S>, sigs: Module<G, S>, target: Group<T>, generator: K,
    keyTorsionFree: K -> bool, sigTorsionFree: G -> bool, e: (G, K) -> T, hash: (string, Bytes) -> G, keyBytes: K -> Bytes)
  {
    ghost predicate KeyClosed(a: K, b: K) { keyTorsionFree(a) && keyTorsionFree(b) ==> keyTorsionFree(keys.op(a, b)) && keyTorsionFree(keys.neg(a)) }
    ghost predicate SigClosed(a: G, b: G) { sigTorsionFree(a) && sigTorsionFree(b) ==> sigTorsionFree(sigs.op(a, b)) && sigTorsionFree(sigs.neg(a)) }
    ghost predicate ActClosed(c: S, a: G, k: K) { (sigTorsionFree(a) ==> sigTorsionFree(sigs.act(c, a))) && (keyTorsionFree(k) ==> keyTorsionFree(keys.act(c, k))) }
    ghost predicate HashClosed(dst: string, m: Bytes) { sigTorsionFree(hash(dst, m)) }
    ghost predicate LinearSig(a: G, b: G, k: K) { sigTorsionFree(a) && sigTorsionFree(b) && keyTorsionFree(k) ==> e(sigs.op(a, b), k) == target.mul(e(a, k), e(b, k)) }
    ghost predicate LinearKey(a: G, k: K, l: K) { sigTorsionFree(a) && keyTorsionFree(k) && keyTorsionFree(l) ==> e(a, keys.op(k, l)) == target.mul(e(a, k), e(a, l)) }
    ghost predicate Balanced(c: S, a: G, k: K) { sigTorsionFree(a) && keyTorsionFree(k) ==> e(sigs.act(c, a), k) == e(a, keys.act(c, k)) }
    ghost predicate NonDegenerate(a: G) { sigTorsionFree(a) && e(a, generator) == target.one ==> a == sigs.id }

    ghost predicate Lawful() {
      && keys.Abelian() && sigs.Abelian() && target.Lawful()
      && keyTorsionFree(generator) && keyTorsionFree(keys.id) && sigTorsionFree(sigs.id)
      && (forall a, b :: KeyClosed(a, b)) && (forall a, b :: SigClosed(a, b)) && (forall c, a, k :: ActClosed(c, a, k))
      && (forall dst, m :: HashClosed(dst, m))
      && (forall a, b, k :: LinearSig(a, b, k)) && (forall a, k, l :: LinearKey(a, k, l))
      && (forall c, a, k :: Balanced(c, a, k))
      && (forall a :: NonDegenerate(a))
    }

    lemma PairIdentityKey(a: G)
      requires Lawful() && sigTorsionFree(a)
      ensures e(a, keys.id) == target.one
    {
      assert keys.OpId(keys.id) && LinearKey(a, keys.id, keys.id);
      target.OneMul(e(a, keys.id));
      target.Cancel(e(a, keys.id), target.one, e(a, keys.id));
    }

    lemma PairIdentitySig(k: K)
      requires Lawful() && keyTorsionFree(k)
      ensures e(sigs.id, k) == target.one
    {
      assert sigs.OpId(sigs.id) && LinearSig(sigs.id, sigs.id, k);
      target.OneMul(e(sigs.id, k));
      target.Cancel(e(sigs.id, k), target.one, e(sigs.id, k));
    }

    lemma PairNegKey(a: G, k: K)
      requires Lawful() && sigTorsionFree(a) && keyTorsionFree(k)
      ensures target.mul(e(a, k), e(a, keys.neg(k))) == target.one
    {
      assert keys.OpNeg(k) && KeyClosed(k, k) && LinearKey(a, k, keys.neg(k));
      PairIdentityKey(a);
    }

    lemma PairNegSig(a: G, k: K)
      requires Lawful() && sigTorsionFree(a) && keyTorsionFree(k)
      ensures target.mul(e(a, k), e(sigs.neg(a), k)) == target.one
    {
      assert sigs.OpNeg(a) && SigClosed(a, a) && LinearSig(a, sigs.neg(a), k);
      PairIdentitySig(k);
    }
  }

  // ----- Multi-pairings and sums

  /** The product of the pairings of corresponding entries. */
  function MultiPair<K(!new), G(!new), T(!new), S(!new)>(P: Pairing<K, G, T, S>, gs: seq<G>, ks: seq<K>): T
    requires |gs| == |ks|
  {
    if |gs| == 0 then P.target.one else P.target.mul(P.e(gs[0], ks[0]), MultiPair(P, gs[1..], ks[1..]))
  }

  lemma {:induction false} MultiPairLast<K(!new), G(!new), T(!new), S(!new)>(P: Pairing<K, G, T, S>, gs: seq<G>, ks: seq<K>, g: G, k: K)
    requires P.target.Lawful() && |gs| == |ks|
    ensures MultiPair(P, gs + [g], ks + [k]) == P.target.mul(MultiPair(P, gs, ks), P.e(g, k))
  {
    if |gs| == 0 {
      P.target.OneMul(P.e(g, k));
      assert P.target.One(P.e(g, k));
    } else {
      assert (gs + [g])[1..] == gs[1..] + [g] && (ks + [k])[1..] == ks[1..] + [k];
      MultiPairLast(P, gs[1..], ks[1..], g, k);
      assert P.target.Assoc(P.e(gs[0], ks[0]), MultiPair(P, gs[1..], ks[1..]), P.e(g, k));
    }
  }

  ghost function Sum<E(!new), S(!new)>(M: Module<E, S>, xs: seq<E>): E {
    if |xs| == 0 then M.id else M.op(xs[0], Sum(M, xs[1..]))
  }

  lemma {:induction false} SumLast<E(!new), S(!new)>(M: Module<E, S>, xs: seq<E>, y: E)
    requires M.Abelian()
    ensures Sum(M, xs + [y]) == M.op(Sum(M, xs), y)
  {
    if |xs| == 0 {
      M.IdOp(y);
      assert M.OpId(y);
    } else {
      assert (xs + [y])[1..] == xs[1..] + [y];
      SumLast(M, xs[1..], y);
      assert M.OpAssoc(xs[0], Sum(M, xs[1..]), y);
    }
  }

  ghost predicate KeysTorsionFree<K(!new), G(!new), T(!new), S(!new)>(P: Pairing<K, G, T, S>, ks: seq<K>) {
    forall i :: 0 <= i < |ks| ==> P.keyTorsionFree(ks[i])
  }

  /** Pairing one point with many keys is pairing it with their sum. */
  lemma {:induction false} PairSum<K(!new), G(!new), T(!new), S(!new)>(P: Pairing<K, G, T, S>, g: G, ks: seq<K>)
    requires P.Lawful() && P.sigTorsionFree(g) && KeysTorsionFree(P, ks)
    ensures P.keyTorsionFree(Sum(P.keys, ks))
    ensures MultiPair(P, seq(|ks|, i => g), ks) == P.e(g, Sum(P.keys, ks))
  {
    if |ks| == 0 {
      P.PairIdentityKey(g);
    } else {
      PairSum(P, g, ks[1..]);
      assert seq(|ks|, i => g)[1..] == seq(|ks[1..]|, i => g);
      assert P.LinearKey(g, ks[0], Sum(P.keys, ks[1..])) && P.KeyClosed(ks[0], Sum(P.keys, ks[1..]));
    }
  }

  // ----- Core verification

  /** A nil message reads as the empty one when hashed or printed. */
  function Text(m: Option<Bytes>): Bytes {
    if m.Some? then m.value else []
  }

  /** e(H(m), pk) == e(sig, g) */
  ghost predicate SingleEquation<K(!new), G(!new), T(!new), S(!new)>(P: Pairing<K, G, T, S>, dst: string, key: K, m: Bytes, sig: G) {
    P.e(P.hash(dst, m), key) == P.e(sig, P.generator)
  }

  /** prod e(H(m_i), pk_i) == e(sig, g) */
  ghost predicate Equation<K(!new), G(!new), T(!new), S(!new)>(P: Pairing<K, G, T, S>, dst: string, ks: seq<K>, ms: seq<Option<Bytes>>, sig: G)
    requires |ks| == |ms|
  {
    MultiPair(P, Hashes(P, dst, ms), ks) == P.e(sig, P.generator)
  }

  function Hashes<K(!new), G(!new), T(!new), S(!new)>(P: Pairing<K, G, T, S>, dst: string, ms: seq<Option<Bytes>>): (r: seq<G>)
    ensures |r| == |ms|
  {
    seq(|ms|, i requires 0 <= i < |ms| => P.hash(dst, Text(ms[i])))
  }

  /** One pairing product against the negated key. */
  method CoreVerify<K(==, !new), G(==, !new), T(==, !new), S(!new)>(P: Pairing<K, G, T, S>, key: K, m: Option<Bytes>, sig: G, dst: string) returns (ok: bool)
    requires P.Lawful()
    ensures ok <==>
      && m.Some? && dst != "" && sig != P.sigs.id && P.sigTorsionFree(sig) && key != P.keys.id && P.keyTorsionFree(key)
      && P.e(P.hash(dst, m.value), key) == P.e(sig, P.generator)
  {
    if m.None? || dst == "" || sig == P.sigs.id || !P.sigTorsionFree(sig) || key == P.keys.id || !P.keyTorsionFree(key) {
      return false;
    }
    var h := P.hash(dst, m.value);
    assert P.HashClosed(dst, m.value);
    var out := MultiPair(P, [h, sig], [P.keys.neg(key), P.generator]);
    MultiPairTwo(P, h, P.keys.neg(key), sig, P.generator);
    P.PairNegKey(h, key);
    var a, b := P.e(h, P.keys.neg(key)), P.e(sig, P.generator);
    assert P.target.Comm(a, b);
    P.target.InverseUnique(b, a, P.e(h, key));
    ok := out == P.target.one;
  }

  lemma MultiPairTwo<K(!new), G(!new), T(!new), S(!new)>(P: Pairing<K, G, T, S>, g: G, k: K, h: G, l: K)
    requires P.target.Lawful()
    ensures MultiPair(P, [g, h], [k, l]) == P.target.mul(P.e(g, k), P.e(h, l))
  {
    assert [g, h] == [g] + [h] && [k, l] == [k] + [l];
    MultiPairLast(P, [g], [k], h, l);
    assert P.target.One(P.e(g, k));
  }

  ghost predicate NonNil(ms: seq<Option<Bytes>>) {
    forall i :: 0 <= i < |ms| ==> ms[i].Some?
  }

  ghost predicate GoodKeys<K(!new), G(!new), T(!new), S(!new)>(P: Pairing<K, G, T, S>, ks: seq<K>) {
    forall i :: 0 <= i < |ks| ==> ks[i] != P.keys.id && P.keyTorsionFree(ks[i])
  }

  /** The general multi-pairing against the negated signature. */
  method CoreAggregateVerify<K(==, !new), G(==, !new), T(==, !new), S(!new)>(P: Pairing<K, G, T, S>, ks: seq<K>, ms: seq<Option<Bytes>>, sig: G, dst: string) returns (ok: bool)
    requires P.Lawful()
    ensures ok <==>
      && |ks| > 0 && |ks| == |ms| && dst != "" && sig != P.sigs.id && P.sigTorsionFree(sig)
      && NonNil(ms) && GoodKeys(P, ks) && Equation(P, dst, ks, ms, sig)
  {
    if |ks| == 0 || |ks| != |ms| || dst == "" || sig == P.sigs.id || !P.sigTorsionFree(sig) {
      return false;
    }
    var gs: seq<G> := [];
    for i := 0 to |ks|
      invariant forall k :: 0 <= k < i ==> ms[k].Some? && ks[k] != P.keys.id && P.keyTorsionFree(ks[k])
      invariant gs == Hashes(P, dst, ms)[..i]
    {
      if ms[i].None? || ks[i] == P.keys.id || !P.keyTorsionFree(ks[i]) {
        return false;
      }
      gs := gs + [P.hash(dst, Text(ms[i]))];
    }
    assert gs == Hashes(P, dst, ms);
    var out := MultiPair(P, gs + [P.sigs.neg(sig)], ks + [P.generator]);
    MultiPairLast(P, gs, ks, P.sigs.neg(sig), P.generator);
    P.PairNegSig(sig, P.generator);
    P.target.InverseUnique(MultiPair(P, gs, ks), P.e(P.sigs.neg(sig), P.generator), P.e(sig, P.generator));
    ok := out == P.target.one;
  }

  /** The sum of the keys. */
  method AggregateKeys<K(!new), G(!new), T(!new), S(!new)>(P: Pairing<K, G, T, S>, ks: seq<K>) returns (sum: K)
    requires P.Lawful() && |ks| > 0
    ensures sum == Sum(P.keys, ks)
  {
    sum := ks[0];
    assert P.keys.OpId(ks[0]) && Sum(P.keys, ks[..1]) == P.keys.op(ks[0], P.keys.id);
    for i := 1 to |ks|
      invariant sum == Sum(P.keys, ks[..i])
    {
      assert ks[..i + 1] == ks[..i] + [ks[i]];
      SumLast(P.keys, ks[..i], ks[i]);
      sum := P.keys.op(sum, ks[i]);
    }
    assert ks[..|ks|] == ks;
  }

  // ----- Fast against general

  ghost predicate SameText(ms: seq<Option<Bytes>>) {
    forall i, j :: 0 <= i < |ms| && 0 <= j < |ms| ==> Text(ms[i]) == Text(ms[j])
  }

  /** For one repeated message the general equation is the single equation for the summed key. */
  lemma RepeatedEquation<K(!new), G(!new), T(!new), S(!new)>(P: Pairing<K, G, T, S>, dst: string, ks: seq<K>, ms: seq<Option<Bytes>>, sig: G)
    requires P.Lawful() && |ks| == |ms| > 0 && SameText(ms) && GoodKeys(P, ks)
    ensures P.keyTorsionFree(Sum(P.keys, ks))
    ensures Equation(P, dst, ks, ms, sig) <==> SingleEquation(P, dst, Sum(P.keys, ks), Text(ms[0]), sig)
  {
    var h := P.hash(dst, Text(ms[0]));
    assert P.HashClosed(dst, Text(ms[0]));
    assert Hashes(P, dst, ms) == seq(|ks|, i => h);
    PairSum(P, h, ks);
  }

  /** A proper signature never satisfies the equation when the keys cancel out. */
  lemma CancellingKeys<K(!new), G(!new), T(!new), S(!new)>(P: Pairing<K, G, T, S>, dst: string, m: Bytes, sig: G)
    requires P.Lawful() && P.sigTorsionFree(sig) && sig != P.sigs.id
    ensures !SingleEquation(P, dst, P.keys.id, m, sig)
  {
    assert P.HashClosed(dst, m);
    P.PairIdentityKey(P.hash(dst, m));
    assert P.NonDegenerate(sig);
  }

  ghost predicate FastAccepts<K(!new), G(!new), T(!new), S(!new)>(P: Pairing<K, G, T, S>, dst: string, ks: seq<K>, ms: seq<Option<Bytes>>, sig: G)
    requires |ms| > 0
  {
    ms[0].Some? && Sum(P.keys, ks) != P.keys.id && P.keyTorsionFree(Sum(P.keys, ks)) && SingleEquation(P, dst, Sum(P.keys, ks), Text(ms[0]), sig)
  }

  ghost predicate GeneralAccepts<K(!new), G(!new), T(!new), S(!new)>(P: Pairing<K, G, T, S>, dst: string, ks: seq<K>, ms: seq<Option<Bytes>>, sig: G)
    requires |ks| == |ms|
  {
    NonNil(ms) && Equation(P, dst, ks, ms, sig)
  }

  /** For valid keys and signature and messages that read the same, the general path accepts
      exactly when the fast path does and no message is nil -- even when the keys cancel out.
      The paths therefore differ only when an empty first message is mixed with nil ones. */
  lemma FastAgainstGeneral<K(!new), G(!new), T(!new), S(!new)>(P: Pairing<K, G, T, S>, dst: string, ks: seq<K>, ms: seq<Option<Bytes>>, sig: G)
    requires P.Lawful() && |ks| == |ms| > 0 && SameText(ms) && GoodKeys(P, ks) && P.sigTorsionFree(sig) && sig != P.sigs.id
    ensures GeneralAccepts(P, dst, ks, ms, sig) <==> FastAccepts(P, dst, ks, ms, sig) && NonNil(ms)
    ensures (GeneralAccepts(P, dst, ks, ms, sig) <==> FastAccepts(P, dst, ks, ms, sig)) || (ms[0] == Some([]) && None in ms)
  {
    RepeatedEquation(P, dst, ks, ms, sig);
    CancellingKeys(P, dst, Text(ms[0]), sig);
    if !NonNil(ms) && ms[0].Some? {
      var i :| 0 <= i < |ms| && ms[i].None?;
      assert Text(ms[i]) == Text(ms[0]);
      assert ms[i] in ms;
    }
  }

  // ----- The verifier

  datatype Scheme = Basic | MessageAugmentation | ProofOfPossession

  ghost predicate DistinctTexts(ms: seq<Option<Bytes>>) {
    forall i, j :: 0 <= i < j < |ms| ==> Text(ms[i]) != Text(ms[j])
  }

  /** The messages that are actually verified: prefixed with the key under augmentation. */
  function Processed<K(!new), G(!new), T(!new), S(!new)>(P: Pairing<K, G, T, S>, scheme: Scheme, ks: seq<K>, ms: seq<Option<Bytes>>): (r: seq<Option<Bytes>>)
    requires |ks| == |ms|
    ensures |r| == |ms|
  {
    if scheme.MessageAugmentation? then seq(|ms|, i requires 0 <= i < |ms| => Some(P.keyBytes(ks[i]) + Text(ms[i]))) else ms
  }

  ghost predicate PopsValid<K(!new), G(!new), T(!new), S(!new)>(P: Pairing<K, G, T, S>, popDst: string, ks: seq<K>, pops: seq<G>) {
    && |ks| == |pops|
    && forall i :: 0 <= i < |ks| ==> PopValid(P, popDst, ks[i], pops[i])
  }

  ghost predicate PopValid<K(!new), G(!new), T(!new), S(!new)>(P: Pairing<K, G, T, S>, popDst: string, k: K, pop: G) {
    && popDst != "" && pop != P.sigs.id && P.sigTorsionFree(pop) && k != P.keys.id && P.keyTorsionFree(k)
    && SingleEquation(P, popDst, k, P.keyBytes(k), pop)
  }

  ghost predicate SchemeAllows<K(!new), G(!new), T(!new), S(!new)>(P: Pairing<K, G, T, S>, scheme: Scheme, popDst: string, ks: seq<K>, ms: seq<Option<Bytes>>, pops: seq<G>) {
    match scheme
    case Basic => pops == [] && DistinctTexts(ms)
    case MessageAugmentation => pops == []
    case ProofOfPossession => PopsValid(P, popDst, ks, pops)
  }

  /** What the scheme's condition, the equation and the ban on nil messages come to. */
  lemma SchemesSpelledOut<K(!new), G(!new), T(!new), S(!new)>(
      P: Pairing<K, G, T, S>, scheme: Scheme, popDst: string, d: string, ks: seq<K>, ms: seq<Option<Bytes>>, pops: seq<G>, sig: G)
    requires |ks| == |ms| > 0 && GoodKeys(P, ks) && popDst != ""
    ensures
      (SchemeAllows(P, scheme, popDst, ks, ms, pops) && Equation(P, d, ks, Processed(P, scheme, ks, ms), sig)
       && (NonNil(Processed(P, scheme, ks, ms)) || (scheme.ProofOfPossession? && SameText(ms) && ms[0] == Some([]))))
      <==>
      match scheme
      case Basic =>
        && pops == [] && (forall i :: 0 <= i < |ms| ==> ms[i].Some?) && (forall i, j :: 0 <= i < j < |ms| ==> ms[i] != ms[j])
        && MultiPair(P, seq(|ms|, i requires 0 <= i < |ms| => P.hash(d, if ms[i].Some? then ms[i].value else [])), ks) == P.e(sig, P.generator)
      case MessageAugmentation =>
        pops == [] && MultiPair(P, seq(|ms|, i requires 0 <= i < |ms| => P.hash(d, P.keyBytes(ks[i]) + (if ms[i].Some? then ms[i].value else []))), ks) == P.e(sig, P.generator)
      case ProofOfPossession =>
        && |pops| == |ks|
        && (forall i :: 0 <= i < |ks| ==> pops[i] != P.sigs.id && P.sigTorsionFree(pops[i]) && P.e(P.hash(popDst, P.keyBytes(ks[i])), ks[i]) == P.e(pops[i], P.generator))
        && MultiPair(P, seq(|ms|, i requires 0 <= i < |ms| => P.hash(d, if ms[i].Some? then ms[i].value else [])), ks) == P.e(sig, P.generator)
        && ((forall i :: 0 <= i < |ms| ==> ms[i].Some?) || (ms[0] == Some([]) && forall i :: 0 <= i < |ms| ==> ms[i] == None || ms[i] == Some([])))
  {
    hide MultiPair;
    var plain := seq(|ms|, i requires 0 <= i < |ms| => P.hash(d, if ms[i].Some? then ms[i].value else []));
    var augmented := seq(|ms|, i requires 0 <= i < |ms| => P.hash(d, P.keyBytes(ks[i]) + (if ms[i].Some? then ms[i].value else [])));
    forall i | 0 <= i < |ms| ensures Hashes(P, d, ms)[i] == plain[i] {
      assert Hashes(P, d, ms)[i] == P.hash(d, Text(ms[i]));
      assert plain[i] == P.hash(d, if ms[i].Some? then ms[i].value else []);
      assert (if ms[i].Some? then ms[i].value else []) == Text(ms[i]);
    }
    assert Hashes(P, d, ms) == plain;
    if scheme.MessageAugmentation? {
      var processed := Processed(P, scheme, ks, ms);
      forall i | 0 <= i < |ms| ensures Hashes(P, d, processed)[i] == augmented[i] {
        assert processed[i] == Some(P.keyBytes(ks[i]) + Text(ms[i]));
        assert Hashes(P, d, processed)[i] == P.hash(d, Text(processed[i]));
        assert augmented[i] == P.hash(d, P.keyBytes(ks[i]) + (if ms[i].Some? then ms[i].value else []));
      }
      assert Hashes(P, d, processed) == augmented;
    }
  }

  class Verifier<K(==, !new), G(==, !new), T(==, !new), S(!new)> {
    const P: Pairing<K, G, T, S>
    const scheme: Scheme
    const suiteDst: string
    const popDst: string
    const pops: seq<G>
    var dst: string

    constructor (P: Pairing<K, G, T, S>, scheme: Scheme, suiteDst: string, popDst: string, pops: seq<G>, dst: string)
      requires P.Lawful() && suiteDst != "" && popDst != ""
      ensures Valid() && this.P == P && this.scheme == scheme && this.suiteDst == suiteDst && this.popDst == popDst && this.pops == pops && this.dst == dst
    {
      this.P, this.scheme, this.suiteDst, this.popDst, this.pops, this.dst := P, scheme, suiteDst, popDst, pops, dst;
    }

    ghost predicate Valid() {
      P.Lawful() && suiteDst != "" && popDst != ""
    }

    /** Accepts exactly when keys and signature are proper, the scheme's own condition holds, and the
        general equation does; nil messages are refused, except where they hide among empty ones
        after an empty first message on the fast path. */
    method AggregateVerify(sig: G, ks: seq<K>, ms: seq<Option<Bytes>>) returns (ok: bool)
      requires Valid()
      modifies this
      ensures Valid()
      ensures dst == old(dst) || (old(dst) == "" && dst == suiteDst)
      ensures ok <==>
        && 0 < |ks| == |ms| && GoodKeys(P, ks) && P.sigTorsionFree(sig) && sig != P.sigs.id
        && SchemeAllows(P, scheme, popDst, ks, ms, pops)
        && Equation(P, if old(dst) == "" then suiteDst else old(dst), ks, Processed(P, scheme, ks, ms), sig)
        && (NonNil(Processed(P, scheme, ks, ms)) || (scheme.ProofOfPossession? && SameText(ms) && ms[0] == Some([])))
      // the same for each scheme, with the hashed messages written out
      ensures var d := if old(dst) == "" then suiteDst else old(dst);
        ok <==>
          && 0 < |ks| == |ms| && (forall i :: 0 <= i < |ks| ==> ks[i] != P.keys.id && P.keyTorsionFree(ks[i]))
          && P.sigTorsionFree(sig) && sig != P.sigs.id
          && match scheme
             case Basic =>
               && pops == [] && (forall i :: 0 <= i < |ms| ==> ms[i].Some?) && (forall i, j :: 0 <= i < j < |ms| ==> ms[i] != ms[j])
               && MultiPair(P, seq(|ms|, i requires 0 <= i < |ms| => P.hash(d, if ms[i].Some? then ms[i].value else [])), ks) == P.e(sig, P.generator)
             case MessageAugmentation =>
               pops == [] && MultiPair(P, seq(|ms|, i requires 0 <= i < |ms| => P.hash(d, P.keyBytes(ks[i]) + (if ms[i].Some? then ms[i].value else []))), ks) == P.e(sig, P.generator)
             case ProofOfPossession =>
               && |pops| == |ks|
               && (forall i :: 0 <= i < |ks| ==> pops[i] != P.sigs.id && P.sigTorsionFree(pops[i]) && P.e(P.hash(popDst, P.keyBytes(ks[i])), ks[i]) == P.e(pops[i], P.generator))
               && MultiPair(P, seq(|ms|, i requires 0 <= i < |ms| => P.hash(d, if ms[i].Some? then ms[i].value else [])), ks) == P.e(sig, P.generator)
               && ((forall i :: 0 <= i < |ms| ==> ms[i].Some?) || (ms[0] == Some([]) && forall i :: 0 <= i < |ms| ==> ms[i] == None || ms[i] == Some([])))
    {
      if 0 < |ks| == |ms| && GoodKeys(P, ks) {
        SchemesSpelledOut(P, scheme, popDst, if dst == "" then suiteDst else dst, ks, ms, pops, sig);
      }
      if |ks| != |ms| {
        return false;
      }
      var keysOk := CheckKeys(P, ks);
      if !keysOk || !P.sigTorsionFree(sig) || sig == P.sigs.id {
        return false;
      }
      if dst == "" {
        dst := suiteDst;
      }
      var allowed := CheckScheme(P, scheme, popDst, ks, ms, pops);
      if !allowed {
        return false;
      }
      var processed := Processed(P, scheme, ks, ms);
      if |processed| > 0 && scheme.ProofOfPossession? && AllEqual(processed) {
        FastAgainstGeneral(P, dst, ks, processed, sig);
        RepeatedEquation(P, dst, ks, processed, sig);
        CancellingKeys(P, dst, Text(processed[0]), sig);
        MixedNil(processed);
        var sum := AggregateKeys(P, ks);
        ok := CoreVerify(P, sum, processed[0], sig, dst);
      } else {
        ok := CoreAggregateVerify(P, ks, processed, sig, dst);
      }
    }
  }

  /** All hexadecimal encodings coincide. */
  predicate AllEqual(ms: seq<Option<Bytes>>)
    requires |ms| > 0
    ensures AllEqual(ms) <==> SameText(ms)
  {
    forall i :: 0 <= i < |ms| ==> Text(ms[i]) == Text(ms[0])
  }

  lemma MixedNil(ms: seq<Option<Bytes>>)
    requires |ms| > 0 && SameText(ms)
    ensures NonNil(ms) || ms[0] == Some([]) <==> ms[0].Some?
  {
    if ms[0].Some? && ms[0].value != [] {
      forall i | 0 <= i < |ms| ensures ms[i].Some? {
        assert Text(ms[i]) == Text(ms[0]);
      }
    }
  }

  method CheckKeys<K(==, !new), G(!new), T(!new), S(!new)>(P: Pairing<K, G, T, S>, ks: seq<K>) returns (ok: bool)
    ensures ok <==> GoodKeys(P, ks)
  {
    for i := 0 to |ks|
      invariant forall k :: 0 <= k < i ==> ks[k] != P.keys.id && P.keyTorsionFree(ks[k])
    {
      if !P.keyTorsionFree(ks[i]) || ks[i] == P.keys.id {
        return false;
      }
    }
    ok := true;
  }

  method CheckScheme<K(==, !new), G(==, !new), T(==, !new), S(!new)>(P: Pairing<K, G, T, S>, scheme: Scheme, popDst: string, ks: seq<K>, ms: seq<Option<Bytes>>, pops: seq<G>) returns (ok: bool)
    requires P.Lawful() && |ks| == |ms|
    ensures ok <==> SchemeAllows(P, scheme, popDst, ks, ms, pops)
  {
    match scheme
    case Basic =>
      ok := pops == [] && forall i, j :: 0 <= i < j < |ms| ==> Text(ms[i]) != Text(ms[j]);
    case MessageAugmentation =>
      ok := pops == [];
    case ProofOfPossession =>
      if |ks| != |pops| {
        return false;
      }
      for i := 0 to |pops|
        invariant forall k :: 0 <= k < i ==> PopValid(P, popDst, ks[k], pops[k])
      {
        var valid := CoreVerify(P, ks[i], Some(P.keyBytes(ks[i])), pops[i], popDst);
        if !valid {
          return false;
        }
      }
      ok := true;
  }

  // ----- Honest aggregates

  ghost function PublicKeys<K(!new), G(!new), T(!new), S(!new)>(P: Pairing<K, G, T, S>, sks: seq<S>): (r: seq<K>)
    ensures |r| == |sks|
  {
    seq(|sks|, i requires 0 <= i < |sks| => P.keys.act(sks[i], P.generator))
  }

  /** The sum of the individual signatures. */
  ghost function HonestSignature<K(!new), G(!new), T(!new), S(!new)>(P: Pairing<K, G, T, S>, dst: string, sks: seq<S>, ms: seq<Option<Bytes>>): G
    requires |sks| == |ms|
  {
    Comb(P.sigs, sks, Hashes(P, dst, ms))
  }

  /** An aggregate of honest signatures satisfies the general equation. */
  lemma {:induction false} HonestAggregate<K(!new), G(!new), T(!new), S(!new)>(P: Pairing<K, G, T, S>, dst: string, sks: seq<S>, ms: seq<Option<Bytes>>)
    requires P.Lawful() && |sks| == |ms|
    ensures P.sigTorsionFree(HonestSignature(P, dst, sks, ms))
    ensures Equation(P, dst, PublicKeys(P, sks), ms, HonestSignature(P, dst, sks, ms))
  {
    if |sks| == 0 {
      P.PairIdentitySig(P.generator);
    } else {
      var h, rest := P.hash(dst, Text(ms[0])), HonestSignature(P, dst, sks[1..], ms[1..]);
      assert Hashes(P, dst, ms)[1..] == Hashes(P, dst, ms[1..]);
      assert PublicKeys(P, sks)[1..] == PublicKeys(P, sks[1..]);
      HonestAggregate(P, dst, sks[1..], ms[1..]);
      assert P.HashClosed(dst, Text(ms[0])) && P.ActClosed(sks[0], h, P.generator) && P.Balanced(sks[0], h, P.generator);
      assert P.SigClosed(P.sigs.act(sks[0], h), rest) && P.LinearSig(P.sigs.act(sks[0], h), rest, P.generator);
    }
  }

  // ----- Signing

  /** Signs one message. */
  method CoreSign<K(!new), G(!new), T(!new), S(==, !new)>(P: Pairing<K, G, T, S>, sk: S, m: Option<Bytes>, dst: string) returns (r: Option<G>)
    requires P.Lawful()
    ensures r.None? <==> m.None? || dst == "" || sk == P.sigs.scalars.zero
    ensures r.Some? ==> P.sigTorsionFree(r.value) && P.e(P.hash(dst, m.value), P.keys.act(sk, P.generator)) == P.e(r.value, P.generator)
  {
    if m.None? || dst == "" || sk == P.sigs.scalars.zero {
      return None;
    }
    var h := P.hash(dst, m.value);
    assert P.HashClosed(dst, m.value) && P.ActClosed(sk, h, P.generator) && P.Balanced(sk, h, P.generator);
    r := Some(P.sigs.act(sk, h));
  }

  /** Signs several messages with one key; the result satisfies the general equation for that key
      repeated. */
  method CoreAggregateSign<K(!new), G(!new), T(!new), S(==, !new)>(P: Pairing<K, G, T, S>, sk: S, ms: seq<Option<Bytes>>, dst: string) returns (r: Option<G>)
    requires P.Lawful()
    ensures r.None? <==> dst == "" || sk == P.sigs.scalars.zero
    ensures r.Some? ==> P.sigTorsionFree(r.value) && Equation(P, dst, PublicKeys(P, seq(|ms|, i => sk)), ms, r.value)
  {
    if dst == "" || sk == P.sigs.scalars.zero {
      return None;
    }
    var hs: seq<G> := [];
    for i := 0 to |ms|
      invariant hs == Hashes(P, dst, ms)[..i]
    {
      hs := hs + [P.hash(dst, Text(ms[i]))];
    }
    assert hs == Hashes(P, dst, ms);
    var sum := Lifting.Accumulate(P.sigs, seq(|ms|, i => sk), hs);
    HonestAggregate(P, dst, seq(|ms|, i => sk), ms);
    r := Some(sum);
  }

  /** Any signatures, each valid for its own key and message, sum to an aggregate that satisfies the
      general equation; no other signature does. */
  lemma {:induction false} SumOfValid<K(!new), G(!new), T(!new), S(!new)>(P: Pairing<K, G, T, S>, dst: string, ks: seq<K>, ms: seq<Option<Bytes>>, sigs: seq<G>)
    requires P.Lawful() && |ks| == |ms| == |sigs|
    requires forall i :: 0 <= i < |sigs| ==> P.sigTorsionFree(sigs[i])
    requires forall i :: 0 <= i < |ks| ==> P.e(P.hash(dst, if ms[i].Some? then ms[i].value else []), ks[i]) == P.e(sigs[i], P.generator)
    ensures P.sigTorsionFree(Sum(P.sigs, sigs)) && Equation(P, dst, ks, ms, Sum(P.sigs, sigs))
    ensures forall sig :: P.sigTorsionFree(sig) && Equation(P, dst, ks, ms, sig) ==> sig == Sum(P.sigs, sigs)
  {
    if |ks| == 0 {
      P.PairIdentitySig(P.generator);
    } else {
      SumOfValid(P, dst, ks[1..], ms[1..], sigs[1..]);
      assert Hashes(P, dst, ms)[1..] == Hashes(P, dst, ms[1..]);
      assert (if ms[0].Some? then ms[0].value else []) == Text(ms[0]);
      assert P.e(Hashes(P, dst, ms)[0], ks[0]) == P.e(sigs[0], P.generator);
      assert P.SigClosed(sigs[0], Sum(P.sigs, sigs[1..])) && P.LinearSig(sigs[0], Sum(P.sigs, sigs[1..]), P.generator);
    }
    forall sig | P.sigTorsionFree(sig) && Equation(P, dst, ks, ms, sig) ensures sig == Sum(P.sigs, sigs) {
      SamePairing(P, sig, Sum(P.sigs, sigs));
    }
  }

  /** Pairing with the generator tells torsion-free points apart. */
  lemma SamePairing<K(!new), G(!new), T(!new), S(!new)>(P: Pairing<K, G, T, S>, a: G, b: G)
    requires P.Lawful() && P.sigTorsionFree(a) && P.sigTorsionFree(b) && P.e(a, P.generator) == P.e(b, P.generator)
    ensures a == b
  {
    var d := P.sigs.op(a, P.sigs.neg(b));
    P.PairNegSig(b, P.generator);
    assert P.SigClosed(b, b) && P.SigClosed(a, P.sigs.neg(b)) && P.LinearSig(a, P.sigs.neg(b), P.generator);
    assert P.NonDegenerate(d);
    assert P.sigs.OpNeg(b);
    P.sigs.OpCancel(a, b, P.sigs.neg(b));
  }

  /** Under message augmentation the sum of signatures, each over the signer's own key followed by its
      message, is accepted. */
  method AugmentedAccepted<K(==, !new), G(==, !new), T(==, !new), S(!new)>(
      P: Pairing<K, G, T, S>, suiteDst: string, popDst: string, dst: string, ks: seq<K>, ms: seq<Option<Bytes>>, sigs: seq<G>, sig: G) returns (ok: bool)
    requires P.Lawful() && suiteDst != "" && popDst != "" && dst != "" && 0 < |ks| == |ms| == |sigs|
    requires GoodKeys(P, ks) && (forall i :: 0 <= i < |sigs| ==> P.sigTorsionFree(sigs[i]))
    requires forall i :: 0 <= i < |ks| ==>
      P.e(P.hash(dst, P.keyBytes(ks[i]) + (if ms[i].Some? then ms[i].value else [])), ks[i]) == P.e(sigs[i], P.generator)
    requires sig == Sum(P.sigs, sigs) && sig != P.sigs.id
    ensures ok
  {
    var augmented := seq(|ms|, i requires 0 <= i < |ms| => Some(P.keyBytes(ks[i]) + (if ms[i].Some? then ms[i].value else [])));
    SumOfValid(P, dst, ks, augmented, sigs);
    var verifier := new Verifier(P, MessageAugmentation, suiteDst, popDst, [], dst);
    assert Processed(P, MessageAugmentation, ks, ms) == augmented;
    ok := verifier.AggregateVerify(sig, ks, ms);
  }

  /** The paths do part: for any two secret keys whose public keys are proper and do not cancel out,
      the honest aggregate over an empty message and a nil one passes the fast path only. (A verifier
      looks at neither path when the signature is the identity.) */
  lemma FastPathAlone<K(!new), G(!new), T(!new), S(!new)>(P: Pairing<K, G, T, S>, dst: string, sk: S, sk': S)
    requires P.Lawful() && GoodKeys(P, PublicKeys(P, [sk, sk'])) && Sum(P.keys, PublicKeys(P, [sk, sk'])) != P.keys.id
    ensures var ms: seq<Option<Bytes>> := [Some([]), None]; var sig := HonestSignature(P, dst, [sk, sk'], ms);
      && SameText(ms) && P.sigTorsionFree(sig)
      && FastAccepts(P, dst, PublicKeys(P, [sk, sk']), ms, sig)
      && !GeneralAccepts(P, dst, PublicKeys(P, [sk, sk']), ms, sig)
  {
    var ms: seq<Option<Bytes>> := [Some([]), None];
    var ks := PublicKeys(P, [sk, sk']);
    var sig := HonestSignature(P, dst, [sk, sk'], ms);
    HonestAggregate(P, dst, [sk, sk'], ms);
    RepeatedEquation(P, dst, ks, ms, sig);
    assert ms[1].None?;
  }
}
