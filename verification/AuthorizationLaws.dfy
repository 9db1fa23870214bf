/** What the authorization check promises, in terms of the transaction and the accounts
    alone: exactly when it passes, and which error it reports when it does not. */
module AuthorizationLaws {
  import opened Bytes
  import opened Authorization
  import SignaturePool

  /** The keys of a transaction that signs the payload and the envelope: signers are
      payer, proposer or authorizer, and no key signs twice. */
  ghost predicate EntriesOk(tx: Transaction) {
    var p, e := tx.payloadSigs, tx.envelopeSigs;
    tx.payer != 0
    && (forall i | 0 <= i < |p| :: p[i].address == tx.payer || p[i].address == tx.proposal.address || p[i].address in tx.authorizers)
    && (forall i | 0 <= i < |e| :: e[i].address == tx.payer || e[i].address == tx.proposal.address || e[i].address in tx.authorizers)
    && (forall i, j | 0 <= i < j < |p| :: p[i].address != p[j].address || p[i].keyIndex != p[j].keyIndex)
    && (forall i, j | 0 <= i < j < |e| :: e[i].address != e[j].address || e[i].keyIndex != e[j].keyIndex)
    && (forall i, j | 0 <= i < |p| && 0 <= j < |e| :: p[i].address != e[j].address || p[i].keyIndex != e[j].keyIndex)
  }

  /** The sum of the weights of the keys by which an account signed. */
  function SumOfWeights(keys: map<(Address, nat), AccountKey>, sigs: seq<Signature>, a: Address): int {
    if sigs == [] then 0
    else
      SumOfWeights(keys, sigs[..|sigs| - 1], a)
      + var s := sigs[|sigs| - 1]; if s.address == a && (a, s.keyIndex) in keys then keys[(a, s.keyIndex)].weight else 0
  }

  ghost predicate KeysOk(world: World, sigs: seq<Signature>) {
    forall i | 0 <= i < |sigs| ::
      (sigs[i].address, sigs[i].keyIndex) in world.keys && !world.keys[(sigs[i].address, sigs[i].keyIndex)].revoked
  }

  ghost predicate SignaturesOk(world: World, kind: Kind, sigs: seq<Signature>) {
    forall i | 0 <= i < |sigs| ::
      (sigs[i].address, sigs[i].keyIndex) in world.keys
      && world.check(kind, sigs[i], world.keys[(sigs[i].address, sigs[i].keyIndex)]) == None
  }

  ghost predicate SignsProposal(tx: Transaction, sigs: seq<Signature>) {
    exists i | 0 <= i < |sigs| :: sigs[i].address == tx.proposal.address && sigs[i].keyIndex == tx.proposal.keyIndex
  }

  /** What a transaction must satisfy at a threshold that is not negative. */
  ghost predicate Authorized(tx: Transaction, world: World, threshold: int) {
    EntriesOk(tx)
    && KeysOk(world, tx.payloadSigs) && KeysOk(world, tx.envelopeSigs)
    && (SignsProposal(tx, tx.payloadSigs) || SignsProposal(tx, tx.envelopeSigs))
    && (forall i | 0 <= i < |tx.authorizers| && tx.authorizers[i] != tx.payer ::
          SumOfWeights(world.keys, tx.payloadSigs, tx.authorizers[i]) >= threshold)
    && SumOfWeights(world.keys, tx.envelopeSigs, tx.payer) >= threshold
    && SignaturesOk(world, PayloadSig, tx.payloadSigs) && SignaturesOk(world, EnvelopeSig, tx.envelopeSigs)
  }

  // ----- the two groups and their concatenation

  lemma SignedAt(tx: Transaction, k: nat)
    requires k < |AllSigned(tx)|
    ensures |AllSigned(tx)| == |tx.payloadSigs| + |tx.envelopeSigs|
    ensures AllSigned(tx)[k] ==
      if k < |tx.payloadSigs| then Signed(PayloadSig, tx.payloadSigs[k]) else Signed(EnvelopeSig, tx.envelopeSigs[k - |tx.payloadSigs|])
  {
  }

  lemma InEither(tx: Transaction, s: Signed)
    ensures s in AllSigned(tx) <==>
      (exists i | 0 <= i < |tx.payloadSigs| :: s == Signed(PayloadSig, tx.payloadSigs[i]))
      || (exists i | 0 <= i < |tx.envelopeSigs| :: s == Signed(EnvelopeSig, tx.envelopeSigs[i]))
  {
    var n := |tx.payloadSigs|;
    if i :| 0 <= i < n && s == Signed(PayloadSig, tx.payloadSigs[i]) {
      assert AllSigned(tx)[i] == s;
    }
    if i :| 0 <= i < |tx.envelopeSigs| && s == Signed(EnvelopeSig, tx.envelopeSigs[i]) {
      assert AllSigned(tx)[n + i] == s;
    }
    if s in AllSigned(tx) {
      var k :| 0 <= k < |AllSigned(tx)| && AllSigned(tx)[k] == s;
      SignedAt(tx, k);
    }
  }

  lemma EntriesIff(tx: Transaction)
    ensures EntriesOk(tx) <==> EntriesFine(tx)
  {
    var all, n := AllSigned(tx), |tx.payloadSigs|;
    if EntriesOk(tx) {
      forall s | s in all ensures MaySign(tx, s.sig.address) {
        InEither(tx, s);
      }
      forall i, j | 0 <= i < j < |all| ensures KeyOf(all[i]) != KeyOf(all[j]) {
        SignedAt(tx, i);
        SignedAt(tx, j);
      }
    }
    if EntriesFine(tx) {
      forall i | 0 <= i < n ensures MaySign(tx, tx.payloadSigs[i].address) {
        assert all[i] in all;
      }
      forall i | 0 <= i < |tx.envelopeSigs| ensures MaySign(tx, tx.envelopeSigs[i].address) {
        assert all[n + i] in all && all[n + i].sig == tx.envelopeSigs[i];
      }
      forall i, j | 0 <= i < j < n
        ensures tx.payloadSigs[i].address != tx.payloadSigs[j].address || tx.payloadSigs[i].keyIndex != tx.payloadSigs[j].keyIndex
      {
        assert KeyOf(all[i]) != KeyOf(all[j]);
      }
      forall i, j | 0 <= i < j < |tx.envelopeSigs|
        ensures tx.envelopeSigs[i].address != tx.envelopeSigs[j].address || tx.envelopeSigs[i].keyIndex != tx.envelopeSigs[j].keyIndex
      {
        assert KeyOf(all[n + i]) != KeyOf(all[n + j]);
      }
      forall i, j | 0 <= i < n && 0 <= j < |tx.envelopeSigs|
        ensures tx.payloadSigs[i].address != tx.envelopeSigs[j].address || tx.payloadSigs[i].keyIndex != tx.envelopeSigs[j].keyIndex
      {
        assert KeyOf(all[i]) != KeyOf(all[n + j]);
      }
    }
  }

  /** A property of all signatures is one of both groups. */
  lemma ForBoth(tx: Transaction, good: Signed -> bool)
    ensures (forall s | s in AllSigned(tx) :: good(s)) <==>
      (forall i | 0 <= i < |tx.payloadSigs| :: good(Signed(PayloadSig, tx.payloadSigs[i])))
      && (forall i | 0 <= i < |tx.envelopeSigs| :: good(Signed(EnvelopeSig, tx.envelopeSigs[i])))
  {
    var all, n := AllSigned(tx), |tx.payloadSigs|;
    if forall s | s in all :: good(s) {
      forall i | 0 <= i < n ensures good(Signed(PayloadSig, tx.payloadSigs[i])) {
        assert all[i] in all;
      }
      forall i | 0 <= i < |tx.envelopeSigs| ensures good(Signed(EnvelopeSig, tx.envelopeSigs[i])) {
        assert all[n + i] in all && all[n + i] == Signed(EnvelopeSig, tx.envelopeSigs[i]);
      }
    }
    if (forall i | 0 <= i < n :: good(Signed(PayloadSig, tx.payloadSigs[i])))
       && (forall i | 0 <= i < |tx.envelopeSigs| :: good(Signed(EnvelopeSig, tx.envelopeSigs[i]))) {
      forall s | s in all ensures good(s) {
        InEither(tx, s);
      }
    }
  }

  function Group(kind: Kind, sigs: seq<Signature>): seq<Signed> {
    seq(|sigs|, i requires 0 <= i < |sigs| => Signed(kind, sigs[i]))
  }

  lemma {:induction false} GroupWeight(world: World, kind: Kind, other: Kind, sigs: seq<Signature>, a: Address)
    ensures Weight(world, Group(kind, sigs), other, a) == if kind == other then SumOfWeights(world.keys, sigs, a) else 0
  {
    if sigs != [] {
      var n := |sigs| - 1;
      var last := Signed(kind, sigs[n]);
      GroupWeight(world, kind, other, sigs[..n], a);
      assert Group(kind, sigs) == Group(kind, sigs[..n]) + [last];
      WeightSplit(world, Group(kind, sigs[..n]), [last], other, a);
      assert Weight(world, [last][1..], other, a) == 0;
    }
  }

  lemma WeightIs(world: World, tx: Transaction, a: Address)
    ensures Weight(world, AllSigned(tx), PayloadSig, a) == SumOfWeights(world.keys, tx.payloadSigs, a)
    ensures Weight(world, AllSigned(tx), EnvelopeSig, a) == SumOfWeights(world.keys, tx.envelopeSigs, a)
  {
    var p, e := Group(PayloadSig, tx.payloadSigs), Group(EnvelopeSig, tx.envelopeSigs);
    assert AllSigned(tx) == p + e;
    WeightSplit(world, p, e, PayloadSig, a);
    WeightSplit(world, p, e, EnvelopeSig, a);
    GroupWeight(world, PayloadSig, PayloadSig, tx.payloadSigs, a);
    GroupWeight(world, PayloadSig, EnvelopeSig, tx.payloadSigs, a);
    GroupWeight(world, EnvelopeSig, PayloadSig, tx.envelopeSigs, a);
    GroupWeight(world, EnvelopeSig, EnvelopeSig, tx.envelopeSigs, a);
  }

  lemma ProposedIff(tx: Transaction)
    ensures Proposed(tx, AllSigned(tx)) <==> SignsProposal(tx, tx.payloadSigs) || SignsProposal(tx, tx.envelopeSigs)
  {
    var all, n := AllSigned(tx), |tx.payloadSigs|;
    if i :| 0 <= i < |all| && Proposes(tx, all[i]) {
      SignedAt(tx, i);
    }
    if i :| 0 <= i < n && tx.payloadSigs[i].address == tx.proposal.address && tx.payloadSigs[i].keyIndex == tx.proposal.keyIndex {
      assert Proposes(tx, all[i]);
    }
    if i :| 0 <= i < |tx.envelopeSigs| && tx.envelopeSigs[i].address == tx.proposal.address && tx.envelopeSigs[i].keyIndex == tx.proposal.keyIndex {
      assert Proposes(tx, all[n + i]);
    }
  }

  // ----- exactly when the check passes

  /** CheckAuthorization succeeds exactly for authorized transactions; a negative
      threshold skips everything but the payer and the signers. */
  lemma VerdictIff(tx: Transaction, world: World, threshold: int)
    ensures Verdict(tx, world, threshold) == None
       <==> if threshold < 0 then EntriesOk(tx) else Authorized(tx, world, threshold)
  {
    hide Verdict, AllSigned, EntriesOk, EntriesFine, Weight, SumOfWeights, Proposed, SignsProposal;
    VerdictFine(tx, world, threshold);
    EntriesIff(tx);
    ProposedIff(tx);
    ForBoth(tx, s => KeyOf(s) in world.keys && !world.keys[KeyOf(s)].revoked);
    ForBoth(tx, s => KeyOf(s) in world.keys && world.check(s.kind, s.sig, world.keys[KeyOf(s)]) == None);
    forall a
      ensures Weight(world, AllSigned(tx), PayloadSig, a) == SumOfWeights(world.keys, tx.payloadSigs, a)
      ensures Weight(world, AllSigned(tx), EnvelopeSig, a) == SumOfWeights(world.keys, tx.envelopeSigs, a)
    {
      WeightIs(world, tx, a);
    }
  }

  // ----- which error is reported

  /** Signature `k` of both groups, payload first. */
  function Nth(tx: Transaction, k: nat): Signed
    requires k < |tx.payloadSigs| + |tx.envelopeSigs|
  {
    if k < |tx.payloadSigs| then Signed(PayloadSig, tx.payloadSigs[k]) else Signed(EnvelopeSig, tx.envelopeSigs[k - |tx.payloadSigs|])
  }

  ghost predicate SignerOk(tx: Transaction, k: nat)
    requires k < |tx.payloadSigs| + |tx.envelopeSigs|
  {
    var a := Nth(tx, k).sig.address;
    a == tx.payer || a == tx.proposal.address || a in tx.authorizers
  }

  ghost predicate SameKey(tx: Transaction, i: nat, k: nat)
    requires i < |tx.payloadSigs| + |tx.envelopeSigs| && k < |tx.payloadSigs| + |tx.envelopeSigs|
  {
    Nth(tx, i).sig.address == Nth(tx, k).sig.address && Nth(tx, i).sig.keyIndex == Nth(tx, k).sig.keyIndex
  }

  lemma AllIsNth(tx: Transaction)
    ensures |AllSigned(tx)| == |tx.payloadSigs| + |tx.envelopeSigs|
    ensures forall k | 0 <= k < |AllSigned(tx)| :: AllSigned(tx)[k] == Nth(tx, k)
  {
  }

  lemma NoPayer(tx: Transaction, world: World, threshold: int)
    requires tx.payer == 0
    ensures Verdict(tx, world, threshold) == Some(InvalidPayer)
  {
  }

  /** The first signature by a stranger or with a key used before, whatever comes after. */
  lemma FirstEntryError(tx: Transaction, world: World, threshold: int, k: nat)
    requires tx.payer != 0 && k < |tx.payloadSigs| + |tx.envelopeSigs|
    requires forall i | 0 <= i < k :: SignerOk(tx, i)
    requires forall i, j | 0 <= i < j < k :: !SameKey(tx, i, j)
    ensures !SignerOk(tx, k) ==> Verdict(tx, world, threshold) == Some(NotASigner(Nth(tx, k)))
    ensures SignerOk(tx, k) && (exists i | 0 <= i < k :: SameKey(tx, i, k)) ==>
      Verdict(tx, world, threshold) == Some(Duplicate(Nth(tx, k)))
  {
    hide AllSigned, EntryError, KeyError, Weight, AuthorizerError, Proposed, Checks;
    AllIsNth(tx);
    var all := AllSigned(tx);
    EntryErrorIff(tx, all[..k], {});
    forall s | s in all[..k] ensures MaySign(tx, s.sig.address) {
      var i :| 0 <= i < k && all[..k][i] == s;
      assert SignerOk(tx, i);
    }
    forall i, j | 0 <= i < j < |all[..k]|
      ensures all[..k][i].sig.address != all[..k][j].sig.address || all[..k][i].sig.keyIndex != all[..k][j].sig.keyIndex
    {
      assert !SameKey(tx, i, j);
    }
    EntryAt(tx, all, k);
    if i :| 0 <= i < k && SameKey(tx, i, k) {
      assert all[..k][i] in all[..k];
    }
  }

  ghost predicate KeyOk(tx: Transaction, world: World, k: nat)
    requires k < |tx.payloadSigs| + |tx.envelopeSigs|
  {
    var s := Nth(tx, k).sig;
    (s.address, s.keyIndex) in world.keys && !world.keys[(s.address, s.keyIndex)].revoked
  }

  /** The first signature whose key is missing or revoked. */
  lemma FirstKeyError(tx: Transaction, world: World, threshold: int, k: nat)
    requires EntriesOk(tx) && threshold >= 0 && k < |tx.payloadSigs| + |tx.envelopeSigs|
    requires (forall i | 0 <= i < k :: KeyOk(tx, world, i)) && !KeyOk(tx, world, k)
    ensures
      var s := Nth(tx, k);
      Verdict(tx, world, threshold) ==
        Some(Proposal(if (s.sig.address, s.sig.keyIndex) in world.keys then Revoked(s) else NoSuchKey(s)))
  {
    hide AllSigned, EntryError, KeyError, Weight, AuthorizerError, Proposed, Checks, EntriesOk;
    AllIsNth(tx);
    EntriesIff(tx);
    var all := AllSigned(tx);
    EntryErrorIff(tx, all, {});
    KeyErrorIff(world, all[..k]);
    forall s | s in all[..k] ensures UsableKey(world, s) {
      var i :| 0 <= i < k && all[..k][i] == s;
      assert KeyOk(tx, world, i);
    }
    KeyAt(world, all, k);
  }

  /** Nothing is wrong with signers and keys. */
  ghost predicate KeysFine(tx: Transaction, world: World, threshold: int) {
    EntriesOk(tx) && threshold >= 0 && KeysOk(world, tx.payloadSigs) && KeysOk(world, tx.envelopeSigs)
  }

  lemma KeysFineNoError(tx: Transaction, world: World, threshold: int)
    requires KeysFine(tx, world, threshold)
    ensures EntryError(tx, AllSigned(tx), {}) == None && KeyError(world, AllSigned(tx)) == None && tx.payer != 0
  {
    hide AllSigned, EntryError, KeyError;
    EntriesIff(tx);
    EntryErrorIff(tx, AllSigned(tx), {});
    KeyErrorIff(world, AllSigned(tx));
    ForBoth(tx, s => KeyOf(s) in world.keys && !world.keys[KeyOf(s)].revoked);
  }

  lemma NoProposer(tx: Transaction, world: World, threshold: int)
    requires KeysFine(tx, world, threshold) && !SignsProposal(tx, tx.payloadSigs) && !SignsProposal(tx, tx.envelopeSigs)
    ensures Verdict(tx, world, threshold) == Some(Proposal(NoProposalSignature))
  {
    hide AllSigned, EntryError, KeyError, Proposed;
    KeysFineNoError(tx, world, threshold);
    ProposedIff(tx);
  }

  /** The first authorizer other than the payer with too little weight, else the payer. */
  lemma FirstWeightError(tx: Transaction, world: World, threshold: int, k: nat)
    requires KeysFine(tx, world, threshold) && (SignsProposal(tx, tx.payloadSigs) || SignsProposal(tx, tx.envelopeSigs))
    requires k <= |tx.authorizers|
    requires forall i | 0 <= i < k :: tx.authorizers[i] == tx.payer || SumOfWeights(world.keys, tx.payloadSigs, tx.authorizers[i]) >= threshold
    ensures k < |tx.authorizers| && tx.authorizers[k] != tx.payer && SumOfWeights(world.keys, tx.payloadSigs, tx.authorizers[k]) < threshold
      ==> Verdict(tx, world, threshold) == Some(AuthorizerWeight(tx.authorizers[k]))
    ensures k == |tx.authorizers| && SumOfWeights(world.keys, tx.envelopeSigs, tx.payer) < threshold
      ==> Verdict(tx, world, threshold) == Some(PayerWeight(tx.payer))
  {
    hide AllSigned, EntryError, KeyError, Proposed, Weight, AuthorizerError, SumOfWeights;
    KeysFineNoError(tx, world, threshold);
    ProposedIff(tx);
    forall a
      ensures Weight(world, AllSigned(tx), PayloadSig, a) == SumOfWeights(world.keys, tx.payloadSigs, a)
      ensures Weight(world, AllSigned(tx), EnvelopeSig, a) == SumOfWeights(world.keys, tx.envelopeSigs, a)
    {
      WeightIs(world, tx, a);
    }
    AuthorizerErrorIff(tx, world, tx.authorizers[..k], threshold);
    if k < |tx.authorizers| {
      AuthorizerAt(tx, world, k, threshold);
    } else {
      assert tx.authorizers[..k] == tx.authorizers;
    }
  }

  /** The first signature that does not verify. */
  lemma FirstBadSignature(tx: Transaction, world: World, threshold: int, k: nat, why: bytes)
    requires SignaturesMatter(tx, world, threshold) && k < |tx.payloadSigs| + |tx.envelopeSigs|
    requires forall i | 0 <= i <= k ::
      var s := Nth(tx, i);
      KeyOk(tx, world, i)
      && world.check(s.kind, s.sig, world.keys[(s.sig.address, s.sig.keyIndex)]) == if i < k then None else Some(why)
    ensures Verdict(tx, world, threshold) == Some(Proposal(BadSignature(Nth(tx, k), why)))
  {
    hide AllSigned, EntryError, KeyError, Proposed, Weight, AuthorizerError;
    AllIsNth(tx);
    var all := AllSigned(tx);
    EntryErrorIff(tx, all, {});
    KeyErrorIff(world, all);
    AuthorizerErrorIff(tx, world, tx.authorizers, threshold);
    assert forall s | s in all :: UsableKey(world, s);
    var errs := Checks(world, all);
    forall i | 0 <= i <= k ensures errs[i] == if i < k then None else Some(BadSignature(Nth(tx, k), why)) {
      assert KeyOk(tx, world, i);
    }
    SignaturePool.FirstErrorAt(errs, k);
  }
}
