/** TransactionVerifier.verifyTransaction: who may sign, which keys count, and
    whether their weights suffice.  The signature checks at the end run in the
    worker pool of module SignaturePool, whose result is that of a sequential scan. */
module Authorization {
  import opened Bytes
  import SignaturePool

  type Address = nat

  const EMPTY_ADDRESS: Address := 0

  datatype Kind = PayloadSig | EnvelopeSig

  datatype Signature = Signature(address: Address, keyIndex: nat, data: bytes)

  datatype ProposalKey = ProposalKey(address: Address, keyIndex: nat)

  datatype Transaction = Transaction(
    payer: Address, proposal: ProposalKey, authorizers: seq<Address>,
    payloadSigs: seq<Signature>, envelopeSigs: seq<Signature>)

  datatype AccountKey = AccountKey(publicKey: bytes, weight: int, revoked: bool)

  /** A signature together with the group it was given in. */
  datatype Signed = Signed(kind: Kind, sig: Signature)

  /** What the verifier cannot see into: the accounts' keys, and the cryptographic
      check of a signature, None when it passes. */
  datatype World = World(
    keys: map<(Address, nat), AccountKey>,
    check: (Kind, Signature, AccountKey) -> Option<bytes>)

  datatype AuthError =
    | InvalidPayer
    | NotASigner(s: Signed)
    | Duplicate(s: Signed)
    | NoSuchKey(s: Signed)
    | Revoked(s: Signed)
    | NoProposalSignature
    | BadSignature(s: Signed, why: bytes)
    | Proposal(inner: AuthError)
    | AuthorizerWeight(address: Address)
    | PayerWeight(address: Address)

  // ----- specification: the errors in the order the source meets them

  function AllSigned(tx: Transaction): seq<Signed> {
    seq(|tx.payloadSigs|, i requires 0 <= i < |tx.payloadSigs| => Signed(PayloadSig, tx.payloadSigs[i]))
    + seq(|tx.envelopeSigs|, i requires 0 <= i < |tx.envelopeSigs| => Signed(EnvelopeSig, tx.envelopeSigs[i]))
  }

  predicate MaySign(tx: Transaction, a: Address) {
    a == tx.payer || a == tx.proposal.address || a in tx.authorizers
  }

  function KeyOf(s: Signed): (Address, nat) {
    (s.sig.address, s.sig.keyIndex)
  }

  /** The first signature by a stranger or with a key already used. */
  function EntryError(tx: Transaction, all: seq<Signed>, seen: set<(Address, nat)>): Option<AuthError> {
    if all == [] then None
    else if !MaySign(tx, all[0].sig.address) then Some(NotASigner(all[0]))
    else if KeyOf(all[0]) in seen then Some(Duplicate(all[0]))
    else EntryError(tx, all[1..], seen + {KeyOf(all[0])})
  }

  /** The first signature whose key is missing or revoked. */
  function KeyError(world: World, all: seq<Signed>): Option<AuthError> {
    if all == [] then None
    else if KeyOf(all[0]) !in world.keys then Some(NoSuchKey(all[0]))
    else if world.keys[KeyOf(all[0])].revoked then Some(Revoked(all[0]))
    else KeyError(world, all[1..])
  }

  predicate Proposes(tx: Transaction, s: Signed) {
    KeyOf(s) == (tx.proposal.address, tx.proposal.keyIndex)
  }

  predicate Proposed(tx: Transaction, all: seq<Signed>) {
    exists i | 0 <= i < |all| :: Proposes(tx, all[i])
  }

  /** The weight that the signatures of a group give to an account. */
  function Weight(world: World, all: seq<Signed>, kind: Kind, a: Address): int {
    if all == [] then 0 else
    (if all[0].kind == kind && all[0].sig.address == a && KeyOf(all[0]) in world.keys then world.keys[KeyOf(all[0])].weight else 0)
    + Weight(world, all[1..], kind, a)
  }

  /** The first authorizer other than the payer with too little weight. */
  function AuthorizerError(tx: Transaction, world: World, authorizers: seq<Address>, threshold: int): Option<AuthError> {
    if authorizers == [] then None
    else if authorizers[0] != tx.payer && Weight(world, AllSigned(tx), PayloadSig, authorizers[0]) < threshold then
      Some(AuthorizerWeight(authorizers[0]))
    else AuthorizerError(tx, world, authorizers[1..], threshold)
  }

  /** What verify() returns for every signature. */
  function Checks(world: World, all: seq<Signed>): seq<Option<AuthError>>
    requires forall s | s in all :: KeyOf(s) in world.keys
  {
    seq(|all|, i requires 0 <= i < |all| => Checked(world, all[i]))
  }

  function Checked(world: World, s: Signed): Option<AuthError>
    requires KeyOf(s) in world.keys
  {
    match world.check(s.kind, s.sig, world.keys[KeyOf(s)])
    case None => None
    case Some(why) => Some(BadSignature(s, why))
  }

  // ----- the same as one condition

  ghost predicate DistinctKeys(all: seq<Signed>) {
    forall i, j | 0 <= i < j < |all| :: KeyOf(all[i]) != KeyOf(all[j])
  }

  ghost predicate UsableKey(world: World, s: Signed) {
    KeyOf(s) in world.keys && !world.keys[KeyOf(s)].revoked
  }

  ghost predicate EntriesFine(tx: Transaction) {
    tx.payer != EMPTY_ADDRESS
    && (forall s | s in AllSigned(tx) :: MaySign(tx, s.sig.address))
    && DistinctKeys(AllSigned(tx))
  }

  /** What a transaction must satisfy at a threshold that is not negative. */
  ghost predicate Acceptable(tx: Transaction, world: World, threshold: int) {
    EntriesFine(tx)
    && (forall s | s in AllSigned(tx) :: UsableKey(world, s))
    && Proposed(tx, AllSigned(tx))
    && (forall a | a in tx.authorizers && a != tx.payer :: Weight(world, AllSigned(tx), PayloadSig, a) >= threshold)
    && Weight(world, AllSigned(tx), EnvelopeSig, tx.payer) >= threshold
    && (forall s | s in AllSigned(tx) :: KeyOf(s) in world.keys && world.check(s.kind, s.sig, world.keys[KeyOf(s)]) == None)
  }

  lemma {:induction false} EntryErrorIff(tx: Transaction, all: seq<Signed>, seen: set<(Address, nat)>)
    ensures EntryError(tx, all, seen) == None <==>
      (forall s | s in all ::
         (s.sig.address == tx.payer || s.sig.address == tx.proposal.address || s.sig.address in tx.authorizers)
         && (s.sig.address, s.sig.keyIndex) !in seen)
      && (forall i, j | 0 <= i < j < |all| ::
            all[i].sig.address != all[j].sig.address || all[i].sig.keyIndex != all[j].sig.keyIndex)
  {
    if all != [] {
      EntryErrorIff(tx, all[1..], seen + {KeyOf(all[0])});
      assert forall s :: s in all <==> s == all[0] || s in all[1..];
      if DistinctKeys(all) {
        forall s | s in all[1..] ensures KeyOf(s) != KeyOf(all[0]) {
          var j :| 0 <= j < |all[1..]| && all[1..][j] == s;
          assert all[j + 1] == s;
        }
      }
      if DistinctKeys(all[1..]) && forall s | s in all[1..] :: KeyOf(s) != KeyOf(all[0]) {
        forall i, j | 0 <= i < j < |all| ensures KeyOf(all[i]) != KeyOf(all[j]) {
          assert all[j] == all[1..][j - 1];
          if i != 0 {
            assert all[i] == all[1..][i - 1];
          } else {
            assert all[j] in all[1..];
          }
        }
      }
    }
  }

  lemma {:induction false} KeyErrorIff(world: World, all: seq<Signed>)
    ensures KeyError(world, all) == None <==> forall s | s in all ::
      var k := (s.sig.address, s.sig.keyIndex);
      k in world.keys && !world.keys[k].revoked
  {
    if all != [] {
      KeyErrorIff(world, all[1..]);
      assert all[0] in all && forall s :: s in all <==> s == all[0] || s in all[1..];
    }
  }

  lemma {:induction false} AuthorizerErrorIff(tx: Transaction, world: World, authorizers: seq<Address>, threshold: int)
    ensures AuthorizerError(tx, world, authorizers, threshold) == None
       <==> forall a | a in authorizers && a != tx.payer :: Weight(world, AllSigned(tx), PayloadSig, a) >= threshold
  {
    if authorizers != [] {
      AuthorizerErrorIff(tx, world, authorizers[1..], threshold);
      assert authorizers[0] in authorizers && forall a :: a in authorizers <==> a == authorizers[0] || a in authorizers[1..];
    }
  }

  lemma {:induction false} FirstErrorIff<E>(errs: seq<Option<E>>)
    ensures SignaturePool.FirstError(errs) == None <==> forall i | 0 <= i < |errs| :: errs[i].None?
  {
    if errs != [] {
      FirstErrorIff(errs[1..]);
      if forall i | 0 <= i < |errs[1..]| :: errs[1..][i].None? {
        forall i | 0 < i < |errs| ensures errs[i].None? || errs[0].Some? {
          assert errs[i] == errs[1..][i - 1];
        }
      }
    }
  }

  /** The result of verifyTransaction. */
  function Verdict(tx: Transaction, world: World, threshold: int): Option<AuthError> {
    var all := AllSigned(tx);
    if tx.payer == EMPTY_ADDRESS then Some(InvalidPayer)
    else if EntryError(tx, all, {}).Some? then EntryError(tx, all, {})
    else if threshold < 0 then None
    else if KeyError(world, all).Some? then Some(Proposal(KeyError(world, all).value))
    else if !Proposed(tx, all) then Some(Proposal(NoProposalSignature))
    else if AuthorizerError(tx, world, tx.authorizers, threshold).Some? then AuthorizerError(tx, world, tx.authorizers, threshold)
    else if Weight(world, all, EnvelopeSig, tx.payer) < threshold then Some(PayerWeight(tx.payer))
    else
      KeyErrorIff(world, all);
      assert forall s | s in all :: UsableKey(world, s);
      match SignaturePool.FirstError(Checks(world, all))
      case None => None
      case Some(e) => Some(Proposal(e))
  }

  lemma VerdictFine(tx: Transaction, world: World, threshold: int)
    ensures Verdict(tx, world, threshold) == None
       <==> if threshold < 0 then EntriesFine(tx) else Acceptable(tx, world, threshold)
  {
    hide EntryError, KeyError, AuthorizerError, Weight, AllSigned, Checks, Proposed;
    var all := AllSigned(tx);
    EntryErrorIff(tx, all, {});
    KeyErrorIff(world, all);
    AuthorizerErrorIff(tx, world, tx.authorizers, threshold);
    if forall s | s in all :: UsableKey(world, s) {
      ChecksIff(world, all);
    }
  }

  lemma ChecksIff(world: World, all: seq<Signed>)
    requires forall s | s in all :: KeyOf(s) in world.keys
    ensures SignaturePool.FirstError(Checks(world, all)) == None
       <==> forall s | s in all :: world.check(s.kind, s.sig, world.keys[KeyOf(s)]) == None
  {
    var errs := Checks(world, all);
    FirstErrorIff(errs);
    if forall s | s in all :: Checked(world, s) == None {
      forall i | 0 <= i < |errs| ensures errs[i].None? {
        assert all[i] in all;
      }
    }
    if forall i | 0 <= i < |errs| :: errs[i].None? {
      forall s | s in all ensures Checked(world, s) == None {
        var i :| 0 <= i < |all| && all[i] == s;
        assert errs[i].None?;
      }
    }
  }

  /** Everything but the signatures themselves is in order, so they are verified. */
  ghost predicate SignaturesMatter(tx: Transaction, world: World, threshold: int) {
    EntriesFine(tx) && threshold >= 0 && (forall s | s in AllSigned(tx) :: UsableKey(world, s)) && Proposed(tx, AllSigned(tx))
    && (forall a | a in tx.authorizers && a != tx.payer :: Weight(world, AllSigned(tx), PayloadSig, a) >= threshold)
    && Weight(world, AllSigned(tx), EnvelopeSig, tx.payer) >= threshold
  }

  /** Then whatever a run of the pool returns is the verdict. */
  lemma PoolGivesVerdict(tx: Transaction, world: World, threshold: int, concurrency: nat, labels: seq<SignaturePool.Label>)
    requires SignaturesMatter(tx, world, threshold)
    ensures
      var run := SignaturePool.Run(SignaturePool.Config(Checks(world, AllSigned(tx)), concurrency), labels);
      run.Some? && run.value.caller.Returned? ==>
        Verdict(tx, world, threshold) == match run.value.caller.result
          case None => None
          case Some(e) => Some(Proposal(e))
  {
    hide EntryError, KeyError, AuthorizerError, Weight, AllSigned, Checks, Proposed, SignaturePool.Run, SignaturePool.Inv;
    SignaturePool.RunsAgreeWithSequentialScan(SignaturePool.Config(Checks(world, AllSigned(tx)), concurrency), labels);
    EntryErrorIff(tx, AllSigned(tx), {});
    KeyErrorIff(world, AllSigned(tx));
    AuthorizerErrorIff(tx, world, tx.authorizers, threshold);
  }

  // ----- the code: entries and weight maps shared by reference

  /** One of the two weight maps; all entries of a group refer to the same one. */
  class Weights {
    var of: map<Address, int>

    constructor ()
      ensures of == map[]
    {
      of := map[];
    }
  }

  /** A missing entry of a Go map reads as zero. */
  function At(m: map<Address, int>, a: Address): int {
    if a in m then m[a] else 0
  }

  class SignatureContinuation {
    const signed: Signed
    const aggregate: Weights
    var accountKey: Option<AccountKey>

    constructor (signed: Signed, aggregate: Weights)
      ensures this.signed == signed && this.aggregate == aggregate && accountKey == None
    {
      this.signed := signed;
      this.aggregate := aggregate;
      accountKey := None;
    }
  }

  /** The entries are those signatures, each wired to the map of its group. */
  ghost predicate Wired(entries: seq<SignatureContinuation>, all: seq<Signed>, payload: Weights, envelope: Weights) {
    |entries| == |all| && payload != envelope
    && (forall i | 0 <= i < |entries| ::
          entries[i].signed == all[i] && entries[i].aggregate == if all[i].kind.PayloadSig? then payload else envelope)
    && (forall i, j | 0 <= i < j < |entries| :: entries[i] != entries[j])
  }

  ghost function Keys(all: seq<Signed>): set<(Address, nat)> {
    set s | s in all :: KeyOf(s)
  }

  lemma {:induction false} EntryErrorSplit(tx: Transaction, done: seq<Signed>, rest: seq<Signed>, seen: set<(Address, nat)>)
    requires EntryError(tx, done, seen) == None
    ensures EntryError(tx, done + rest, seen) == EntryError(tx, rest, seen + Keys(done))
  {
    if done == [] {
      assert done + rest == rest;
      assert seen + Keys(done) == seen;
    } else {
      EntryErrorSplit(tx, done[1..], rest, seen + {KeyOf(done[0])});
      assert (done + rest)[1..] == done[1..] + rest;
      assert forall s :: s in done <==> s == done[0] || s in done[1..];
      assert seen + Keys(done) == seen + {KeyOf(done[0])} + Keys(done[1..]);
    }
  }

  /** One more signature either decides the error or joins the accepted ones. */
  lemma EntryAt(tx: Transaction, all: seq<Signed>, k: nat)
    requires k < |all| && EntryError(tx, all[..k], {}) == None
    ensures !MaySign(tx, all[k].sig.address) ==> EntryError(tx, all, {}) == Some(NotASigner(all[k]))
    ensures MaySign(tx, all[k].sig.address) && KeyOf(all[k]) in Keys(all[..k]) ==> EntryError(tx, all, {}) == Some(Duplicate(all[k]))
    ensures MaySign(tx, all[k].sig.address) && KeyOf(all[k]) !in Keys(all[..k]) ==>
      EntryError(tx, all[..k + 1], {}) == None && Keys(all[..k + 1]) == Keys(all[..k]) + {KeyOf(all[k])}
  {
    assert all == all[..k] + all[k..] && all[..k + 1] == all[..k] + [all[k]] && [all[k]][1..] == [];
    assert {} + Keys(all[..k]) == Keys(all[..k]);
    EntryErrorSplit(tx, all[..k], all[k..], {});
    EntryErrorSplit(tx, all[..k], [all[k]], {});
    var more := Keys(all[..k]) + {KeyOf(all[k])};
    assert EntryError(tx, [all[k]][1..], more) == None;
    assert forall s :: s in all[..k + 1] <==> s == all[k] || s in all[..k];
    assert Keys(all[..k + 1]) == more;
  }

  /** Builds the entries of both groups, or reports the first signature that may not
      be there. */
  method NewSignatureEntries(tx: Transaction)
    returns (err: Option<AuthError>, entries: seq<SignatureContinuation>, payload: Weights, envelope: Weights)
    ensures err == EntryError(tx, AllSigned(tx), {})
    ensures fresh(payload) && fresh(envelope) && fresh(entries)
    ensures err == None ==> Wired(entries, AllSigned(tx), payload, envelope) && payload.of == map[] && envelope.of == map[]
  {
    hide EntryError, Keys, AllSigned;
    var addresses := {tx.payer, tx.proposal.address};
    for i := 0 to |tx.authorizers|
      invariant forall a :: a in addresses <==> a == tx.payer || a == tx.proposal.address || a in tx.authorizers[..i]
    {
      addresses := addresses + {tx.authorizers[i]};
      assert tx.authorizers[..i + 1] == tx.authorizers[..i] + [tx.authorizers[i]];
    }
    assert tx.authorizers[..|tx.authorizers|] == tx.authorizers;

    payload := new Weights();
    envelope := new Weights();
    entries := [];
    err := None;
    var all := AllSigned(tx);
    var duplicate: set<(Address, nat)> := {};
    EmptyPrefix(tx, all);
    SignedCount(tx);
    for g := 0 to 2
      invariant |entries| == (if g == 0 then 0 else if g == 1 then |tx.payloadSigs| else |all|)
      invariant Wired(entries, all[..|entries|], payload, envelope) && fresh(entries)
      invariant payload.of == map[] && envelope.of == map[]
      invariant duplicate == Keys(all[..|entries|]) && EntryError(tx, all[..|entries|], {}) == None
    {
      var kind := if g == 0 then PayloadSig else EnvelopeSig;
      var group := if g == 0 then tx.payloadSigs else tx.envelopeSigs;
      ghost var base := |entries|;
      for k := 0 to |group|
        invariant |entries| == base + k
        invariant Wired(entries, all[..|entries|], payload, envelope) && fresh(entries)
        invariant payload.of == map[] && envelope.of == map[]
        invariant duplicate == Keys(all[..|entries|]) && EntryError(tx, all[..|entries|], {}) == None
      {
        var signed := Signed(kind, group[k]);
        SignedIn(tx, g, k);
        EntryAt(tx, all, |entries|);
        var entry := new SignatureContinuation(signed, if g == 0 then payload else envelope);
        if signed.sig.address !in addresses {
          return Some(NotASigner(signed)), entries, payload, envelope;
        }
        var key := KeyOf(signed);
        if key in duplicate {
          return Some(Duplicate(signed)), entries, payload, envelope;
        }
        duplicate := duplicate + {key};
        entries := entries + [entry];
      }
    }
    assert all[..|all|] == all;
  }

  lemma SignedCount(tx: Transaction)
    ensures |AllSigned(tx)| == |tx.payloadSigs| + |tx.envelopeSigs|
  {
  }

  lemma SignedIn(tx: Transaction, g: nat, k: nat)
    requires k < if g == 0 then |tx.payloadSigs| else |tx.envelopeSigs|
    ensures |AllSigned(tx)| == |tx.payloadSigs| + |tx.envelopeSigs|
    ensures g == 0 ==> AllSigned(tx)[k] == Signed(PayloadSig, tx.payloadSigs[k])
    ensures g != 0 ==> AllSigned(tx)[|tx.payloadSigs| + k] == Signed(EnvelopeSig, tx.envelopeSigs[k])
  {
  }

  lemma EmptyPrefix(tx: Transaction, all: seq<Signed>)
    ensures Keys(all[..0]) == {} && EntryError(tx, all[..0], {}) == None
  {
  }

  lemma {:induction false} KeyErrorSplit(world: World, done: seq<Signed>, rest: seq<Signed>)
    requires KeyError(world, done) == None
    ensures KeyError(world, done + rest) == KeyError(world, rest)
  {
    if done == [] {
      assert done + rest == rest;
    } else {
      KeyErrorSplit(world, done[1..], rest);
      assert (done + rest)[1..] == done[1..] + rest;
    }
  }

  lemma {:induction false} WeightSplit(world: World, done: seq<Signed>, rest: seq<Signed>, kind: Kind, a: Address)
    ensures Weight(world, done + rest, kind, a) == Weight(world, done, kind, a) + Weight(world, rest, kind, a)
  {
    if done == [] {
      assert done + rest == rest;
    } else {
      WeightSplit(world, done[1..], rest, kind, a);
      assert (done + rest)[1..] == done[1..] + rest;
    }
  }

  /** The map holds the weight of every account in that group. */
  ghost predicate Tally(world: World, all: seq<Signed>, kind: Kind, m: map<Address, int>) {
    forall a :: At(m, a) == Weight(world, all, kind, a)
  }

  ghost predicate Tallied(world: World, all: seq<Signed>, payload: map<Address, int>, envelope: map<Address, int>) {
    Tally(world, all, PayloadSig, payload) && Tally(world, all, EnvelopeSig, envelope)
  }

  lemma TallyStep(world: World, all: seq<Signed>, k: nat, kind: Kind, m: map<Address, int>)
    requires k < |all| && KeyOf(all[k]) in world.keys && Tally(world, all[..k], kind, m)
    ensures
      var a, w := all[k].sig.address, world.keys[KeyOf(all[k])].weight;
      Tally(world, all[..k + 1], kind, if all[k].kind == kind then m[a := At(m, a) + w] else m)
  {
    assert all[..k + 1] == all[..k] + [all[k]];
    var b, w := all[k].sig.address, world.keys[KeyOf(all[k])].weight;
    var n := if all[k].kind == kind then m[b := At(m, b) + w] else m;
    forall a
      ensures At(n, a) == Weight(world, all[..k + 1], kind, a)
    {
      WeightSplit(world, all[..k], [all[k]], kind, a);
      assert At(m, a) == Weight(world, all[..k], kind, a);
      assert Weight(world, [all[k]][1..], kind, a) == 0;
    }
  }

  /** One more key either decides the error or is accepted. */
  lemma KeyAt(world: World, all: seq<Signed>, k: nat)
    requires k < |all| && KeyError(world, all[..k]) == None
    ensures KeyOf(all[k]) !in world.keys ==> KeyError(world, all) == Some(NoSuchKey(all[k]))
    ensures KeyOf(all[k]) in world.keys && world.keys[KeyOf(all[k])].revoked ==> KeyError(world, all) == Some(Revoked(all[k]))
    ensures UsableKey(world, all[k]) ==> KeyError(world, all[..k + 1]) == None
  {
    assert all == all[..k] + all[k..] && all[..k + 1] == all[..k] + [all[k]] && [all[k]][1..] == [];
    KeyErrorSplit(world, all[..k], all[k..]);
    KeyErrorSplit(world, all[..k], [all[k]]);
  }

  /** Looks up the keys, adds their weights to the maps the entries refer to, and
      looks for a signature by the proposal key. */
  method GetAccountKeysAndAggregateWeights(
    world: World, entries: seq<SignatureContinuation>, proposal: ProposalKey,
    ghost tx: Transaction, ghost payload: Weights, ghost envelope: Weights)
    returns (err: Option<AuthError>)
    requires tx.proposal == proposal && Wired(entries, AllSigned(tx), payload, envelope)
    requires payload.of == map[] && envelope.of == map[]
    modifies payload, envelope, entries
    ensures err ==
      if KeyError(world, AllSigned(tx)).Some? then KeyError(world, AllSigned(tx))
      else if Proposed(tx, AllSigned(tx)) then None
      else Some(NoProposalSignature)
    ensures err == None ==> Tallied(world, AllSigned(tx), payload.of, envelope.of)
    ensures err == None ==> forall e | e in entries :: KeyOf(e.signed) in world.keys && e.accountKey == Some(world.keys[KeyOf(e.signed)])
  {
    hide KeyError, Weight;
    ghost var all := AllSigned(tx);
    var found := false;
    NothingYet(world, all);
    for i := 0 to |entries|
      invariant KeyError(world, all[..i]) == None
      invariant found <==> Proposed(tx, all[..i])
      invariant Tallied(world, all[..i], payload.of, envelope.of)
      invariant forall j | 0 <= j < i :: KeyOf(all[j]) in world.keys && entries[j].accountKey == Some(world.keys[KeyOf(all[j])])
    {
      KeyAt(world, all, i);
      var entry := entries[i];
      if KeyOf(entry.signed) !in world.keys {
        return Some(NoSuchKey(entry.signed));
      }
      var accountKey := world.keys[KeyOf(entry.signed)];
      if accountKey.revoked {
        return Some(Revoked(entry.signed));
      }
      TallyStep(world, all, i, PayloadSig, payload.of);
      TallyStep(world, all, i, EnvelopeSig, envelope.of);
      entry.accountKey := Some(accountKey);
      var a := entry.signed.sig.address;
      var w := entry.aggregate;
      w.of := w.of[a := At(w.of, a) + accountKey.weight];
      ProposedStep(tx, all, i);
      if !found && KeyOf(entry.signed) == (proposal.address, proposal.keyIndex) {
        found := true;
      }
    }
    assert all[..|all|] == all;
    if !found {
      return Some(NoProposalSignature);
    }
    err := None;
  }

  lemma NothingYet(world: World, all: seq<Signed>)
    ensures KeyError(world, all[..0]) == None && Tallied(world, all[..0], map[], map[])
  {
  }

  lemma ProposedStep(tx: Transaction, all: seq<Signed>, k: nat)
    requires k < |all|
    ensures Proposed(tx, all[..k + 1]) <==> Proposed(tx, all[..k]) || Proposes(tx, all[k])
  {
    assert all[..k + 1][k] == all[k];
    assert forall j | 0 <= j < k :: all[..k + 1][j] == all[..k][j];
  }

  lemma {:induction false} AuthorizerErrorSplit(tx: Transaction, world: World, done: seq<Address>, rest: seq<Address>, threshold: int)
    requires AuthorizerError(tx, world, done, threshold) == None
    ensures AuthorizerError(tx, world, done + rest, threshold) == AuthorizerError(tx, world, rest, threshold)
  {
    if done == [] {
      assert done + rest == rest;
    } else {
      AuthorizerErrorSplit(tx, world, done[1..], rest, threshold);
      assert (done + rest)[1..] == done[1..] + rest;
    }
  }

  lemma AuthorizerAt(tx: Transaction, world: World, k: nat, threshold: int)
    requires k < |tx.authorizers| && AuthorizerError(tx, world, tx.authorizers[..k], threshold) == None
    ensures
      var a := tx.authorizers[k];
      if a == tx.payer || Weight(world, AllSigned(tx), PayloadSig, a) >= threshold
      then AuthorizerError(tx, world, tx.authorizers[..k + 1], threshold) == None
      else AuthorizerError(tx, world, tx.authorizers, threshold) == Some(AuthorizerWeight(a))
  {
    var all := tx.authorizers;
    assert all == all[..k] + all[k..] && all[..k + 1] == all[..k] + [all[k]] && [all[k]][1..] == [];
    AuthorizerErrorSplit(tx, world, all[..k], all[k..], threshold);
    AuthorizerErrorSplit(tx, world, all[..k], [all[k]], threshold);
  }

  /** verifyTransaction, with a worker in the pool if it comes to that: without one the
      source would not return. */
  method VerifyTransaction(tx: Transaction, world: World, threshold: int, concurrency: nat) returns (err: Option<AuthError>)
    requires concurrency > 0 || !SignaturesMatter(tx, world, threshold)
    ensures err == Verdict(tx, world, threshold)
  {
    hide EntryError, KeyError, Weight, AuthorizerError, Proposed, Wired, AllSigned, Checks;
    if tx.payer == EMPTY_ADDRESS {
      return Some(InvalidPayer);
    }
    var entries, payload, envelope;
    err, entries, payload, envelope := NewSignatureEntries(tx);
    if err.Some? {
      return err;
    }
    if threshold < 0 {
      return None;
    }
    err := GetAccountKeysAndAggregateWeights(world, entries, tx.proposal, tx, payload, envelope);
    if err.Some? {
      return Some(Proposal(err.value));
    }
    NoAuthorizers(tx, world, threshold);
    for i := 0 to |tx.authorizers|
      invariant AuthorizerError(tx, world, tx.authorizers[..i], threshold) == None
      invariant Tallied(world, AllSigned(tx), payload.of, envelope.of)
    {
      AuthorizerAt(tx, world, i, threshold);
      var a := tx.authorizers[i];
      if a == tx.payer {
        continue;
      }
      if At(payload.of, a) < threshold {
        return Some(AuthorizerWeight(a));
      }
    }
    assert tx.authorizers[..|tx.authorizers|] == tx.authorizers;
    if At(envelope.of, tx.payer) < threshold {
      return Some(PayerWeight(tx.payer));
    }
    KeyErrorIff(world, AllSigned(tx));
    assert forall s | s in AllSigned(tx) :: UsableKey(world, s);
    EntryErrorIff(tx, AllSigned(tx), {});
    AuthorizerErrorIff(tx, world, tx.authorizers, threshold);
    var failed := SignaturePool.VerifySignatures(Checks(world, AllSigned(tx)), concurrency);
    return match failed case None => None case Some(e) => Some(Proposal(e));
  }

  lemma NoAuthorizers(tx: Transaction, world: World, threshold: int)
    ensures AuthorizerError(tx, world, tx.authorizers[..0], threshold) == None
  {
  }
}
