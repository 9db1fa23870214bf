/** What holds of every run of a transaction, and of every sequence of runs,
    whatever Cadence and the contracts do. */
module ExecutorLaws {
  import opened Bytes
  import opened NestedTransactions
  import opened Executor

  /** The authorization and sequence number checks let the transaction through. */
  predicate Passed(w: World, store: Writes) {
    CheckError(w, store).None?
  }

  /** The increment of the sequence number, if that check ran and passed. */
  function Increment(w: World, store: Writes): Writes {
    if Passed(w, store) then CheckedWrites(w, store) else map[]
  }

  /** The writes of a successful second attempt to deduct fees. */
  function PaidOnRetry(w: World, store: Writes): Writes {
    if Started(w, store) && w.fees && w.retry.err == None then w.retry.effect.writes else map[]
  }

  // ----- rollback

  /** A transaction that commits with an error leaves its increment and the fees of one
      successful retry, and nothing else. */
  lemma Rollback(w: World, store: Writes)
    requires Outcome(w, store).Committed? && Outcome(w, store).err.Some?
    ensures Outcome(w, store).writes == Increment(w, store) + PaidOnRetry(w, store)
  {
    hide Normal, SequenceError, SequenceWrites;
    assert forall m: Writes {:trigger m + map[]} :: m + map[] == m;
  }

  lemma NoBodyWriteSurvives(w: World, store: Writes, r: Register)
    requires Outcome(w, store).Committed? && Outcome(w, store).err.Some?
    requires r in Outcome(w, store).writes
    ensures (r == w.proposalKey && Passed(w, store) && w.sequenceChecks) || r in w.retry.effect.writes
  {
    hide Outcome, SequenceError;
    Rollback(w, store);
  }

  /** A transaction without an error leaves every layer, each once, in order. */
  lemma Success(w: World, store: Writes)
    requires Outcome(w, store).Committed? && Outcome(w, store).err.None? && w.bodyExecution
    ensures Started(w, store) && Leaked(w) == []
    ensures Outcome(w, store).writes == Increment(w, store) + (w.preprocessing.effect.writes + NormalWrites(w))
  {
    hide Normal, SequenceError, SequenceWrites, NormalWrites;
  }

  /** Only the two attempts to deduct fees write the register. */
  predicate FeeRegister(w: World, r: Register) {
    r != w.proposalKey && r !in w.preprocessing.effect.writes && r !in w.balance.effect.writes
    && r !in w.body.effect.writes && r !in w.flush.effect.writes && r !in w.storage.effect.writes
  }

  /** Fees survive at most once: what is committed of them comes from the first attempt
      if there is no error, else from a retry that succeeded, and never from both. */
  lemma FeesSurviveAtMostOnce(w: World, store: Writes, r: Register)
    requires Outcome(w, store).Committed? && FeeRegister(w, r)
    ensures
      var paid :=
        if Outcome(w, store).err.Some? then PaidOnRetry(w, store)
        else if Started(w, store) && w.fees then w.fee.effect.writes
        else map[];
      (r in Outcome(w, store).writes <==> r in paid) && (r in paid ==> Outcome(w, store).writes[r] == paid[r])
  {
    hide Normal, SequenceError, Leaked;
    if Outcome(w, store).err.None? && w.bodyExecution {
      Success(w, store);
    }
  }

  /** A world in which nothing happens. */
  const QUIET := World(
    true, true, true, true,
    None,
    Register([], []), 0, Some(false), Coded(0), None,
    None, map[],
    Cached(map[], 0), 0, NOTHING,
    NOTHING, NOTHING, NOTHING, NOTHING, NOTHING, NOTHING,
    None)

  // ----- nesting

  predicate Foreigner(e: Option<Err>) {
    e.Some? ==> !e.value.Internal?
  }

  /** The code outside does not make up the executor's own errors. */
  predicate Foreigners(w: World) {
    Foreigner(w.authorization) && !w.keyError.Internal? && Foreigner(w.readError) && Foreigner(w.incrementError)
    && Foreigner(w.preprocessing.err) && Foreigner(w.balance.err) && Foreigner(w.body.err) && Foreigner(w.flush.err)
    && Foreigner(w.storage.err) && Foreigner(w.fee.err) && Foreigner(w.retry.err)
    && (w.params.Computed? ==> Foreigner(w.params.effort.err) && Foreigner(w.params.memory.err) && Foreigner(w.params.memoryLimit.err))
  }

  /** A call that returns no error has closed what it opened. */
  predicate Tidy(s: Step) {
    s.err.None? ==> s.effect.open == []
  }

  predicate AllTidy(w: World) {
    Tidy(w.preprocessing) && Tidy(w.balance) && Tidy(w.body) && Tidy(w.flush) && Tidy(w.storage) && Tidy(w.fee) && Tidy(w.retry)
    && (w.params.Computed? ==> TidyRead(w.params.effort) && TidyRead(w.params.memory) && TidyRead(w.params.memoryLimit))
  }

  /** The same for a setting, whose user errors are passed over. */
  predicate TidyRead(s: Step) {
    Fatally(s.err).None? ==> s.effect.open == []
  }

  predicate Unexpected(r: Result) {
    r.Discarded? && r.stop.Failed? && r.stop.errs.failure == Some(Internal(UnexpectedNested))
  }

  /** The commit finds other frames open exactly when a call on its path returned
      without error and left one. */
  lemma NestingBalance(w: World, store: Writes)
    requires Foreigners(w)
    ensures Unexpected(Outcome(w, store)) <==>
      Started(w, store) && match BodyError(w)
        case None => Leaked(w) != []
        case Some(e) => !IsFailure(e) && IfFees(w, w.retry).err.None? && IfFees(w, w.retry).effect.open != []
  {
    hide SequenceWrites, Leaked, NormalWrites, Normal, SequenceError;
    NormalErrors(w);
    CheckErrors(w, store);
  }

  lemma CheckErrors(w: World, store: Writes)
    requires Foreigners(w)
    ensures Foreigner(CheckError(w, store))
  {
  }

  lemma NormalErrors(w: World)
    requires Foreigners(w)
    ensures Normal(w).err != Some(Internal(UnexpectedNested))
  {
  }

  /** With tidy calls no run ends in an error of the executor or the stack. */
  lemma TidyRunsBalance(w: World, store: Writes)
    requires Foreigners(w) && AllTidy(w)
    ensures Outcome(w, store).Discarded? && Outcome(w, store).stop.Failed? ==>
      Outcome(w, store).stop.errs.failure.Some? && !Outcome(w, store).stop.errs.failure.value.Internal?
  {
    hide SequenceWrites, NormalWrites, Normal, SequenceError;
    if BodyError(w).None? {
      NoErrorNoLeak(w);
    }
    TidyNormal(w);
    CheckErrors(w, store);
  }

  lemma NoErrorNoLeak(w: World)
    requires AllTidy(w) && BodyError(w).None?
    ensures Leaked(w) == []
  {
  }

  lemma TidyNormal(w: World)
    requires Foreigners(w) && AllTidy(w)
    ensures w.preprocessing.err.None? ==> Foreigner(Normal(w).err)
  {
  }

  // ----- fees

  /** The share of the first fee attempt in the meter a failed transaction is charged
      for: what it metered in frames it left open. */
  function FeeLeak(w: World): nat {
    if w.fees && w.preprocessing.err.None? && BeforeFee(w).err.None? && w.fee.err.Some? then HeldTotal(w.fee.effect.open) else 0
  }

  lemma SpentIs(w: World)
    ensures (w.preprocessing.err.Some? || Normal(w).err.Some?) && w.fees ==> Spent(w) == Metered(w) + FeeLeak(w)
  {
  }

  /** The calls before the first fee deduction closed what they opened, if it came to
      that. */
  predicate TidyAtFees(w: World) {
    FirstCharge(w) != [] ==>
      w.preprocessing.effect.open == [] && IfFees(w, w.balance).effect.open == [] && w.storage.effect.open == []
  }

  lemma AtFeesIs(w: World)
    requires TidyAtFees(w) && FirstCharge(w) != []
    ensures AtFees(w) == Reading(Metered(w), w.limit)
  {
  }

  lemma SuccessIsTidy(w: World, store: Writes)
    requires Outcome(w, store).Committed? && Outcome(w, store).err.None?
    ensures Started(w, store) ==> TidyAtFees(w)
  {
    hide Normal, SequenceError, SequenceWrites, NormalWrites, FirstCharge;
    assert Started(w, store) ==> Leaked(w) == [];
  }

  /** The charge whose fees, if any, are committed: that of the last attempt. */
  function Settled(w: World): nat
    requires Charges(w) != []
  {
    Charges(w)[|Charges(w)| - 1]
  }

  /** A committed transaction pays for the computation metered before fees, capped at
      the limit, failed body or not; unless a failed first attempt to deduct fees left
      metered frames open and the limit was not reached. */
  lemma SettledIsMetered(w: World, store: Writes)
    requires Outcome(w, store).Committed? && Started(w, store) && w.fees
    ensures Charges(w) != [] && Settled(w) <= w.limit
    ensures Settled(w) == Capped(Metered(w), w.limit)
      <==> (Reported(Metered(w)) >= w.limit || Reported(Metered(w) + FeeLeak(w)) == Reported(Metered(w)))
  {
    hide Outcome, Started, Metered, AtFees, HeldTotal;
    SpentIs(w);
    StartedCharges(w, store);
    ReportedGrows(Metered(w), FeeLeak(w));
    if BodyError(w).None? {
      AtFeesIs(w);
    }
  }

  lemma StartedCharges(w: World, store: Writes)
    requires Outcome(w, store).Committed? && Started(w, store) && w.fees
    ensures BodyError(w).None? ==> FirstCharge(w) != [] && TidyAtFees(w)
    ensures BodyError(w).Some? ==> Charges(w) == FirstCharge(w) + [Capped(Spent(w), w.limit)]
  {
    if BodyError(w).None? {
      assert Outcome(w, store).err.None?;
      SuccessIsTidy(w, store);
    }
  }

  lemma ReportedGrows(meter: nat, more: nat)
    ensures Reported(meter + more) >= Reported(meter)
  {
  }

  /** With tidy calls the same holds of every attempt, whatever comes of it. */
  lemma ChargesAreMetered(w: World)
    requires TidyAtFees(w)
    ensures (forall c | c in Charges(w) :: c == Capped(Metered(w), w.limit))
      <==> (Reported(Metered(w)) >= w.limit || Reported(Metered(w) + FeeLeak(w)) == Reported(Metered(w)))
    ensures |Charges(w)| <= 2 && forall c | c in Charges(w) :: c <= w.limit
  {
    hide Metered, AtFees, HeldTotal;
    SpentIs(w);
    if |Charges(w)| >= 1 {
      assert Charges(w)[0] in Charges(w);
    }
    if |Charges(w)| == 2 {
      assert Charges(w)[1] in Charges(w);
    }
    if FirstCharge(w) != [] {
      AtFeesIs(w);
    }
    ReportedGrows(Metered(w), FeeLeak(w));
  }

  /** A charge that is paid, or that any tidy transaction is told. */
  predicate Owed(w: World, store: Writes, charge: nat) {
    charge in Charges(w) && (TidyAtFees(w) || (Outcome(w, store).Committed? && Started(w, store) && charge == Settled(w)))
  }

  lemma OwedBelowLimit(w: World, store: Writes, charge: nat)
    requires Owed(w, store, charge)
    ensures charge <= w.limit
  {
    hide Outcome, Started, AtFees, Metered, Spent, Capped;
    if TidyAtFees(w) {
      ChargesAreMetered(w);
    } else {
      SettledIsMetered(w, store);
    }
  }

  /** How such a leak comes about: code that runs with metering disabled computes derived
      data, which is metered all the same and without limits, and does not finish it. */
  lemma UnmeteredCodeCanLeak(s: Stack, leak: nat)
    requires Valid(s) && Current(s).restricted == None
    ensures
      var t := Executed(s, |s.frames| - 1, Unmetered(Then(OpenDerived, Then(NestedTransactions.Charge(leak), End)), End));
      t.off == s.off && |t.frames| == |s.frames| + 1 && t.frames[..|s.frames|] == s.frames
      && Contents(Current(t)) == Held(map[], leak, NO_LIMIT, None)
  {
    var ctl := Current(s).ctl;
    var quiet := s.(off := s.off + {ctl});
    var f := Frame(s.next, s.next, map[], 0, NO_LIMIT, None);
    assert BeginDerived(quiet) == Some(Push(quiet, f));
    var charged := Meter(Push(quiet, f), leak);
    assert charged.frames == s.frames + [f.(meter := leak)];
    var base := |s.frames| - 1;
    assert Executed(charged, base, End) == charged;
    assert Executed(Push(quiet, f), base, Then(NestedTransactions.Charge(leak), End)) == charged;
    assert Executed(quiet, base, Then(OpenDerived, Then(NestedTransactions.Charge(leak), End))) == charged;
    assert (if ctl in s.off then charged.off + {ctl} else charged.off - {ctl}) == s.off;
  }

  /** The exception is real: a failed first attempt is charged on the second. */
  lemma FeeLeakIsCharged(leak: nat)
    requires leak >= 0x1_0000
    ensures
      var w := QUIET.(limit := Reported(leak), fee := Step(Effect(map[], 0, [Held(map[], leak, NO_LIMIT, None)]), Some(Coded(3))));
      Outcome(w, map[]).Committed? && Metered(w) == 0 && Charges(w) == [0, Reported(leak)] && Reported(leak) > 0
  {
    var open := [Held(map[], leak, NO_LIMIT, None)];
    assert open[1..] == [];
    assert HeldTotal(open) == leak;
    var w := QUIET.(limit := Reported(leak), fee := Step(Effect(map[], 0, open), Some(Coded(3))));
    assert BeforeFee(w) == Part(None, 0);
    assert Stored(w, map[]) == 0 && SequenceError(w, 0) == None;
  }

  // ----- sequence numbers over many transactions

  /** The storage after running transactions one after the other. */
  function After(ws: seq<World>, store: Writes): Writes {
    if ws == [] then store
    else
      var r := Outcome(ws[0], store);
      After(ws[1..], if r.Committed? then store + r.writes else store)
  }

  /** Foreign code leaves the register alone. */
  predicate Spares(s: Step, key: Register) {
    key !in s.effect.writes
  }

  predicate AllSpare(w: World, key: Register) {
    Spares(w.preprocessing, key) && Spares(w.balance, key) && Spares(w.body, key)
    && Spares(w.flush, key) && Spares(w.storage, key) && Spares(w.fee, key) && Spares(w.retry, key)
  }

  /** The transaction is committed, was checked against the key and passed. */
  predicate Counts(w: World, store: Writes, key: Register) {
    Outcome(w, store).Committed? && w.sequenceChecks && w.proposalKey == key && Passed(w, store)
  }

  /** How many of the transactions count, each in the storage it met. */
  function Passes(ws: seq<World>, store: Writes, key: Register): nat {
    if ws == [] then 0
    else
      (if Counts(ws[0], store, key) then 1 else 0)
      + Passes(ws[1..], After(ws[..1], store), key)
  }

  function Number(store: Writes, key: Register): nat {
    NumberOf(if key in store then Some(store[key]) else None)
  }

  lemma SparedWrites(w: World, key: Register)
    requires AllSpare(w, key)
    ensures key !in w.preprocessing.effect.writes + NormalWrites(w)
  {
  }

  /** The only write of a committed transaction to such a register is its increment. */
  lemma KeyWritten(w: World, store: Writes, key: Register)
    requires AllSpare(w, key) && Outcome(w, store).Committed?
    ensures key in Outcome(w, store).writes <==> key in Increment(w, store)
    ensures key in Increment(w, store) ==> Outcome(w, store).writes[key] == Increment(w, store)[key]
  {
    hide Normal, NormalWrites, Gets, SequenceError, SequenceWrites;
    SparedWrites(w, key);
  }

  /** One transaction moves the number of a key by one if it counts for it, failed
      body or not, and else leaves it. */
  lemma OneTransaction(w: World, store: Writes, key: Register)
    requires AllSpare(w, key)
    ensures
      var n := Number(store, key);
      Number(After([w], store), key) == if Counts(w, store, key) then (n + 1) % SEQUENCE_NUMBERS else n
    ensures Counts(w, store, key) ==> w.proposed == Number(store, key)
  {
    hide Outcome, AllSpare;
    assert [w][1..] == [];
    if Outcome(w, store).Committed? {
      KeyWritten(w, store, key);
    }
  }

  lemma {:induction false} AfterStep(ws: seq<World>, store: Writes)
    requires ws != []
    ensures After(ws, store) == After(ws[1..], After(ws[..1], store))
  {
    assert ws[..1][1..] == [] && ws[..1][0] == ws[0];
  }

  /** A key's number is its initial one plus the committed transactions that passed
      the check, in the arithmetic of 64 bits. */
  lemma {:induction false} NumbersCountPasses(ws: seq<World>, store: Writes, key: Register)
    requires Number(store, key) < SEQUENCE_NUMBERS
    requires forall w | w in ws :: AllSpare(w, key)
    ensures Number(After(ws, store), key) == (Number(store, key) + Passes(ws, store, key)) % SEQUENCE_NUMBERS
  {
    hide AllSpare, Counts, Outcome, Number;
    if ws != [] {
      assert ws[..1] == [ws[0]];
      AfterStep(ws, store);
      OneTransaction(ws[0], store, key);
      var next := After(ws[..1], store);
      NumbersCountPasses(ws[1..], next, key);
      WrapSum(Number(store, key), Passes(ws[1..], next, key));
    }
  }

  lemma WrapSum(n: nat, k: nat)
    ensures ((n + 1) % SEQUENCE_NUMBERS + k) % SEQUENCE_NUMBERS == (n + 1 + k) % SEQUENCE_NUMBERS
  {
  }

  /** A number that comes back to the same key has gone all the way around. */
  lemma ReplayNeedsWrap(ws: seq<World>, store: Writes, last: World, key: Register)
    requires ws != [] && Number(store, key) < SEQUENCE_NUMBERS
    requires AllSpare(last, key) && forall w | w in ws :: AllSpare(w, key)
    requires Counts(ws[0], store, key) && Counts(last, After(ws, store), key) && last.proposed == ws[0].proposed
    ensures |ws| >= SEQUENCE_NUMBERS
  {
    hide AllSpare, Counts, Outcome, Number, After;
    NumbersCountPasses(ws, store, key);
    OneTransaction(last, After(ws, store), key);
    OneTransaction(ws[0], store, key);
    PassesBound(ws, store, key);
    WrapsAround(Number(store, key), Passes(ws, store, key));
  }

  lemma {:induction false} AfterSplit(ws: seq<World>, i: nat, store: Writes)
    requires i <= |ws|
    ensures After(ws, store) == After(ws[i..], After(ws[..i], store))
  {
    hide After;
    if i == 0 {
      assert ws[0..] == ws && ws[..0] == [];
      AfterNone(store);
    } else {
      var rest, next := ws[1..], After(ws[..1], store);
      AfterStep(ws, store);
      AfterSplit(rest, i - 1, next);
      assert rest[i - 1..] == ws[i..];
      AfterStep(ws[..i], store);
      assert ws[..i][..1] == ws[..1] && ws[..i][1..] == rest[..i - 1];
    }
  }

  lemma AfterNone(store: Writes)
    ensures After([], store) == store
  {
  }

  /** Among fewer than 2^64 transactions no two pass with the same key and number. */
  lemma NoReplay(ws: seq<World>, store: Writes, i: nat, j: nat, key: Register)
    requires i < j < |ws| < SEQUENCE_NUMBERS && Number(store, key) < SEQUENCE_NUMBERS
    requires forall w | w in ws :: AllSpare(w, key)
    requires Counts(ws[i], After(ws[..i], store), key) && Counts(ws[j], After(ws[..j], store), key)
    ensures ws[i].proposed != ws[j].proposed
  {
    hide AllSpare, Counts, Outcome, Number, After;
    var met := After(ws[..i], store);
    NumbersCountPasses(ws[..i], store, key);
    AfterSplit(ws[..j], i, store);
    assert ws[..j][..i] == ws[..i] && ws[..j][i..] == ws[i..j];
    if ws[i].proposed == ws[j].proposed {
      assert ws[i..j][0] == ws[i];
      assert forall w | w in ws[i..j] :: w in ws;
      ReplayNeedsWrap(ws[i..j], met, ws[j], key);
    }
  }

  lemma {:induction false} PassesBound(ws: seq<World>, store: Writes, key: Register)
    ensures Passes(ws, store, key) <= |ws|
  {
    if ws != [] {
      PassesBound(ws[1..], After(ws[..1], store), key);
    }
  }

  lemma WrapsAround(n: nat, p: nat)
    requires n < SEQUENCE_NUMBERS && (n + p) % SEQUENCE_NUMBERS == n && p >= 1
    ensures p >= SEQUENCE_NUMBERS
  {
  }
}
