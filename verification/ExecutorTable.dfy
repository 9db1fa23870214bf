/** How every run of a transaction ends, written out from what the code outside does
    and without the executor's own functions. */
module ExecutorTable {
  import opened Bytes
  import opened NestedTransactions
  import opened Executor

  // ----- before the body

  /** The end of a run that an error stopped before its body: a failure discards it, a
      user error is all that is committed, and nothing is charged. */
  ghost predicate RefusedWith(w: World, store: Writes, e: Err) {
    !Started(w, store)
    && Outcome(w, store) ==
         if !e.Coded? then Discarded(Failed(Errors([], Some(e))))
         else if w.derivedCommit.Some? then Discarded(DerivedCommitFailed)
         else Committed(map[], Some([e]))
  }

  /** A transaction without authorization does nothing, whatever its sequence number. */
  lemma Unauthorized(w: World, store: Writes)
    requires w.authorizationChecks && w.authorization.Some?
    ensures RefusedWith(w, store, w.authorization.value)
  {
  }

  /** The number a register holds: 0 unless it holds one. */
  function NumberAt(store: Writes, key: Register): nat {
    if key in store && store[key].Sequence? then store[key].n else 0
  }

  /** Neither does one whose proposal key is missing, revoked or has another number; the
      reasons come in this order. */
  lemma BadProposal(w: World, store: Writes)
    requires !(w.authorizationChecks && w.authorization.Some?) && w.sequenceChecks
    ensures w.revoked == None ==> RefusedWith(w, store, w.keyError)
    ensures w.revoked == Some(true) ==> RefusedWith(w, store, Coded(1006))
    ensures w.revoked == Some(false) && w.readError.Some? ==> RefusedWith(w, store, w.readError.value)
    ensures w.revoked == Some(false) && w.readError.None? && NumberAt(store, w.proposalKey) != w.proposed ==>
      RefusedWith(w, store, Coded(1007))
    ensures w.revoked == Some(false) && w.readError.None? && NumberAt(store, w.proposalKey) == w.proposed && w.incrementError.Some? ==>
      RefusedWith(w, store, w.incrementError.value)
  {
    hide Gets, Finished;
  }

  /** Both checks are switched off or find nothing wrong. */
  ghost predicate ChecksPass(w: World, store: Writes) {
    (w.authorizationChecks ==> w.authorization == None)
    && (w.sequenceChecks ==>
          w.revoked == Some(false) && w.readError == None && NumberAt(store, w.proposalKey) == w.proposed && w.incrementError == None)
  }

  /** What a transaction that passed them has written by then. */
  function Incremented(w: World, store: Writes): Writes {
    if w.sequenceChecks then map[w.proposalKey := Sequence((NumberAt(store, w.proposalKey) + 1) % 0x1_0000_0000_0000_0000)] else map[]
  }

  lemma ChecksPassIff(w: World, store: Writes)
    ensures CheckError(w, store) == None <==> ChecksPass(w, store)
    ensures ChecksPass(w, store) ==> CheckedWrites(w, store) == Incremented(w, store)
  {
  }

  ghost predicate Harmless(s: Step) {
    (s.err == None || s.err.value.Coded?) && s.effect.open == [] && s.effect.writes == map[]
  }

  /** The metering parameters can be had: nothing fails, stays open or is written. */
  ghost predicate ParametersFine(p: Params) {
    match p
    case Cached(writes, _) => writes == map[]
    case Computed(a, b, c) => Harmless(a) && Harmless(b) && Harmless(c)
  }

  lemma Unions(a: Writes, b: Writes)
    ensures a + b == map[] <==> a == map[] && b == map[]
  {
    assert forall k | k in a :: k in a + b;
    assert forall k | k in b :: k in a + b;
  }

  lemma ParametersFineIff(p: Params)
    ensures Gets(p) == Got <==> ParametersFine(p)
  {
    if p.Computed? {
      Unions(p.effort.effect.writes, p.memory.effect.writes);
      Unions(p.effort.effect.writes + p.memory.effect.writes, p.memoryLimit.effect.writes);
    }
  }

  /** A transaction that is only checked ends with its number incremented. */
  lemma OnlyChecked(w: World, store: Writes)
    requires ChecksPass(w, store) && !w.bodyExecution
    ensures !Started(w, store)
    ensures Outcome(w, store) ==
      if w.derivedCommit.Some? then Discarded(DerivedCommitFailed) else Committed(Incremented(w, store), None)
  {
    hide CheckError, CheckedWrites;
    ChecksPassIff(w, store);
  }

  ghost predicate Fails(s: Step) {
    s.err.Some? && !s.err.value.Coded?
  }

  /** A body is not started without its parameters, and then nothing is committed: the
      first setting that fails is the reason, else a frame left open; parameters that
      come with writes are a panic. */
  lemma NoParameters(w: World, store: Writes)
    requires ChecksPass(w, store) && w.bodyExecution && !ParametersFine(w.params)
    ensures !Started(w, store) && Outcome(w, store) == Discarded(match w.params
      case Cached(_, _) => Panicked
      case Computed(a, b, c) =>
        if Fails(a) then Failed(Errors([], a.err))
        else if Fails(b) then Failed(Errors([], b.err))
        else if Fails(c) then Failed(Errors([], c.err))
        else if a.effect.open != [] || b.effect.open != [] || c.effect.open != [] then Failed(Errors([], Some(Internal(CommitMismatch))))
        else Panicked)
  {
    hide CheckError, CheckedWrites;
    ChecksPassIff(w, store);
    ParametersFineIff(w.params);
  }

  // ----- the body

  /** One thing that can go wrong in a body, and the computation metered by then. */
  datatype Stage = Stage(err: Option<Err>, used: nat)

  function FirstError(stages: seq<Stage>): Option<Err> {
    if stages == [] then None
    else if stages[0].err.Some? then stages[0].err
    else FirstError(stages[1..])
  }

  /** Everything up to the first error, that included. */
  function UsedUntil(stages: seq<Stage>): nat {
    if stages == [] then 0
    else stages[0].used + if stages[0].err.Some? then 0 else UsedUntil(stages[1..])
  }

  /** A call, metered or not; what it did in frames of its own that it left open is
      metered in any case. */
  function Call(s: Step, metered: bool): Stage {
    Stage(s.err, (if metered then s.effect.used else 0) + HeldTotal(s.effect.open))
  }

  function FeeCall(w: World, s: Step): Stage {
    if w.fees then Call(s, false) else Stage(None, 0)
  }

  /** The last of the frames left open by two calls, the second one above the first. */
  function LastOpen(low: seq<Held>, high: seq<Held>): Option<Held> {
    if high != [] then Some(high[|high| - 1])
    else if low != [] then Some(low[|low| - 1])
    else None
  }

  /** The frame of the body is refused below a restricted one. */
  function Beginning(w: World): Stage {
    var last := LastOpen(w.preprocessing.effect.open, if w.fees then w.balance.effect.open else []);
    Stage(if last.Some? && last.value.restricted.Some? then Some(Internal(BeginRefused)) else None, 0)
  }

  /** It cannot be committed below an open one. */
  function Ending(w: World): Stage {
    Stage(if w.body.effect.open != [] || w.flush.effect.open != [] then Some(Internal(CommitMismatch)) else None, 0)
  }

  /** A body from its preparation by Cadence to the deduction of fees. */
  function Stages(w: World): seq<Stage> {
    [Call(w.preprocessing, true)] + ([FeeCall(w, w.balance)] + ([Beginning(w)] + ([Call(w.body, true)]
    + ([Call(w.flush, true)] + ([Ending(w)] + ([Call(w.storage, true)] + [FeeCall(w, w.fee)]))))))
  }

  lemma Next(s: Stage, rest: seq<Stage>)
    ensures FirstError([s] + rest) == if s.err.Some? then s.err else FirstError(rest)
    ensures UsedUntil([s] + rest) == s.used + if s.err.Some? then 0 else UsedUntil(rest)
  {
    assert ([s] + rest)[1..] == rest;
  }

  lemma Last(s: Stage)
    ensures FirstError([s]) == s.err && UsedUntil([s]) == s.used
  {
    assert [s][1..] == [];
  }

  /** The error of a body is the first in this order, and what it has metered is what the
      calls up to that one metered. */
  lemma BodyStages(w: World)
    ensures BodyError(w) == FirstError(Stages(w))
    ensures Spent(w) == UsedUntil(Stages(w))
  {
    hide FirstError, UsedUntil, HeldTotal;
    var s7 := [FeeCall(w, w.fee)];
    var s6 := [Call(w.storage, true)] + s7;
    var s5 := [Ending(w)] + s6;
    var s4 := [Call(w.flush, true)] + s5;
    var s3 := [Call(w.body, true)] + s4;
    var s2 := [Beginning(w)] + s3;
    var s1 := [FeeCall(w, w.balance)] + s2;
    Last(FeeCall(w, w.fee));
    Next(Call(w.storage, true), s7);
    Next(Ending(w), s6);
    Next(Call(w.flush, true), s5);
    Next(Call(w.body, true), s4);
    Next(Beginning(w), s3);
    Next(FeeCall(w, w.balance), s2);
    Next(Call(w.preprocessing, true), s1);
    NothingHeld();
    BeginningIs(w);
  }

  lemma NothingHeld()
    ensures HeldTotal([]) == 0
  {
  }

  lemma BeginningIs(w: World)
    ensures Beginning(w).err.Some? <==> Refuses(w.preprocessing.effect.open + IfFees(w, w.balance).effect.open)
  {
  }

  /** A body starts unless something fails before or while Cadence prepares it. */
  ghost predicate BodyStarts(w: World, store: Writes) {
    ChecksPass(w, store) && w.bodyExecution && ParametersFine(w.params)
    && (w.preprocessing.err == None || w.preprocessing.err.value.Coded?)
  }

  lemma StartedIff(w: World, store: Writes)
    ensures Started(w, store) <==> BodyStarts(w, store)
  {
    hide CheckError, CheckedWrites, Gets;
    ChecksPassIff(w, store);
    ParametersFineIff(w.params);
  }

  lemma Starting(w: World, store: Writes)
    requires ChecksPass(w, store) && w.bodyExecution && ParametersFine(w.params)
    ensures Execution(w, store) == Finished(w, Incremented(w, store))
  {
    hide CheckError, CheckedWrites, Gets, Finished, Incremented, ChecksPass, ParametersFine;
    ChecksPassIff(w, store);
    ParametersFineIff(w.params);
  }

  /** A call that returned no error and closed what it opened. */
  ghost predicate Clean(s: Step) {
    s.err == None && s.effect.open == []
  }

  ghost predicate AllClean(w: World) {
    Clean(w.preprocessing) && Clean(w.body) && Clean(w.flush) && Clean(w.storage)
    && (w.fees ==> Clean(w.balance) && Clean(w.fee))
  }

  /** Everything a clean body writes, the later call over the earlier. */
  function AllWrites(w: World): Writes {
    w.preprocessing.effect.writes
    + ((if w.fees then w.balance.effect.writes else map[])
       + (w.body.effect.writes + w.flush.effect.writes)
       + w.storage.effect.writes
       + (if w.fees then w.fee.effect.writes else map[]))
  }

  /** A transaction succeeds exactly if every check passes, every call returns without
      error and closes what it opened, and the derived data accept the commit.  Then all
      of its writes are committed. */
  lemma SuccessIff(w: World, store: Writes)
    requires w.bodyExecution
    ensures Outcome(w, store).Committed? && Outcome(w, store).err == None <==>
      ChecksPass(w, store) && ParametersFine(w.params) && AllClean(w) && w.derivedCommit == None
    ensures Outcome(w, store).Committed? && Outcome(w, store).err == None ==>
      Outcome(w, store).writes == Incremented(w, store) + AllWrites(w)
  {
    hide CheckError, CheckedWrites, Gets, Incremented, ChecksPass, ParametersFine;
    ChecksPassIff(w, store);
    ParametersFineIff(w.params);
    CleanIff(w);
  }

  lemma CleanIff(w: World)
    ensures AllClean(w) <==> BodyError(w) == None && Leaked(w) == []
  {
  }

  /** It is charged once, for what its calls metered in units of 2^16, up to its limit. */
  lemma SuccessCharge(w: World)
    requires AllClean(w)
    ensures
      var units := (w.preprocessing.effect.used + (w.body.effect.used + w.flush.effect.used) + w.storage.effect.used) / 0x1_0000;
      Charges(w) == if w.fees then [if units < w.limit then units else w.limit] else []
  {
  }

  /** A body that met an error is rolled back: a failure discards the run; after a user
      error only the incremented number and the fees of one clean attempt are committed,
      and the charge is for everything metered up to the error. */
  lemma FailedRun(w: World, store: Writes, e: Err)
    requires ChecksPass(w, store) && w.bodyExecution && ParametersFine(w.params) && FirstError(Stages(w)) == Some(e)
    ensures Outcome(w, store) ==
      if !e.Coded? then Discarded(Failed(Errors([], Some(e))))
      else if w.fees && w.retry.err.Some? && !w.retry.err.value.Coded? then Discarded(Failed(Errors([e], w.retry.err)))
      else if w.fees && w.retry.err.None? && w.retry.effect.open != [] then
        Discarded(Failed(Errors([e], Some(Internal(UnexpectedNested)))))
      else if w.derivedCommit.Some? then Discarded(DerivedCommitFailed)
      else if w.fees && w.retry.err.Some? then Committed(Incremented(w, store), Some([e, w.retry.err.value]))
      else Committed(Incremented(w, store) + (if w.fees then w.retry.effect.writes else map[]), Some([e]))
    ensures w.fees ==>
      var units := UsedUntil(Stages(w)) / 0x1_0000;
      Charges(w) != [] && Charges(w)[|Charges(w)| - 1] == if units < w.limit then units else w.limit
  {
    hide Stages, FirstError, UsedUntil, BodyError, Spent, ChecksPass, ParametersFine, FirstCharge, Execution, Incremented, NormalWrites, Leaked;
    BodyStages(w);
    Starting(w, store);
  }
}
