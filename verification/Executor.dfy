/** The transaction executor (fvm/transactionInvoker.go) with the sequence number
    check (fvm/transactionSequenceNum.go), and the run that commits or discards what
    it did (fvm/fvm.go).  Cadence, the fee and storage contracts and the
    authorization check are steps with an arbitrary effect and outcome. */
module Executor {
  import opened Bytes
  import opened NestedTransactions

  /** Errors made by the executor and the stack themselves have no code. */
  datatype Uncoded = CommitMismatch | BeginRefused | UnexpectedNested

  datatype Err = Coded(code: nat) | Failure(code: nat) | Internal(what: Uncoded)

  /** Everything without a code of a user error is fatal. */
  predicate IsFailure(e: Err) {
    !e.Coded?
  }

  /** The errors collector: user errors in order, and the first failure. */
  datatype Errors = Errors(errors: seq<Err>, failure: Option<Err>) {
    function Collect(e: Option<Err>): Errors {
      if e.None? then this
      else if failure.None? && IsFailure(e.value) then this.(failure := e)
      else this.(errors := errors + [e.value])
    }

    predicate Any() {
      failure.Some? || errors != []
    }
  }

  const NO_ERRORS := Errors([], None)

  /** One piece of foreign code: what it did and the error it returned. */
  datatype Step = Step(effect: Effect, err: Option<Err>)

  /** The metering parameters come from the cache, or are computed by reading three
      settings. */
  datatype Params = Cached(writes: Writes, used: nat) | Computed(effort: Step, memory: Step, memoryLimit: Step)

  /** What the code outside does, for one transaction. */
  datatype World = World(
    authorizationChecks: bool, sequenceChecks: bool, bodyExecution: bool, fees: bool,
    authorization: Option<Err>,
    proposalKey: Register, proposed: nat, revoked: Option<bool>, keyError: Err, readError: Option<Err>,
    incrementError: Option<Err>, partial: Writes,
    params: Params, limit: nat, preprocessing: Step,
    balance: Step, body: Step, flush: Step, storage: Step, fee: Step, retry: Step,
    derivedCommit: Option<Err>)

  const SEQUENCE_NUMBERS: nat := 0x1_0000_0000_0000_0000

  const REVOKED := Coded(1006)
  const WRONG_NUMBER := Coded(1007)

  function NumberOf(v: Option<Value>): nat {
    if v.Some? && v.value.Sequence? then v.value.n else 0
  }

  // ----- the sequence number check

  /** The number of the proposal key in storage. */
  function Stored(w: World, store: Writes): nat {
    NumberOf(if w.proposalKey in store then Some(store[w.proposalKey]) else None)
  }

  lemma LookupMain(frames: seq<Frame>, store: Writes, r: Register)
    requires |frames| == 1 && frames[0].writes == map[]
    ensures Lookup(frames, store, r) == if r in store then Some(store[r]) else None
  {
    assert frames[..0] == [];
  }

  /** The error of the check when the key's number is `n`. */
  function SequenceError(w: World, n: nat): Option<Err> {
    if w.revoked.None? then Some(w.keyError)
    else if w.revoked.value then Some(REVOKED)
    else if w.readError.Some? then w.readError
    else if n != w.proposed then Some(WRONG_NUMBER)
    else w.incrementError
  }

  function SequenceWrites(w: World, n: nat): Writes {
    if SequenceError(w, n).Some? then map[] else map[w.proposalKey := Sequence((n + 1) % SEQUENCE_NUMBERS)]
  }

  /** Runs in a nested transaction that is committed in every case, after dropping
      what a failed increment wrote; neither panic of the source can happen. */
  method CheckAndIncrementSequenceNumber(w: World, store: Writes, txn: TransactionState) returns (err: Option<Err>)
    requires Valid(txn.Abs())
    modifies txn
    ensures Valid(txn.Abs()) && txn.off == old(txn.off)
    ensures Current(old(txn.Abs())).restricted.Some? ==> err == Some(Internal(BeginRefused)) && txn.frames == old(txn.frames)
    ensures Current(old(txn.Abs())).restricted.None? ==>
      var n, top := NumberOf(Lookup(old(txn.frames), store, w.proposalKey)), Current(old(txn.Abs()));
      err == SequenceError(w, n)
      && txn.frames == old(txn.frames)[..|old(txn.frames)| - 1] + [top.(writes := top.writes + SequenceWrites(w, n))]
  {
    hide Lookup, SequenceWrites, SequenceError, NumberOf, Valid;
    ValidSome(txn.Abs());
    var ctl, metering := txn.DisableMetering();
    ghost var s := txn.Abs();
    ValidNext(s);
    var id := txn.BeginNested();
    if id.None? {
      txn.RestoreMetering(ctl, metering);
      assert txn.off == old(txn.off);
      return Some(Internal(BeginRefused));
    }
    assert txn.frames == s.frames + [Frame(s.next, ctl, map[], 0, Current(s).limit, None)];
    err := CheckAndIncrement(w, store, txn, id.value, s);
    var committed := txn.CommitNested(id.value);
    assert committed.Some?;
    txn.RestoreMetering(ctl, metering);
    assert txn.off == old(txn.off);
  }

  lemma ValidNext(s: Stack)
    requires Valid(s)
    ensures Current(s).ctl < s.next && Current(s).id < s.next
  {
  }

  /** A frame without writes hides nothing. */
  lemma LookupSnoc(frames: seq<Frame>, f: Frame, store: Writes, r: Register)
    requires f.writes == map[]
    ensures Lookup(frames + [f], store, r) == Lookup(frames, store, r)
  {
    assert (frames + [f])[..|frames|] == frames;
  }

  lemma RestartTop(s: Stack)
    requires Valid(s)
    ensures Restart(s, Current(s).id) == Some(Dropped(s))
  {
    PositionOf(s, |s.frames| - 1);
    MergedDownHere(s, |s.frames| - 1);
  }

  method CheckAndIncrement(w: World, store: Writes, txn: TransactionState, id: nat, ghost s: Stack) returns (err: Option<Err>)
    requires Valid(s) && Valid(txn.Abs()) && Current(s).ctl in s.off && txn.off == s.off && id == s.next < txn.next
    requires txn.frames == s.frames + [Frame(id, Current(s).ctl, map[], 0, Current(s).limit, None)]
    modifies txn
    ensures err == SequenceError(w, NumberOf(Lookup(s.frames, store, w.proposalKey)))
    ensures Valid(txn.Abs()) && txn.off == s.off && txn.next == old(txn.next)
    ensures txn.frames == s.frames + [Frame(id, Current(s).ctl,
      SequenceWrites(w, NumberOf(Lookup(s.frames, store, w.proposalKey))), 0, Current(s).limit, None)]
  {
    hide Restart, Lookup, Valid;
    LookupSnoc(s.frames, txn.frames[|s.frames|], store, w.proposalKey);
    assert txn.frames[..|txn.frames| - 1] == s.frames;
    if w.revoked.None? {
      return Some(w.keyError);
    }
    if w.revoked.value {
      return Some(REVOKED);
    }
    var stored := txn.Get(store, w.proposalKey);
    if w.readError.Some? {
      return w.readError;
    }
    var number := NumberOf(stored);
    if number != w.proposed {
      return Some(WRONG_NUMBER);
    }
    if w.incrementError.Some? {
      txn.Attach(w.partial, 0);
      RestartTop(txn.Abs());
      var ok := txn.RestartNested(id);
      assert ok;
      return w.incrementError;
    }
    txn.Put(w.proposalKey, Sequence((number + 1) % SEQUENCE_NUMBERS));
    err := None;
  }

  // ----- what a run amounts to, without the stack

  const NOTHING := Step(Effect(map[], 0, []), None)

  /** With fees disabled the balance check and the deduction do nothing. */
  function IfFees(w: World, s: Step): Step {
    if w.fees then s else NOTHING
  }

  /** What a step metered: nothing of its own while metering is disabled. */
  function Used(s: Step, metering: bool): nat {
    (if metering then s.effect.used else 0) + HeldTotal(s.effect.open)
  }

  /** A piece of the path: its first error and what was metered up to there. */
  datatype Part = Part(err: Option<Err>, used: nat)

  /** The transaction body: its own frame, the script, the pending updates. */
  function BodyPart(w: World, refused: bool): Part {
    var used := Used(w.body, true);
    if refused then Part(Some(Internal(BeginRefused)), 0)
    else if w.body.err.Some? then Part(w.body.err, used)
    else
      var both := used + Used(w.flush, true);
      if w.flush.err.Some? then Part(w.flush.err, both)
      else if w.body.effect.open + w.flush.effect.open != [] then Part(Some(Internal(CommitMismatch)), both)
      else Part(None, both)
  }

  function BodyWrites(w: World): Writes {
    w.body.effect.writes + w.flush.effect.writes
  }

  /** Whether the last frame left open refuses unrestricted children. */
  predicate Refuses(open: seq<Held>) {
    open != [] && open[|open| - 1].restricted.Some?
  }

  /** The path up to the fee deduction. */
  function BeforeFee(w: World): Part {
    var b := IfFees(w, w.balance);
    if b.err.Some? then Part(b.err, Used(b, false))
    else
      var body := BodyPart(w, Refuses(w.preprocessing.effect.open + b.effect.open));
      if body.err.Some? then Part(body.err, Used(b, false) + body.used)
      else Part(w.storage.err, Used(b, false) + body.used + Used(w.storage, true))
  }

  /** The path through normalExecution up to its first error. */
  function Normal(w: World): Part {
    var p := BeforeFee(w);
    if p.err.Some? then p else Part(IfFees(w, w.fee).err, p.used + Used(IfFees(w, w.fee), false))
  }

  /** What a successful path writes, and the frames it forgot to close. */
  function NormalWrites(w: World): Writes {
    IfFees(w, w.balance).effect.writes + BodyWrites(w) + w.storage.effect.writes + IfFees(w, w.fee).effect.writes
  }

  function Leaked(w: World): seq<Held> {
    w.preprocessing.effect.open + IfFees(w, w.balance).effect.open + w.storage.effect.open + IfFees(w, w.fee).effect.open
  }

  /** The computation reported for a meter reading, and what the payer is charged. */
  function Reported(meter: nat): nat {
    meter / 0x1_0000
  }

  function Capped(meter: nat, limit: nat): nat {
    if Reported(meter) < limit then Reported(meter) else limit
  }

  /** The computation metered before any fee deduction, and up to the error. */
  function Metered(w: World): nat {
    Used(w.preprocessing, true) + if w.preprocessing.err.Some? then 0 else BeforeFee(w).used
  }

  function Spent(w: World): nat {
    Used(w.preprocessing, true) + if w.preprocessing.err.Some? then 0 else Normal(w).used
  }

  /** The first user error or failure of a started body. */
  function BodyError(w: World): Option<Err> {
    if w.preprocessing.err.Some? then w.preprocessing.err else Normal(w).err
  }

  /** The meter of the current frame at the first fee deduction, and its limit: the
      executor's own, unless a call before left a frame open. */
  datatype Reading = Reading(meter: nat, limit: nat)

  function AtFees(w: World): Reading {
    var body, g := w.body.effect.used + w.flush.effect.used, w.storage.effect;
    var below := w.preprocessing.effect.open + IfFees(w, w.balance).effect.open;
    if g.open != [] then Reading(g.open[|g.open| - 1].meter, g.open[|g.open| - 1].limit)
    else if below != [] then Reading(below[|below| - 1].meter + body + g.used, below[|below| - 1].limit)
    else Reading(w.preprocessing.effect.used + body + g.used, w.limit)
  }

  /** What the attempts to deduct fees are told to charge for: the first at the end of
      a body without error, the second after any error. */
  function FirstCharge(w: World): seq<nat> {
    if w.fees && w.preprocessing.err.None? && BeforeFee(w).err.None? then [Capped(AtFees(w).meter, AtFees(w).limit)] else []
  }

  function Charges(w: World): seq<nat> {
    FirstCharge(w) + if w.fees && BodyError(w).Some? then [Capped(Spent(w), w.limit)] else []
  }

  /** Why nothing is committed. */
  datatype Stop = Failed(errs: Errors) | Panicked | DerivedCommitFailed

  datatype Result = Discarded(stop: Stop) | Committed(writes: Writes, err: Option<seq<Err>>)

  function Fatal(errors: seq<Err>, e: Err): Result {
    Discarded(Failed(Errors(errors, Some(e))))
  }

  /** An error before the body started: no fees, whatever is written stays. */
  function Early(e: Err, writes: Writes): Result {
    if IsFailure(e) then Fatal([], e) else Committed(writes, Some([e]))
  }

  /** setIfOk: a setting that cannot be had is left at its default, unless the reason is
      a failure. */
  function Fatally(e: Option<Err>): Option<Err> {
    if e.Some? && IsFailure(e.value) then e else None
  }

  function ReadsError(a: Step, b: Step, c: Step): Option<Err> {
    if Fatally(a.err).Some? then Fatally(a.err)
    else if Fatally(b.err).Some? then Fatally(b.err)
    else Fatally(c.err)
  }

  /** The registers a successful computation of parameters has written. */
  function WriteSet(p: Params): Writes {
    match p
    case Cached(writes, _) => writes
    case Computed(a, b, c) => a.effect.writes + b.effect.writes + c.effect.writes
  }

  /** How getting the metering parameters ends. */
  datatype Getting = Panicking | Refusing(err: Err) | Got

  function Gets(p: Params): (g: Getting)
    ensures g.Refusing? ==> IsFailure(g.err)
  {
    if p.Computed? && ReadsError(p.effort, p.memory, p.memoryLimit).Some? then
      Refusing(ReadsError(p.effort, p.memory, p.memoryLimit).value)
    else if p.Computed? && p.effort.effect.open + p.memory.effect.open + p.memoryLimit.effect.open != [] then
      Refusing(Internal(CommitMismatch))
    else if WriteSet(p) == map[] then Got
    else Panicking
  }

  /** The end of a run whose body started, given what the main transaction holds. */
  function Finished(w: World, base: Writes): Result {
    var retry := IfFees(w, w.retry);
    match BodyError(w)
    case None =>
      if Leaked(w) != [] then Fatal([], Internal(UnexpectedNested))
      else Committed(base + (w.preprocessing.effect.writes + NormalWrites(w)), None)
    case Some(e) =>
      if IsFailure(e) then Fatal([], e)
      else if retry.err.Some? then
        if IsFailure(retry.err.value) then Fatal([e], retry.err.value) else Committed(base, Some([e, retry.err.value]))
      else if retry.effect.open != [] then Fatal([e], Internal(UnexpectedNested))
      else Committed(base + retry.effect.writes, Some([e]))
  }

  /** What the sequence number check leaves in the main transaction. */
  function CheckedWrites(w: World, store: Writes): Writes {
    if w.sequenceChecks then SequenceWrites(w, Stored(w, store)) else map[]
  }

  /** The error of the authorization or sequence number check. */
  function CheckError(w: World, store: Writes): Option<Err> {
    if w.authorizationChecks && w.authorization.Some? then w.authorization
    else if w.sequenceChecks then SequenceError(w, Stored(w, store))
    else None
  }

  lemma ExecutionCases(w: World, store: Writes)
    ensures
      var e := CheckError(w, store);
      if e.Some? then Execution(w, store) == Early(e.value, map[])
      else if !w.bodyExecution then Execution(w, store) == Committed(CheckedWrites(w, store), None)
      else match Gets(w.params)
        case Panicking => Execution(w, store) == Discarded(Panicked)
        case Refusing(e) => Execution(w, store) == Fatal([], e)
        case Got => Execution(w, store) == Finished(w, CheckedWrites(w, store))
  {
  }

  lemma Collected(e: Err)
    ensures NO_ERRORS.Collect(Some(e)) == if IsFailure(e) then Errors([], Some(e)) else Errors([e], None)
  {
  }

  lemma FinishedFailure(w: World, base: Writes)
    ensures w.preprocessing.err.Some? && IsFailure(w.preprocessing.err.value) ==> Finished(w, base) == Fatal([], w.preprocessing.err.value)
  {
  }

  /** What the executor does, without stack, frames or meters. */
  function Execution(w: World, store: Writes): Result {
    var checked := CheckedWrites(w, store);
    if CheckError(w, store).Some? then Early(CheckError(w, store).value, map[])
    else if !w.bodyExecution then Committed(checked, None)
    else
      match Gets(w.params)
      case Panicking => Discarded(Panicked)
      case Refusing(e) => Fatal([], e)
      case Got => Finished(w, checked)
  }

  /** The result of a run: the derived data may still refuse the commit. */
  function Outcome(w: World, store: Writes): Result {
    var r := Execution(w, store);
    if r.Committed? && w.derivedCommit.Some? then Discarded(DerivedCommitFailed) else r
  }

  // ----- the executor

  /** The executor's frame is open right above the main transaction. */
  ghost predicate Above(s: Stack, main: Frame, id: nat, limit: nat) {
    Valid(s) && s.off == {} && |s.frames| >= 2 && s.frames[0] == main
    && s.frames[1].id == id && s.frames[1].limit == limit && s.frames[1].restricted == None
  }

  /** Foreign code added its effect to the top frame and its open frames above. */
  ghost predicate Added(before: seq<Frame>, after: seq<Frame>, e: Effect, metering: bool) {
    before != [] && |after| == |before| + |e.open|
    && after[..|before| - 1] == before[..|before| - 1]
    && after[|before| - 1] == before[|before| - 1].(
         writes := before[|before| - 1].writes + e.writes,
         meter := before[|before| - 1].meter + if metering then e.used else 0)
    && (forall i | 0 <= i < |e.open| :: Contents(after[|before| + i]) == e.open[i])
    && Total(after) == Total(before) + (if metering then e.used else 0) + HeldTotal(e.open)
  }

  lemma ForeignAdds(s: Stack, e: Effect, main: Frame, id: nat, limit: nat)
    requires Above(s, main, id, limit)
    ensures Above(Foreign(s, e), main, id, limit) && Added(s.frames, Foreign(s, e).frames, e, true)
    ensures Above(Unmeteredly(s, e), main, id, limit) && Added(s.frames, Unmeteredly(s, e).frames, e, false)
  {
    hide Foreign, Total;
    ForeignIs(s, e);
    var quiet := s.(off := s.off + {Current(s).ctl});
    ForeignIs(quiet, e);
    var n := |s.frames|;
    var t, u := Foreign(s, e), Foreign(quiet, e);
    assert t.frames[0] == t.frames[..n - 1][0];
    assert u.frames[0] == u.frames[..n - 1][0];
    assert n > 2 ==> t.frames[1] == t.frames[..n - 1][1] && u.frames[1] == u.frames[..n - 1][1];
  }

  class TransactionExecutor {
    const w: World
    const txn: TransactionState
    var errs: Errors
    var output: Option<seq<Err>>
    var started: bool
    var nestedTxnId: nat
    var charged: seq<nat>
    var invalidator: Option<Writes>

    constructor (w: World, txn: TransactionState)
      ensures this.w == w && this.txn == txn
      ensures errs == NO_ERRORS && output == None && !started && charged == [] && invalidator == None
    {
      this.w, this.txn := w, txn;
      errs, output, started, nestedTxnId, charged, invalidator := NO_ERRORS, None, false, 0, [], None;
    }

    ghost predicate Running(main: Frame)
      reads this, txn
    {
      started && Above(txn.Abs(), main, nestedTxnId, w.limit)
    }

    /** Runs the body in its own frame and commits that into the executor's. */
    method RunBody(ghost main: Frame) returns (err: Option<Err>, snapshot: Writes)
      requires Running(main)
      modifies txn
      ensures Running(main)
      ensures var part := BodyPart(w, Current(old(txn.Abs())).restricted.Some?);
        err == part.err && Total(txn.frames) == Total(old(txn.frames)) + part.used
      ensures err == None ==> snapshot == BodyWrites(w)
      ensures err == None ==> Widened(old(txn.frames), txn.frames, BodyWrites(w), w.body.effect.used + w.flush.effect.used)
    {
      hide Total, Above, Foreign, NestedTransactions.Commit, Widened;
      AboveValid(txn.Abs(), main, nestedTxnId, w.limit);
      ghost var s := txn.Abs();
      snapshot := map[];
      var id := txn.BeginNested();
      if id.None? {
        return Some(Internal(BeginRefused)), snapshot;
      }
      BodyStack(s, w.body.effect, w.flush.effect, main, nestedTxnId, w.limit);
      txn.Run(w.body.effect);
      if w.body.err.Some? {
        return w.body.err, snapshot;
      }
      txn.Run(w.flush.effect);
      if w.flush.err.Some? {
        return w.flush.err, snapshot;
      }
      var committed := txn.CommitNested(id.value);
      if committed.None? {
        return Some(Internal(CommitMismatch)), snapshot;
      }
      return None, committed.value;
    }

    /** Reports the computation on the meter, capped at its limit, and has the fees
        deducted. */
    method DeductTransactionFees(step: Step, ghost main: Frame) returns (err: Option<Err>)
      requires Running(main)
      modifies txn, this`charged
      ensures Running(main) && err == IfFees(w, step).err
      ensures Added(old(txn.frames), txn.frames, IfFees(w, step).effect, false)
      ensures charged == old(charged) + if w.fees then [Capped(Current(old(txn.Abs())).meter, Current(old(txn.Abs())).limit)] else []
    {
      hide Total, Above, Unmeteredly;
      AboveValid(txn.Abs(), main, nestedTxnId, w.limit);
      if !w.fees {
        AddedNothing(txn.frames);
        return None;
      }
      var current := txn.frames[|txn.frames| - 1];
      charged := charged + [if Reported(current.meter) < current.limit then Reported(current.meter) else current.limit];
      ForeignAdds(txn.Abs(), step.effect, main, nestedTxnId, w.limit);
      txn.RunUnmetered(step.effect);
      err := step.err;
    }

    /** The path of a transaction without errors so far. */
    method NormalExecution(ghost main: Frame) returns (err: Option<Err>, snapshot: Option<Writes>)
      requires Running(main) && Holds(txn.frames, w.preprocessing.effect.open)
      requires txn.frames[1].meter == w.preprocessing.effect.used
      modifies txn, this`charged
      ensures Running(main)
      ensures err == Normal(w).err && Total(txn.frames) == Total(old(txn.frames)) + Normal(w).used
      ensures err == None ==> snapshot == Some(BodyWrites(w)) && |txn.frames| == 2 + |Leaked(w)|
      ensures err == None && Leaked(w) == [] ==> txn.frames[1].writes == old(txn.frames)[1].writes + NormalWrites(w)
      ensures BeforeFee(w).err.Some? || !w.fees ==> charged == old(charged)
      ensures BeforeFee(w).err.None? && w.fees ==> charged == old(charged) + [Capped(AtFees(w).meter, AtFees(w).limit)]
    {
      hide Total, Above, Unmeteredly, Foreign, BodyPart, Widened, Holds, Leaked, AtFees, NormalWrites, BodyWrites, Added, HeldTotal, Refuses, Valid;
      snapshot := None;
      AboveValid(txn.Abs(), main, nestedTxnId, w.limit);
      ghost var s := txn.Abs();
      if w.fees {
        ForeignAdds(s, w.balance.effect, main, nestedTxnId, w.limit);
        txn.RunUnmetered(w.balance.effect);
        AddedTotal(s.frames, txn.frames, w.balance.effect, false);
        if w.balance.err.Some? {
          return w.balance.err, snapshot;
        }
      } else {
        AddedNothing(txn.frames);
        AddedTotal(s.frames, txn.frames, NOTHING.effect, false);
      }
      ghost var s1 := txn.Abs();
      Refused(s, s1, w.preprocessing.effect.open, IfFees(w, w.balance).effect, main, nestedTxnId, w.limit);
      var written;
      err, written := RunBody(main);
      if err.Some? {
        return;
      }
      ghost var s2 := txn.Abs();
      AboveValid(s2, main, nestedTxnId, w.limit);
      ForeignAdds(s2, w.storage.effect, main, nestedTxnId, w.limit);
      txn.Run(w.storage.effect);
      ghost var s3 := txn.Abs();
      AddedTotal(s2.frames, s3.frames, w.storage.effect, true);
      snapshot := Some(written);
      if w.storage.err.Some? {
        return w.storage.err, snapshot;
      }
      err := DeductTransactionFees(w.fee, main);
      AddedTotal(s3.frames, txn.frames, IfFees(w, w.fee).effect, false);
      Path(w, s, s1, s2, s3, txn.Abs(), main, nestedTxnId);
      PathTop(w, s, s1, s2, s3, main, nestedTxnId);
    }

    /** Drops what the transaction wrote, keeping its meter, and tries once more to
        have the fees deducted. */
    method ErrorExecution(ghost main: Frame)
      requires Running(main) && errs.failure == None
      modifies txn, this`charged, this`errs
      ensures Running(main) && errs == old(errs).Collect(IfFees(w, w.retry).err)
      ensures charged == old(charged) + if w.fees then [Capped(Total(old(txn.frames)) - main.meter, w.limit)] else []
      ensures IfFees(w, w.retry).err == None ==> |txn.frames| == 2 + |IfFees(w, w.retry).effect.open|
      ensures IfFees(w, w.retry).err == None ==> txn.frames[1].writes == IfFees(w, w.retry).effect.writes
      ensures errs.failure == None && IfFees(w, w.retry).err != None ==> |txn.frames| == 2 && txn.frames[1].writes == map[]
    {
      hide Total, Restart;
      RestartedAbove(txn.Abs(), main, nestedTxnId, w.limit);
      var ok := txn.RestartNested(nestedTxnId);
      assert ok;
      ghost var clean := txn.frames;
      assert charged == old(charged);
      var feesError := DeductTransactionFees(w.retry, main);
      assert map[] + IfFees(w, w.retry).effect.writes == IfFees(w, w.retry).effect.writes;
      if feesError.Some? {
        errs := errs.Collect(feesError);
        if errs.failure.Some? {
          return;
        }
        RestartedAbove(txn.Abs(), main, nestedTxnId, w.limit);
        ok := txn.RestartNested(nestedTxnId);
        assert ok;
      }
    }

    /** Merges the executor's frame into the main transaction, if nothing else is
        open. */
    method Commit(ghost main: Frame, snapshot: Option<Writes>) returns (err: Option<Err>)
      requires Running(main)
      modifies txn, this`invalidator
      ensures Valid(txn.Abs())
      ensures |old(txn.frames)| > 2 ==> err == Some(Internal(UnexpectedNested)) && invalidator == old(invalidator)
      ensures |old(txn.frames)| == 2 ==> err == None && invalidator == snapshot
      ensures |old(txn.frames)| == 2 ==> |txn.frames| == 1 && txn.frames[0].writes == main.writes + old(txn.frames)[1].writes
    {
      if |txn.frames| - 1 > 1 {
        return Some(Internal(UnexpectedNested));
      }
      invalidator := snapshot;
      var committed := txn.CommitNested(nestedTxnId);
      assert committed.Some?;
      err := None;
    }

    /** Gets the metering parameters, opens the executor's frame and lets Cadence
        prepare the body. */
    method PreprocessTransactionBody(ghost base: Writes) returns (err: Option<Err>, panicked: bool)
      requires Valid(txn.Abs()) && |txn.frames| == 1 && txn.off == {} && txn.frames[0].restricted == None
      requires txn.frames[0].writes == base && !started
      modifies txn, this`started, this`nestedTxnId
      ensures Valid(txn.Abs())
      ensures match Gets(w.params)
        case Panicking => panicked
        case Refusing(e) => !panicked && err == Some(e) && !started
        case Got => !panicked && err == w.preprocessing.err && Prepared(base)
    {
      hide Total, Foreign, Valid;
      panicked := false;
      err := GetExecutionParameters(base);
      if err.Some? {
        return;
      }
      if WriteSet(w.params) != map[] {
        return None, true;
      }
      ghost var s := txn.Abs();
      assert base + map[] == base;
      var id := txn.BeginNestedWithMeterParams(w.limit);
      started := true;
      nestedTxnId := id.value;
      PreparedStack(s, w.limit, w.preprocessing.effect);
      txn.Run(w.preprocessing.effect);
      err := w.preprocessing.err;
    }

    /** The parameters come from the derived data: replayed from the cache, or computed
        in a frame that is committed even if the computation fails. */
    method GetExecutionParameters(ghost base: Writes) returns (err: Option<Err>)
      requires Valid(txn.Abs()) && |txn.frames| == 1 && txn.off == {} && txn.frames[0].restricted == None
      requires txn.frames[0].writes == base
      modifies txn
      ensures Valid(txn.Abs()) && txn.off == {}
      ensures match Gets(w.params)
        case Refusing(e) => err == Some(e)
        case _ => err == None && |txn.frames| == 1 && txn.frames[0].restricted == None && txn.frames[0].writes == base + WriteSet(w.params)
    {
      hide Total, Foreign, NestedTransactions.Commit, BeginDerived, Computing;
      err := None;
      match w.params {
        case Cached(writes, used) =>
          txn.Attach(writes, used);
        case Computed(a, b, c) =>
          ghost var main := txn.frames[0];
          ComputingStarts(txn.Abs());
          var id := txn.BeginNestedForDerivedData();
          err := Compute(a, b, c, id.value, main);
          ghost var open := a.effect.open + b.effect.open + c.effect.open;
          ComputingEnds(txn.Abs(), main, id.value, open, WriteSet(w.params), err.None?);
          CommitKeepsOff(txn.Abs(), id.value);
          var committed := txn.CommitNested(id.value);
          if committed.None? && err.None? {
            return Some(Internal(CommitMismatch));
          }
      }
    }

    /** Reads the three settings with metering disabled, up to the first failure. */
    method Compute(a: Step, b: Step, c: Step, id: nat, ghost main: Frame) returns (err: Option<Err>)
      requires Computing(txn.Abs(), main, id, {}, [], map[])
      modifies txn
      ensures err == ReadsError(a, b, c) && Valid(txn.Abs()) && txn.off == {}
      ensures err == None ==>
        Computing(txn.Abs(), main, id, {}, a.effect.open + b.effect.open + c.effect.open, a.effect.writes + b.effect.writes + c.effect.writes)
    {
      hide Computing, Foreign, Valid;
      ComputingValid(txn.Abs(), main, id, {}, [], map[]);
      var ctl, metering := txn.DisableMetering();
      ComputingOff(txn.Abs(), main, id, {}, {id}, [], map[]);
      err := ReadSettings(a, b, c, id, main);
      txn.RestoreMetering(ctl, metering);
      if err.None? {
        ComputingOff(txn.Abs(), main, id, {id}, {}, a.effect.open + b.effect.open + c.effect.open, a.effect.writes + b.effect.writes + c.effect.writes);
      }
    }

    method ReadSettings(a: Step, b: Step, c: Step, id: nat, ghost main: Frame) returns (err: Option<Err>)
      requires Computing(txn.Abs(), main, id, {id}, [], map[])
      modifies txn
      ensures err == ReadsError(a, b, c) && Valid(txn.Abs()) && txn.off == {id} && id < txn.next
      ensures err == None ==>
        Computing(txn.Abs(), main, id, {id}, a.effect.open + b.effect.open + c.effect.open, a.effect.writes + b.effect.writes + c.effect.writes)
    {
      hide Computing;
      assert [] + a.effect.open == a.effect.open && map[] + a.effect.writes == a.effect.writes;
      err := Setting(a, id, main, [], map[]);
      if err.Some? {
        return;
      }
      err := Setting(b, id, main, a.effect.open, a.effect.writes);
      if err.Some? {
        return;
      }
      err := Setting(c, id, main, a.effect.open + b.effect.open, a.effect.writes + b.effect.writes);
    }

    /** Reads one setting. */
    method Setting(step: Step, id: nat, ghost main: Frame, ghost open: seq<Held>, ghost writes: Writes) returns (err: Option<Err>)
      requires Computing(txn.Abs(), main, id, {id}, open, writes)
      modifies txn
      ensures err == Fatally(step.err) && Valid(txn.Abs()) && txn.off == {id} && id < txn.next
      ensures Computing(txn.Abs(), main, id, {id}, open + step.effect.open, writes + step.effect.writes)
    {
      hide Computing, Foreign;
      ComputingValid(txn.Abs(), main, id, {id}, open, writes);
      ComputingStep(txn.Abs(), main, id, open, writes, step.effect);
      txn.Run(step.effect);
      ComputingValid(txn.Abs(), main, id, {id}, open + step.effect.open, writes + step.effect.writes);
      if step.err.Some? && IsFailure(step.err.value) {
        return step.err;
      }
      err := None;
    }

    ghost predicate Prepared(base: Writes)
      reads this, txn
    {
      txn.frames != [] && Running(txn.frames[0]) && txn.frames[0].writes == base
      && Holds(txn.frames, w.preprocessing.effect.open) && txn.frames[1].writes == w.preprocessing.effect.writes
      && txn.frames[1].meter == w.preprocessing.effect.used
      && Total(txn.frames) == txn.frames[0].meter + Used(w.preprocessing, true)
    }

    /** handleError: a failure stops the run, user errors become its output. */
    method HandleError(r: Errors) returns (stop: Option<Stop>)
      modifies this`output
      ensures stop == if r.failure.Some? then Some(Failed(r)) else None
      ensures output == if r.failure == None && r.errors != [] then Some(r.errors) else old(output)
    {
      if r.failure.Some? {
        return Some(Failed(r));
      }
      if r.errors != [] {
        output := Some(r.errors);
      }
      stop := None;
    }

    /** Nothing happened yet. */
    ghost predicate Idle()
      reads this, txn
    {
      Valid(txn.Abs()) && errs == NO_ERRORS && output == None && !started && charged == [] && invalidator == None
    }

    /** The run is over without a body: its errors and what the main transaction holds. */
    ghost predicate Over(result: Result)
      reads this, txn
    {
      Valid(txn.Abs()) && !started && charged == [] && invalidator == None && errs.failure == None
      && (output == None || output == Some(errs.errors) != Some([]))
      && |txn.frames| == 1 && result == Committed(txn.frames[0].writes, if errs.errors == [] then None else Some(errs.errors))
    }

    /** The body is ready to run, or has a user error already. */
    ghost predicate Ready(result: Result)
      reads this, txn
    {
      txn.frames != [] && Prepared(txn.frames[0].writes) && result == Finished(w, txn.frames[0].writes)
      && errs == NO_ERRORS.Collect(w.preprocessing.err) && errs.failure == None
      && output == None && charged == [] && invalidator == None
    }

    /** The checks of preprocess, in order. */
    method Check(store: Writes) returns (err: Option<Err>)
      requires Valid(txn.Abs()) && |txn.frames| == 1 && txn.off == {} && txn.frames[0].writes == map[] && txn.frames[0].restricted == None
      modifies txn
      ensures Valid(txn.Abs()) && |txn.frames| == 1 && txn.off == {} && txn.frames[0].restricted == None
      ensures err == CheckError(w, store)
      ensures txn.frames[0].writes == if err.Some? then map[] else CheckedWrites(w, store)
      ensures w.authorizationChecks && w.authorization.Some? ==> err == w.authorization
      ensures !(w.authorizationChecks && w.authorization.Some?) && w.sequenceChecks ==>
        (w.revoked == None ==> err == Some(w.keyError)) && (w.revoked == Some(true) ==> err == Some(Coded(1006)))
    {
      hide Total, Valid;
      if w.authorizationChecks && w.authorization.Some? {
        return w.authorization;
      }
      LookupMain(txn.frames, store, w.proposalKey);
      err := None;
      if w.sequenceChecks {
        err := CheckAndIncrementSequenceNumber(w, store, txn);
        ghost var n := Stored(w, store);
        assert map[] + SequenceWrites(w, n) == SequenceWrites(w, n);
      }
    }

    method Preprocess(store: Writes) returns (stop: Option<Stop>)
      requires Idle() && |txn.frames| == 1 && txn.off == {} && txn.frames[0].writes == map[] && txn.frames[0].restricted == None
      modifies this, txn
      ensures stop.Some? ==> Execution(w, store) == Discarded(stop.value)
      ensures stop.None? ==> (Started(w, store) && Ready(Execution(w, store))) || (!Started(w, store) && Over(Execution(w, store)))
    {
      hide Total, Above, Valid, Finished, Holds, Used, Execution, CheckError, CheckedWrites;
      ExecutionCases(w, store);
      var refused := Check(store);
      if refused.Some? {
        Collected(refused.value);
        errs := errs.Collect(refused);
        stop := HandleError(errs);
        return;
      }
      if !w.bodyExecution {
        return None;
      }
      ghost var base := txn.frames[0].writes;
      var err, panicked := PreprocessTransactionBody(base);
      if panicked {
        return Some(Panicked);
      }
      if err.Some? {
        Collected(err.value);
      }
      errs := errs.Collect(err);
      if errs.failure.Some? {
        FinishedFailure(w, base);
        stop := HandleError(errs);
        return;
      }
      stop := None;
    }

    method Execute(ghost store: Writes) returns (stop: Option<Stop>)
      requires (Started(w, store) && Ready(Execution(w, store))) || (!Started(w, store) && Over(Execution(w, store)))
      modifies this, txn
      ensures Valid(txn.Abs())
      ensures stop.Some? ==> Execution(w, store) == Discarded(stop.value)
      ensures stop.None? ==> |txn.frames| == 1 && Execution(w, store) == Committed(txn.frames[0].writes, output)
      ensures stop.None? ==> invalidator == if Started(w, store) && output == None then Some(BodyWrites(w)) else None
      ensures stop.None? ==> charged == if Started(w, store) then Charges(w) else []
    {
      hide Total, Above, Valid, Finished, Holds, Used, Started, Execution, Charges, BodyWrites;
      if !started {
        stop := HandleError(errs);
        return;
      }
      var r := ExecuteTransactionBody(txn.frames[0]);
      stop := HandleError(r);
    }

    method ExecuteTransactionBody(ghost main: Frame) returns (r: Errors)
      requires Running(main) && Holds(txn.frames, w.preprocessing.effect.open)
      requires txn.frames[1].writes == w.preprocessing.effect.writes && txn.frames[1].meter == w.preprocessing.effect.used
      requires errs == NO_ERRORS.Collect(w.preprocessing.err) && errs.failure == None
      requires charged == [] && Total(txn.frames) == main.meter + Used(w.preprocessing, true)
      modifies this, txn
      ensures Valid(txn.Abs()) && Ends(r, txn.frames, Finished(w, main.writes))
      ensures started && output == old(output)
      ensures r.failure == None ==> invalidator == if r.errors == [] then Some(BodyWrites(w)) else None
      ensures r.failure == None ==> charged == Charges(w)
    {
      hide Total, Above, Valid, Holds, BodyError, NormalWrites, Leaked, FirstCharge, Spent, BodyWrites, Finished, Charges;
      var snapshot := Attempt(main);
      if errs.failure.Some? {
        AttemptFailed(w, main.writes);
        return errs;
      }
      r := Conclude(main, snapshot);
    }

    /** The body was attempted: the first error is collected, the meter kept. */
    ghost predicate Attempted(main: Frame)
      reads this, txn
    {
      Running(main) && errs == NO_ERRORS.Collect(BodyError(w)) && Total(txn.frames) == main.meter + Spent(w)
      && charged == FirstCharge(w)
      && (BodyError(w).None? ==> |txn.frames| == 2 + |Leaked(w)|)
      && (BodyError(w).None? && Leaked(w) == [] ==> txn.frames[1].writes == w.preprocessing.effect.writes + NormalWrites(w))
    }

    /** The first half of ExecuteTransactionBody. */
    method Attempt(ghost main: Frame) returns (snapshot: Option<Writes>)
      requires Running(main) && Holds(txn.frames, w.preprocessing.effect.open)
      requires txn.frames[1].writes == w.preprocessing.effect.writes && txn.frames[1].meter == w.preprocessing.effect.used
      requires errs == NO_ERRORS.Collect(w.preprocessing.err) && errs.failure == None
      requires charged == [] && Total(txn.frames) == main.meter + Used(w.preprocessing, true)
      modifies txn, this`errs, this`charged
      ensures Attempted(main) && Valid(txn.Abs())
      ensures BodyError(w).None? ==> snapshot == Some(BodyWrites(w))
    {
      hide Total, Above, Valid, Holds, Normal, NormalWrites, Leaked, BeforeFee, Capped, Used, BodyWrites;
      AboveValid(txn.Abs(), main, nestedTxnId, w.limit);
      snapshot := None;
      if !errs.Any() {
        var err;
        err, snapshot := NormalExecution(main);
        errs := errs.Collect(err);
        AboveValid(txn.Abs(), main, nestedTxnId, w.limit);
      }
    }

    /** The second half: undo after an error, then commit. */
    method Conclude(ghost main: Frame, attempted: Option<Writes>) returns (r: Errors)
      requires Attempted(main) && errs.failure == None && (BodyError(w).None? ==> attempted == Some(BodyWrites(w)))
      modifies this, txn
      ensures Valid(txn.Abs()) && Ends(r, txn.frames, Finished(w, main.writes))
      ensures started && output == old(output)
      ensures r.failure == None ==> invalidator == if r.errors == [] then Some(BodyWrites(w)) else None
      ensures r.failure == None ==> charged == Charges(w)
    {
      hide Total, Above, Valid, BodyError, NormalWrites, Leaked, FirstCharge, Capped, Spent, BodyWrites, IfFees;
      var snapshot := attempted;
      if errs.Any() {
        snapshot := None;
        ErrorExecution(main);
        if errs.failure.Some? {
          AboveValid(txn.Abs(), main, nestedTxnId, w.limit);
          return errs;
        }
      }
      AboveValid(txn.Abs(), main, nestedTxnId, w.limit);
      var err := Commit(main, snapshot);
      errs := errs.Collect(err);
      r := errs;
    }
  }

  lemma AttemptFailed(w: World, base: Writes)
    ensures BodyError(w).Some? && IsFailure(BodyError(w).value) ==> Finished(w, base) == Fatal([], BodyError(w).value)
    ensures NO_ERRORS.Collect(BodyError(w)).failure.Some? <==> BodyError(w).Some? && IsFailure(BodyError(w).value)
    ensures NO_ERRORS.Collect(BodyError(w)).failure.Some? ==> NO_ERRORS.Collect(BodyError(w)) == Errors([], BodyError(w))
  {
  }

  /** The frame of a computation of derived data right above the main one, and the
      frames left open in it. */
  ghost predicate Computing(s: Stack, main: Frame, id: nat, off: set<nat>, open: seq<Held>, writes: Writes) {
    Valid(s) && s.off == off && |s.frames| == 2 + |open| && s.frames[0] == main && main.restricted == None && main.ctl != id
    && s.frames[1].id == id && s.frames[1].ctl == id && s.frames[1].restricted == None
    && (open == [] ==> s.frames[1].writes == writes)
  }

  lemma ComputingValid(s: Stack, main: Frame, id: nat, off: set<nat>, open: seq<Held>, writes: Writes)
    requires Computing(s, main, id, off, open, writes)
    ensures Valid(s) && s.off == off && id < s.next && (open == [] ==> |s.frames| == 2 && Current(s).ctl == id)
  {
  }

  lemma ComputingOff(s: Stack, main: Frame, id: nat, was: set<nat>, off: set<nat>, open: seq<Held>, writes: Writes)
    requires s.off == off && (off == {} || off == {id}) && Computing(s.(off := was), main, id, was, open, writes)
    ensures Computing(s, main, id, off, open, writes)
  {
  }

  lemma ComputingStarts(s: Stack)
    requires Valid(s) && |s.frames| == 1 && s.off == {} && s.frames[0].restricted == None
    ensures BeginDerived(s).Some? && Computing(BeginDerived(s).value, s.frames[0], s.next, {}, [], map[])
  {
  }

  lemma ComputingStep(s: Stack, main: Frame, id: nat, open: seq<Held>, writes: Writes, e: Effect)
    requires Computing(s, main, id, {id}, open, writes)
    ensures s.frames != [] && Computing(Foreign(s, e), main, id, {id}, open + e.open, writes + e.writes)
  {
    hide Foreign, Total;
    ForeignIs(s, e);
    var t, n := Foreign(s, e), |s.frames|;
    assert t.frames[0] == t.frames[..n - 1][0];
    assert n > 2 ==> t.frames[1] == t.frames[..n - 1][1];
  }

  lemma CommitKeepsOff(s: Stack, id: nat)
    requires Valid(s)
    ensures Commit(s, id).Some? ==> Commit(s, id).value.off == s.off
  {
  }

  /** That frame commits unless others were left open in it. */
  lemma ComputingEnds(s: Stack, main: Frame, id: nat, open: seq<Held>, writes: Writes, ok: bool)
    requires ok ==> Computing(s, main, id, {}, open, writes)
    ensures ok ==> s.frames != [] && match Commit(s, id)
      case None => open != []
      case Some(v) =>
        open == [] && v.off == {} && |v.frames| == 1 && v.frames[0].writes == main.writes + writes && v.frames[0].restricted == None
  {
    if ok && open != [] {
      DistinctIds(s, 1, |s.frames| - 1);
    }
  }

  lemma PreparedStack(s: Stack, limit: nat, e: Effect)
    requires Valid(s) && |s.frames| == 1 && s.off == {}
    ensures
      var pushed := Push(s, Frame(s.next, s.frames[0].ctl, map[], 0, limit, None));
      var t := Foreign(pushed, e);
      Above(t, s.frames[0], s.next, limit) && Holds(t.frames, e.open) && t.frames[1].writes == e.writes && t.frames[1].meter == e.used
      && Total(t.frames) == s.frames[0].meter + e.used + HeldTotal(e.open)
  {
    hide Foreign, Total;
    var pushed := Push(s, Frame(s.next, s.frames[0].ctl, map[], 0, limit, None));
    ForeignAdds(pushed, e, s.frames[0], s.next, limit);
    TwoFrames(pushed.frames);
    assert map[] + e.writes == e.writes;
  }

  /** What the executor hands back: a failure, or errors and one closed frame. */
  ghost predicate Ends(r: Errors, frames: seq<Frame>, result: Result) {
    match result
    case Discarded(stop) => stop == Failed(r) && r.failure.Some?
    case Committed(writes, err) =>
      |frames| == 1 && frames[0].writes == writes && r == Errors(if err.Some? then err.value else [], None) && err != Some([])
  }

  lemma RestartedAbove(s: Stack, main: Frame, id: nat, limit: nat)
    requires Above(s, main, id, limit)
    ensures Restart(s, id).Some?
    ensures var t := Restart(s, id).value;
      Above(t, main, id, limit) && |t.frames| == 2
      && t.frames[1] == s.frames[1].(writes := map[], meter := Total(s.frames) - main.meter)
  {
    hide Restart;
    RestartIs(s, 1);
  }

  /** Above the executor's frame are exactly the ones left open. */
  ghost predicate Holds(frames: seq<Frame>, open: seq<Held>) {
    |frames| == 2 + |open| && forall i | 0 <= i < |open| :: Contents(frames[2 + i]) == open[i]
  }

  lemma AddedTotal(before: seq<Frame>, after: seq<Frame>, e: Effect, metering: bool)
    requires Added(before, after, e, metering)
    ensures Total(after) == Total(before) + (if metering then e.used else 0) + HeldTotal(e.open)
  {
  }

  lemma AddedNothing(frames: seq<Frame>)
    requires frames != []
    ensures Added(frames, frames, NOTHING.effect, false)
  {
    var top := frames[|frames| - 1];
    assert top.writes + map[] == top.writes;
  }

  lemma Refused(s: Stack, t: Stack, open: seq<Held>, e: Effect, main: Frame, id: nat, limit: nat)
    requires Above(s, main, id, limit) && Holds(s.frames, open) && Added(s.frames, t.frames, e, false)
    ensures t.frames != [] && Current(t).restricted.Some? == Refuses(open + e.open)
  {
    var n := |s.frames|;
    if e.open != [] {
      assert Contents(t.frames[n + (|e.open| - 1)]) == e.open[|e.open| - 1];
    } else if open != [] {
      assert Contents(s.frames[2 + (|open| - 1)]) == open[|open| - 1];
    }
  }

  /** Without leaks every step of the path acted on the executor's frame. */
  lemma Path(w: World, s: Stack, s1: Stack, s2: Stack, s3: Stack, s4: Stack, main: Frame, id: nat)
    requires Above(s, main, id, w.limit) && Above(s3, main, id, w.limit)
    requires Holds(s.frames, w.preprocessing.effect.open)
    requires Added(s.frames, s1.frames, IfFees(w, w.balance).effect, false)
    requires Widened(s1.frames, s2.frames, BodyWrites(w), w.body.effect.used + w.flush.effect.used)
    requires Added(s2.frames, s3.frames, w.storage.effect, true)
    requires Added(s3.frames, s4.frames, IfFees(w, w.fee).effect, false)
    ensures |s4.frames| == 2 + |Leaked(w)|
    ensures Leaked(w) == [] ==> s4.frames[1].writes == s.frames[1].writes + NormalWrites(w)
  {
    hide Total, Valid, Contents;
    var p, b, g, h := w.preprocessing.effect.open, IfFees(w, w.balance).effect, w.storage.effect, IfFees(w, w.fee).effect;
    assert |s4.frames| == 2 + |p| + |b.open| + |g.open| + |h.open|;
    if Leaked(w) == [] {
      assert |s.frames| == |s1.frames| == |s2.frames| == |s3.frames| == 2;
      LayersAssociate(s.frames[1].writes, b.writes, BodyWrites(w), g.writes, h.writes);
    }
  }

  /** The frame the first fee deduction finds on top. */
  lemma PathTop(w: World, s: Stack, s1: Stack, s2: Stack, s3: Stack, main: Frame, id: nat)
    requires Above(s, main, id, w.limit) && s.frames[1].meter == w.preprocessing.effect.used
    requires Holds(s.frames, w.preprocessing.effect.open)
    requires Added(s.frames, s1.frames, IfFees(w, w.balance).effect, false)
    requires Widened(s1.frames, s2.frames, BodyWrites(w), w.body.effect.used + w.flush.effect.used)
    requires Added(s2.frames, s3.frames, w.storage.effect, true)
    ensures s3.frames != [] && Current(s3).meter == AtFees(w).meter && Current(s3).limit == AtFees(w).limit
  {
    hide Total, Valid, HeldTotal;
    var g := w.storage.effect;
    Topmost(s.frames, s1.frames, w.preprocessing.effect.open, IfFees(w, w.balance).effect);
    if g.open != [] {
      assert Contents(s3.frames[|s2.frames| + (|g.open| - 1)]) == g.open[|g.open| - 1];
    }
  }

  /** What is on top after foreign code was called on top of the frames left open. */
  lemma Topmost(before: seq<Frame>, after: seq<Frame>, open: seq<Held>, e: Effect)
    requires Holds(before, open) && Added(before, after, e, false)
    ensures
      var all := open + e.open;
      var top := after[|after| - 1];
      if all == [] then top.meter == before[1].meter && top.limit == before[1].limit
      else top.meter == all[|all| - 1].meter && top.limit == all[|all| - 1].limit
  {
    if e.open != [] {
      assert Contents(after[|before| + (|e.open| - 1)]) == e.open[|e.open| - 1];
    } else if open != [] {
      assert Contents(before[2 + (|open| - 1)]) == open[|open| - 1];
    }
  }

  lemma LayersAssociate(a: Writes, b: Writes, c: Writes, d: Writes, e: Writes)
    ensures a + b + c + d + e == a + (b + c + d + e)
  {
  }

  lemma TwoFrames(frames: seq<Frame>)
    requires |frames| == 2
    ensures Total(frames) == frames[0].meter + frames[1].meter
  {
    assert frames[1..] == [frames[1]] && frames[1..][1..] == [];
    assert Total(frames[1..]) == frames[1].meter + Total(frames[1..][1..]);
  }

  /** The body's frame was opened and Cadence prepared it without failure. */
  predicate Started(w: World, store: Writes) {
    CheckError(w, store).None? && w.bodyExecution && Gets(w.params).Got? && !(w.preprocessing.err.Some? && IsFailure(w.preprocessing.err.value))
  }

  /** Runs one transaction on its own state and commits that, unless something fatal
      happened; with the computation charged and the invalidator handed on. */
  method RunTransaction(w: World, store: Writes, limit: nat)
    returns (r: Result, charged: seq<nat>, invalidator: Option<Writes>)
    ensures r == Outcome(w, store)
    ensures r.Committed? ==> charged == if Started(w, store) then Charges(w) else []
    ensures r.Committed? ==>
      invalidator == if Started(w, store) && r.err == None then Some(w.body.effect.writes + w.flush.effect.writes) else None
    ensures !Started(w, store) ==> charged == [] && invalidator == None
    ensures w.authorizationChecks && w.authorization.Some? ==> charged == [] && (r.Committed? ==> r.writes == map[] && r.err == Some([w.authorization.value]))
  {
    hide Valid, Charges, Finished, Used, Total, Above;
    var txn := new TransactionState(limit);
    var executor := new TransactionExecutor(w, txn);
    charged, invalidator := [], None;
    var stop := executor.Preprocess(store);
    if stop.Some? {
      return Discarded(stop.value), charged, invalidator;
    }
    stop := executor.Execute(store);
    charged, invalidator := executor.charged, executor.invalidator;
    if stop.Some? {
      return Discarded(stop.value), charged, invalidator;
    }
    var writes := txn.Finalize();
    assert writes.Some?; // nothing is left open
    if w.derivedCommit.Some? {
      return Discarded(DerivedCommitFailed), charged, invalidator;
    }
    r := Committed(writes.value, executor.output);
  }

  lemma AboveValid(s: Stack, main: Frame, id: nat, limit: nat)
    requires Above(s, main, id, limit)
    ensures Valid(s) && s.off == {} && |s.frames| >= 2
  {
  }

  /** The same frames, with more written and metered on top. */
  ghost predicate Widened(before: seq<Frame>, after: seq<Frame>, writes: Writes, used: nat) {
    before != [] && |after| == |before| && after[..|before| - 1] == before[..|before| - 1]
    && after[|before| - 1] == before[|before| - 1].(
         writes := before[|before| - 1].writes + writes, meter := before[|before| - 1].meter + used)
  }

  /** The body's frame is the current one at its commit exactly when nothing was left
      open above it. */
  lemma BodyStack(s: Stack, e: Effect, f: Effect, main: Frame, id: nat, limit: nat)
    requires Above(s, main, id, limit) && Current(s).restricted == None
    ensures
      var pushed := Push(s, Frame(s.next, Current(s).ctl, map[], 0, Current(s).limit, None));
      var t := Foreign(pushed, e);
      var u := Foreign(t, f);
      Above(t, main, id, limit) && Above(u, main, id, limit)
      && Total(t.frames) == Total(s.frames) + e.used + HeldTotal(e.open)
      && Total(u.frames) == Total(t.frames) + f.used + HeldTotal(f.open)
      && match Commit(u, s.next)
         case None => e.open + f.open != []
         case Some(v) =>
           e.open + f.open == [] && Above(v, main, id, limit) && Total(v.frames) == Total(u.frames)
           && Current(u).writes == e.writes + f.writes && Widened(s.frames, v.frames, e.writes + f.writes, e.used + f.used)
  {
    hide Total, Foreign;
    var b := Frame(s.next, Current(s).ctl, map[], 0, Current(s).limit, None);
    var pushed := Push(s, b);
    TotalSnoc(s.frames, b);
    ForeignAdds(pushed, e, main, id, limit);
    var t := Foreign(pushed, e);
    ForeignAdds(t, f, main, id, limit);
    var u := Foreign(t, f);
    CommitBody(s, t, u, e, f, main, id, limit);
  }

  lemma CommitBody(s: Stack, t: Stack, u: Stack, e: Effect, f: Effect, main: Frame, id: nat, limit: nat)
    requires Above(s, main, id, limit) && Above(t, main, id, limit) && Above(u, main, id, limit)
    requires Added(s.frames + [Frame(s.next, Current(s).ctl, map[], 0, Current(s).limit, None)], t.frames, e, true)
    requires Added(t.frames, u.frames, f, true)
    ensures match Commit(u, s.next)
      case None => e.open + f.open != []
      case Some(v) =>
        e.open + f.open == [] && Above(v, main, id, limit) && Total(v.frames) == Total(u.frames)
        && Current(u).writes == e.writes + f.writes && Widened(s.frames, v.frames, e.writes + f.writes, e.used + f.used)
  {
    hide Total, Widened, Valid;
    var n := |s.frames|;
    assert t.frames[n].id == s.next;
    assert u.frames[n].id == s.next by {
      if e.open != [] {
        assert u.frames[..|t.frames| - 1][n] == t.frames[..|t.frames| - 1][n];
      }
    }
    if e.open + f.open == [] {
      assert map[] + e.writes == e.writes;
      assert u.frames[..n] == t.frames[..n] == s.frames;
      assert u.frames == s.frames + [u.frames[n]];
      CommitOne(s, u, main, id, limit);
    } else {
      DistinctIds(u, n, |u.frames| - 1);
    }
  }

  lemma DistinctIds(s: Stack, i: nat, j: nat)
    requires Valid(s) && i < j < |s.frames|
    ensures s.frames[i].id != s.frames[j].id
  {
  }

  lemma CommitOne(s: Stack, u: Stack, main: Frame, id: nat, limit: nat)
    requires Above(s, main, id, limit) && Above(u, main, id, limit)
    requires |u.frames| == |s.frames| + 1 && u.frames[..|s.frames|] == s.frames && Current(u).restricted == None
    ensures Commit(u, Current(u).id).Some?
    ensures var v := Commit(u, Current(u).id).value;
      Above(v, main, id, limit) && Total(v.frames) == Total(u.frames) && Widened(s.frames, v.frames, Current(u).writes, Current(u).meter)
  {
    hide Total;
    var n := |s.frames|;
    var v := MergedIntoParent(u);
    MergeKeepsTotal(u, 0);
    assert u.frames[0..] == u.frames && v.frames[0..] == v.frames;
    assert Valid(Popped(u));
    MergedIs(Popped(u), Current(u).writes, Current(u).meter);
    assert v.frames[0] == v.frames[..n - 1][0];
    assert n > 2 ==> v.frames[1] == v.frames[..n - 1][1];
  }
}
