/** Admission and shutdown of an engine unit (engine/unit.go).  Admitting a function
    and cancelling are atomic because both hold the admission lock; everything else
    interleaves freely.  Functions and actions of the caller take arbitrarily long and
    may use the unit themselves: each use is a task of its own. */
module Unit {
  import opened Bytes

  /** Do and Launch run once, LaunchAfter once after a delay, LaunchPeriodically at
      every tick after a delay. */
  datatype Kind = Once | Delayed | Periodic

  /** Where the goroutine of a task is.
      Entering: about to ask for admission.  Admitted: at its start, or at the select on
      the delay.  Checking, Ticking: at the two selects of the periodic loop.  Inside:
      running the function.  Leaving: about to call Done on the wait group. */
  datatype Pc = Idle | Entering | Refused | Admitted | Checking | Ticking | Inside | Leaving | Finished

  /** The goroutine of a call of Done, with the actions left to run. */
  datatype Closer = Uncalled | Called | Acting(left: nat) | Closed

  datatype Config = Config(kinds: seq<Kind>, actions: seq<nat>)

  datatype State = State(cancelled: bool, wg: int, tasks: seq<Pc>, closers: seq<Closer>)

  datatype Label =
    | Use(i: nat)
    | Admit(i: nat)
    | Quit(i: nat)
    | Go(i: nat)
    | Return(i: nat)
    | Release(i: nat)
    | Close(j: nat)
    | Cancel(j: nat)
    | Act(j: nat)
    | Signal(j: nat)

  function Initial(c: Config): State {
    State(false, 0, seq(|c.kinds|, _ => Idle), seq(|c.actions|, _ => Uncalled))
  }

  predicate Shape(c: Config, s: State) {
    |s.tasks| == |c.kinds| && |s.closers| == |c.actions|
  }

  /** Select statements offer the cancelled context next to a timer; the check before
      the ticker has a default instead. */
  predicate Enabled(c: Config, s: State, l: Label)
    requires Shape(c, s)
  {
    match l
    case Use(i) => i < |s.tasks| && s.tasks[i].Idle?
    case Admit(i) => i < |s.tasks| && s.tasks[i].Entering?
    case Quit(i) => i < |s.tasks| && s.cancelled && ((s.tasks[i].Admitted? && !c.kinds[i].Once?) || s.tasks[i].Checking? || s.tasks[i].Ticking?)
    case Go(i) => i < |s.tasks| && (s.tasks[i].Admitted? || (s.tasks[i].Checking? && !s.cancelled) || s.tasks[i].Ticking?)
    case Return(i) => i < |s.tasks| && s.tasks[i].Inside?
    case Release(i) => i < |s.tasks| && s.tasks[i].Leaving?
    case Close(j) => j < |s.closers| && s.closers[j].Uncalled?
    case Cancel(j) => j < |s.closers| && s.closers[j].Called?
    case Act(j) => j < |s.closers| && s.closers[j].Acting? && s.closers[j].left > 0
    case Signal(j) => j < |s.closers| && s.closers[j].Acting? && s.closers[j].left == 0 && s.wg == 0
  }

  function Apply(c: Config, s: State, l: Label): State
    requires Shape(c, s) && Enabled(c, s, l)
  {
    match l
    case Use(i) => s.(tasks := s.tasks[i := Entering])
    case Admit(i) =>
      if s.cancelled then s.(tasks := s.tasks[i := Refused])
      else s.(wg := s.wg + 1, tasks := s.tasks[i := Admitted])
    case Quit(i) => s.(tasks := s.tasks[i := Leaving])
    case Go(i) =>
      var pc := match s.tasks[i]
        case Admitted => if c.kinds[i].Periodic? then Checking else Inside
        case Checking => Ticking
        case _ => Inside;
      s.(tasks := s.tasks[i := pc])
    case Return(i) => s.(tasks := s.tasks[i := if c.kinds[i].Periodic? then Checking else Leaving])
    case Release(i) => s.(wg := s.wg - 1, tasks := s.tasks[i := Finished])
    case Close(j) => s.(closers := s.closers[j := Called])
    case Cancel(j) => s.(cancelled := true, closers := s.closers[j := Acting(c.actions[j])])
    case Act(j) => s.(closers := s.closers[j := Acting(s.closers[j].left - 1)])
    case Signal(j) => s.(closers := s.closers[j := Closed])
  }

  // ----- safety

  predicate Active(pc: Pc) {
    pc.Admitted? || pc.Checking? || pc.Ticking? || pc.Inside? || pc.Leaving?
  }

  function Actives(tasks: seq<Pc>): nat {
    if tasks == [] then 0 else (if Active(tasks[0]) then 1 else 0) + Actives(tasks[1..])
  }

  /** The wait group counts the functions admitted and not yet finished; a closer past
      its first step has cancelled; a closed channel means nothing is active. */
  ghost predicate Inv(c: Config, s: State) {
    Shape(c, s) && s.wg == Actives(s.tasks)
    && (forall j | 0 <= j < |s.closers| :: s.closers[j].Acting? || s.closers[j].Closed? ==> s.cancelled)
    && (forall j | 0 <= j < |s.closers| :: s.closers[j].Closed? ==> s.wg == 0)
    && (forall i | 0 <= i < |s.tasks| :: s.tasks[i].Checking? || s.tasks[i].Ticking? ==> c.kinds[i].Periodic?)
  }

  lemma {:induction false} ActivesUpdate(tasks: seq<Pc>, i: nat, pc: Pc)
    requires i < |tasks|
    ensures Actives(tasks[i := pc]) == Actives(tasks) - (if Active(tasks[i]) then 1 else 0) + if Active(pc) then 1 else 0
  {
    if i == 0 {
      assert tasks[i := pc][1..] == tasks[1..];
    } else {
      ActivesUpdate(tasks[1..], i - 1, pc);
      assert tasks[i := pc][1..] == tasks[1..][i - 1 := pc];
    }
  }

  lemma {:induction false} NoneActive(tasks: seq<Pc>, i: nat)
    requires i < |tasks| && Active(tasks[i])
    ensures Actives(tasks) > 0
  {
    if i > 0 {
      assert tasks[1..][i - 1] == tasks[i];
      NoneActive(tasks[1..], i - 1);
    }
  }

  lemma {:induction false} IdleCount(n: nat)
    ensures Actives(seq(n, _ => Idle)) == 0
  {
    if n > 0 {
      assert seq(n, _ => Idle)[1..] == seq(n - 1, _ => Idle);
      IdleCount(n - 1);
    }
  }

  lemma InitInv(c: Config)
    ensures Inv(c, Initial(c))
  {
    IdleCount(|c.kinds|);
  }

  function Touched(l: Label): Option<nat> {
    match l
    case Use(i) => Some(i)
    case Admit(i) => Some(i)
    case Quit(i) => Some(i)
    case Go(i) => Some(i)
    case Return(i) => Some(i)
    case Release(i) => Some(i)
    case _ => None
  }

  lemma StepInv(c: Config, s: State, l: Label)
    requires Inv(c, s) && Enabled(c, s, l)
    ensures Inv(c, Apply(c, s, l))
  {
    hide Actives;
    var t := Apply(c, s, l);
    if Touched(l).Some? {
      var i := Touched(l).value;
      ActivesUpdate(s.tasks, i, t.tasks[i]);
      assert t.tasks == s.tasks[i := t.tasks[i]];
      if Active(s.tasks[i]) {
        NoneActive(s.tasks, i);
      }
    }
  }

  // ----- runs

  function Run(c: Config, labels: seq<Label>): (r: Option<State>)
    ensures r.Some? ==> Inv(c, r.value)
  {
    if labels == [] then InitInv(c); Some(Initial(c))
    else
      var n := |labels| - 1;
      var r := Run(c, labels[..n]);
      if r.Some? && Enabled(c, r.value, labels[n]) then
        StepInv(c, r.value, labels[n]);
        Some(Apply(c, r.value, labels[n]))
      else None
  }

  /** Cancellation and closed channels are for good. */
  lemma {:induction false} Lasting(c: Config, labels: seq<Label>, more: seq<Label>)
    requires Run(c, labels + more).Some?
    ensures Run(c, labels).Some?
    ensures Run(c, labels).value.cancelled ==> Run(c, labels + more).value.cancelled
    ensures forall j | 0 <= j < |c.actions| ::
      Run(c, labels).value.closers[j].Closed? ==> Run(c, labels + more).value.closers[j].Closed?
    decreases |more|
  {
    hide Enabled, Apply, Actives;
    if more == [] {
      assert labels + more == labels;
    } else {
      assert (labels + more)[..|labels + more| - 1] == labels + more[..|more| - 1];
      Lasting(c, labels, more[..|more| - 1]);
      StepLasts(c, Run(c, labels + more[..|more| - 1]).value, more[|more| - 1]);
    }
  }

  lemma StepLasts(c: Config, s: State, l: Label)
    requires Shape(c, s) && Enabled(c, s, l)
    ensures var t := Apply(c, s, l);
      (s.cancelled ==> t.cancelled) && |t.closers| == |s.closers|
      && forall j | 0 <= j < |s.closers| :: s.closers[j].Closed? ==> t.closers[j].Closed?
  {
  }

  /** Once any done channel is closed, no function runs or is admitted, then and in
      every continuation. */
  lemma DoneMeansSilent(c: Config, labels: seq<Label>, more: seq<Label>, j: nat, i: nat)
    requires Run(c, labels + more).Some? && j < |c.actions| && i < |c.kinds|
    requires Run(c, labels).Some? && Run(c, labels).value.closers[j].Closed?
    ensures
      var s := Run(c, labels + more).value;
      s.cancelled && s.wg == 0 && !Active(s.tasks[i])
      && (Enabled(c, s, Admit(i)) ==> Apply(c, s, Admit(i)).tasks[i].Refused?)
  {
    Lasting(c, labels, more);
    var s := Run(c, labels + more).value;
    assert s.closers[j].Closed?;
    if Active(s.tasks[i]) {
      NoneActive(s.tasks, i);
    }
  }

  /** The wait group counts exactly the admitted functions that have not finished, so
      waiting for it is waiting for them. */
  lemma WaitGroupCounts(c: Config, labels: seq<Label>)
    requires Run(c, labels).Some?
    ensures Run(c, labels).value.wg == Actives(Run(c, labels).value.tasks)
    ensures Run(c, labels).value.wg == 0 <==> forall i | 0 <= i < |c.kinds| :: !Active(Run(c, labels).value.tasks[i])
  {
    var s := Run(c, labels).value;
    if s.wg == 0 {
      forall i | 0 <= i < |c.kinds| ensures !Active(s.tasks[i]) {
        if Active(s.tasks[i]) {
          NoneActive(s.tasks, i);
        }
      }
    }
    if forall i | 0 <= i < |s.tasks| :: !Active(s.tasks[i]) {
      NoActives(s.tasks);
    }
  }

  lemma {:induction false} NoActives(tasks: seq<Pc>)
    requires forall i | 0 <= i < |tasks| :: !Active(tasks[i])
    ensures Actives(tasks) == 0
  {
    if tasks != [] {
      NoActives(tasks[1..]);
    }
  }

  // ----- shutdown ends

  /** The steps a task can still take once the unit is cancelled. */
  function TaskRank(pc: Pc): nat {
    match pc
    case Idle => 7
    case Entering => 6
    case Admitted => 5
    case Ticking => 4
    case Inside => 3
    case Checking => 2
    case Leaving => 1
    case Refused => 0
    case Finished => 0
  }

  function TaskRanks(tasks: seq<Pc>): nat {
    if tasks == [] then 0 else TaskRank(tasks[0]) + TaskRanks(tasks[1..])
  }

  function CloserRank(actions: nat, j: Closer): nat {
    match j
    case Uncalled => actions + 3
    case Called => actions + 2
    case Acting(left) => left + 1
    case Closed => 0
  }

  function CloserRanks(actions: seq<nat>, closers: seq<Closer>): nat
    requires |actions| == |closers|
  {
    if closers == [] then 0 else CloserRank(actions[0], closers[0]) + CloserRanks(actions[1..], closers[1..])
  }

  function Measure(c: Config, s: State): nat
    requires Shape(c, s)
  {
    TaskRanks(s.tasks) + CloserRanks(c.actions, s.closers)
  }

  lemma {:induction false} TaskRanksUpdate(tasks: seq<Pc>, i: nat, pc: Pc)
    requires i < |tasks|
    ensures TaskRanks(tasks[i := pc]) == TaskRanks(tasks) - TaskRank(tasks[i]) + TaskRank(pc)
  {
    if i == 0 {
      assert tasks[i := pc][1..] == tasks[1..];
    } else {
      TaskRanksUpdate(tasks[1..], i - 1, pc);
      assert tasks[i := pc][1..] == tasks[1..][i - 1 := pc];
    }
  }

  lemma {:induction false} CloserRanksUpdate(actions: seq<nat>, closers: seq<Closer>, j: nat, x: Closer)
    requires |actions| == |closers| && j < |closers|
    ensures CloserRanks(actions, closers[j := x]) == CloserRanks(actions, closers) - CloserRank(actions[j], closers[j]) + CloserRank(actions[j], x)
  {
    if j == 0 {
      assert closers[j := x][1..] == closers[1..];
    } else {
      CloserRanksUpdate(actions[1..], closers[1..], j - 1, x);
      assert closers[j := x][1..] == closers[1..][j - 1 := x];
    }
  }

  lemma MeasureDecreases(c: Config, s: State, l: Label)
    requires Shape(c, s) && s.cancelled && Enabled(c, s, l)
    ensures Measure(c, Apply(c, s, l)) < Measure(c, s)
  {
    hide TaskRanks, CloserRanks;
    var t := Apply(c, s, l);
    if Touched(l).Some? {
      var i := Touched(l).value;
      TaskRanksUpdate(s.tasks, i, t.tasks[i]);
      assert t.tasks == s.tasks[i := t.tasks[i]];
    } else {
      CloserRanksUpdate(c.actions, s.closers, l.j, t.closers[l.j]);
      assert t.closers == s.closers[l.j := t.closers[l.j]];
    }
  }

  /** After cancellation only so many steps are left, whatever the interleaving ... */
  lemma {:induction false} ShutdownEnds(c: Config, labels: seq<Label>, more: seq<Label>)
    requires Run(c, labels + more).Some?
    ensures Run(c, labels).Some?
    ensures Run(c, labels).value.cancelled ==>
      |more| + Measure(c, Run(c, labels + more).value) <= Measure(c, Run(c, labels).value)
    decreases |more|
  {
    hide Measure, Enabled, Apply, Inv;
    if more == [] {
      assert labels + more == labels;
    } else {
      var n := |more| - 1;
      assert (labels + more)[..|labels + more| - 1] == labels + more[..n];
      ShutdownEnds(c, labels, more[..n]);
      if Run(c, labels).value.cancelled {
        Lasting(c, labels, more[..n]);
        var s := Run(c, labels + more[..n]).value;
        assert Shape(c, s) by { InvShape(c, s); }
        MeasureDecreases(c, s, more[n]);
      }
    }
  }

  lemma InvShape(c: Config, s: State)
    requires Inv(c, s)
    ensures Shape(c, s)
  {
  }

  lemma {:induction false} SomeActive(tasks: seq<Pc>) returns (i: nat)
    requires Actives(tasks) > 0
    ensures i < |tasks| && Active(tasks[i])
  {
    if Active(tasks[0]) {
      i := 0;
    } else {
      i := SomeActive(tasks[1..]);
      i := i + 1;
    }
  }

  lemma Progress(c: Config, s: State, j: nat) returns (l: Label)
    requires Inv(c, s) && s.cancelled && j < |s.closers| && !s.closers[j].Closed?
    ensures Enabled(c, s, l)
  {
    match s.closers[j]
    case Uncalled => l := Close(j);
    case Called => l := Cancel(j);
    case Acting(left) =>
      if left > 0 {
        l := Act(j);
      } else if s.wg == 0 {
        l := Signal(j);
      } else {
        var i := SomeActive(s.tasks);
        l := match s.tasks[i]
          case Inside => Return(i)
          case Leaving => Release(i)
          case Admitted => Go(i)
          case _ => Quit(i);
      }
  }

  /** ... and where none is left, every done channel is closed. */
  lemma StuckMeansDone(c: Config, labels: seq<Label>, j: nat)
    requires Run(c, labels).Some? && Run(c, labels).value.cancelled && j < |c.actions|
    requires forall l: Label :: !Enabled(c, Run(c, labels).value, l)
    ensures Run(c, labels).value.closers[j].Closed?
  {
    var s := Run(c, labels).value;
    if !s.closers[j].Closed? {
      var l := Progress(c, s, j);
      assert false;
    }
  }

  /** How often a function can still start once the unit is cancelled. */
  function StartsLeft(k: Kind, pc: Pc): nat {
    if pc.Ticking? || (pc.Admitted? && !k.Periodic?) then 1 else 0
  }

  /** How often the function of task `i` starts in the second part of a run. */
  function Starts(c: Config, labels: seq<Label>, more: seq<Label>, i: nat): nat
    requires Run(c, labels + more).Some? && i < |c.kinds|
    decreases |more|
  {
    if more == [] then 0
    else
      var n := |more| - 1;
      assert (labels + more)[..|labels + more| - 1] == labels + more[..n];
      var s, t := Run(c, labels + more[..n]).value, Run(c, labels + more).value;
      Starts(c, labels, more[..n], i) + if !s.tasks[i].Inside? && t.tasks[i].Inside? then 1 else 0
  }

  lemma StartsLeftBound(k: Kind, pc: Pc)
    ensures StartsLeft(k, pc) <= 1
  {
  }

  lemma StepStarts(c: Config, s: State, l: Label, i: nat)
    requires Shape(c, s) && s.cancelled && Enabled(c, s, l) && i < |c.kinds|
    ensures
      var t := Apply(c, s, l);
      i < |t.tasks| && (if !s.tasks[i].Inside? && t.tasks[i].Inside? then 1 else 0) + StartsLeft(c.kinds[i], t.tasks[i])
        <= StartsLeft(c.kinds[i], s.tasks[i])
  {
  }

  /** A cancelled unit starts every function at most once more: a periodic one only if
      it was already waiting for its tick. */
  lemma {:induction false} AtMostOneMore(c: Config, labels: seq<Label>, more: seq<Label>, i: nat)
    requires Run(c, labels + more).Some? && i < |c.kinds|
    requires Run(c, labels).Some? && Run(c, labels).value.cancelled
    ensures Starts(c, labels, more, i) + StartsLeft(c.kinds[i], Run(c, labels + more).value.tasks[i])
      <= StartsLeft(c.kinds[i], Run(c, labels).value.tasks[i]) <= 1
    decreases |more|
  {
    hide Enabled, Apply, StartsLeft, Inv;
    InvShape(c, Run(c, labels).value);
    StartsLeftBound(c.kinds[i], Run(c, labels).value.tasks[i]);
    if more == [] {
      assert labels + more == labels;
    } else {
      var n := |more| - 1;
      assert (labels + more)[..|labels + more| - 1] == labels + more[..n];
      AtMostOneMore(c, labels, more[..n], i);
      Lasting(c, labels, more[..n]);
      var s := Run(c, labels + more[..n]).value;
      InvShape(c, s);
      StepStarts(c, s, more[n], i);
    }
  }

  // ----- what a step does, seen from the run

  ghost predicate Cancels(labels: seq<Label>) {
    exists k | 0 <= k < |labels| :: labels[k].Cancel?
  }

  lemma RunStep(c: Config, labels: seq<Label>, l: Label)
    requires Run(c, labels).Some?
    ensures Run(c, labels + [l]) == if Enabled(c, Run(c, labels).value, l) then Some(Apply(c, Run(c, labels).value, l)) else None
  {
    assert (labels + [l])[..|labels|] == labels;
  }

  /** The context is done exactly after some call of Done has cancelled it. */
  lemma {:induction false} CancelledIff(c: Config, labels: seq<Label>)
    requires Run(c, labels).Some?
    ensures Run(c, labels).value.cancelled <==> Cancels(labels)
  {
    hide Apply, Enabled, Inv;
    if labels != [] {
      var n := |labels| - 1;
      CancelledIff(c, labels[..n]);
      InvShape(c, Run(c, labels[..n]).value);
      StepCancels(c, Run(c, labels[..n]).value, labels[n]);
      assert forall k | 0 <= k < n :: labels[k] == labels[..n][k];
    }
  }

  lemma StepCancels(c: Config, s: State, l: Label)
    requires Shape(c, s) && Enabled(c, s, l)
    ensures Apply(c, s, l).cancelled <==> s.cancelled || l.Cancel?
  {
  }

  /** A function is refused exactly if the unit was cancelled before; else it counts from
      then on.  Nothing else is concerned. */
  lemma AdmittedUnlessCancelled(c: Config, labels: seq<Label>, i: nat)
    requires Run(c, labels).Some? && i < |c.kinds| && Run(c, labels).value.tasks[i].Entering?
    ensures
      var s, r := Run(c, labels).value, Run(c, labels + [Admit(i)]);
      r.Some? && r.value.closers == s.closers && r.value.cancelled == s.cancelled
      && if Cancels(labels) then r.value.wg == s.wg && r.value.tasks == s.tasks[i := Refused]
         else r.value.wg == s.wg + 1 && r.value.tasks == s.tasks[i := Admitted]
  {
    RunStep(c, labels, Admit(i));
    CancelledIff(c, labels);
  }

  /** An admitted function goes on: one to run once starts, a delayed one may start, a
      periodic one enters its loop, also if the unit is cancelled meanwhile. */
  lemma AdmittedGoesOn(c: Config, labels: seq<Label>, i: nat)
    requires Run(c, labels).Some? && i < |c.kinds| && Run(c, labels).value.tasks[i].Admitted?
    ensures
      var s, r := Run(c, labels).value, Run(c, labels + [Go(i)]);
      r == Some(s.(tasks := s.tasks[i := if c.kinds[i] == Periodic then Checking else Inside]))
  {
    RunStep(c, labels, Go(i));
  }

  /** Waits can be left because of cancellation, and the start of a function that runs once
      cannot. */
  lemma QuitsOnlyCancelled(c: Config, labels: seq<Label>, i: nat)
    requires Run(c, labels).Some? && i < |c.kinds|
    ensures
      var s, r := Run(c, labels).value, Run(c, labels + [Quit(i)]);
      var pc := s.tasks[i];
      if Cancels(labels) && ((pc == Admitted && c.kinds[i] != Once) || pc == Checking || pc == Ticking)
      then r == Some(s.(tasks := s.tasks[i := Leaving]))
      else r == None
  {
    RunStep(c, labels, Quit(i));
    CancelledIff(c, labels);
  }

  /** The loop of a periodic function waits for its tick exactly if the unit is not
      cancelled when it checks; a tick starts the function. */
  lemma LoopChecksFirst(c: Config, labels: seq<Label>, i: nat)
    requires Run(c, labels).Some? && i < |c.kinds| && (Run(c, labels).value.tasks[i].Checking? || Run(c, labels).value.tasks[i].Ticking?)
    ensures
      var s, r := Run(c, labels).value, Run(c, labels + [Go(i)]);
      if s.tasks[i] == Ticking then r == Some(s.(tasks := s.tasks[i := Inside]))
      else if Cancels(labels) then r == None
      else r == Some(s.(tasks := s.tasks[i := Ticking]))
  {
    RunStep(c, labels, Go(i));
    CancelledIff(c, labels);
  }

  /** A function that returns ends its task, unless it is periodic; a task that ends is
      taken off the count. */
  lemma ReturnsAndEnds(c: Config, labels: seq<Label>, i: nat)
    requires Run(c, labels).Some? && i < |c.kinds|
    ensures
      var s := Run(c, labels).value;
      (s.tasks[i] == Inside ==>
         Run(c, labels + [Return(i)]) == Some(s.(tasks := s.tasks[i := if c.kinds[i] == Periodic then Checking else Leaving])))
      && (s.tasks[i] == Leaving ==>
            Run(c, labels + [Release(i)]) == Some(s.(wg := s.wg - 1, tasks := s.tasks[i := Finished])))
  {
    hide Run, Actives;
    RunStep(c, labels, Return(i));
    RunStep(c, labels, Release(i));
  }

  /** A call of Done first cancels, then runs its actions, each once, and closes its
      channel exactly when no function is left. */
  lemma DoneInOrder(c: Config, labels: seq<Label>, j: nat)
    requires Run(c, labels).Some? && j < |c.actions|
    ensures
      var s := Run(c, labels).value;
      match s.closers[j]
      case Uncalled => Run(c, labels + [Close(j)]) == Some(s.(closers := s.closers[j := Called]))
      case Called => Run(c, labels + [Cancel(j)]) == Some(s.(cancelled := true, closers := s.closers[j := Acting(c.actions[j])]))
      case Acting(left) =>
        if left > 0 then Run(c, labels + [Act(j)]) == Some(s.(closers := s.closers[j := Acting(left - 1)])) && Run(c, labels + [Signal(j)]) == None
        else Run(c, labels + [Signal(j)]) == if s.wg == 0 then Some(s.(closers := s.closers[j := Closed])) else None
      case Closed => true
  {
    hide Run, Actives;
    RunStep(c, labels, Close(j));
    RunStep(c, labels, Cancel(j));
    RunStep(c, labels, Act(j));
    RunStep(c, labels, Signal(j));
  }

  // ----- a unit that is not cancelled runs what it is given

  /** How often the function of a task has started. */
  function StartCount(c: Config, labels: seq<Label>, i: nat): nat
    requires Run(c, labels).Some? && i < |c.kinds|
  {
    if labels == [] then 0
    else
      var n := |labels| - 1;
      var s, t := Run(c, labels[..n]).value, Run(c, labels).value;
      StartCount(c, labels[..n], i) + if s.tasks[i] != Inside && t.tasks[i] == Inside then 1 else 0
  }

  predicate Ran(pc: Pc) {
    pc == Inside || pc == Leaving || pc == Finished
  }

  lemma StepRan(c: Config, s: State, l: Label, i: nat)
    requires Shape(c, s) && Enabled(c, s, l) && !s.cancelled && i < |c.kinds| && c.kinds[i] != Periodic
    requires s.tasks[i] != Checking && s.tasks[i] != Ticking && s.tasks[i] != Refused
    ensures
      var t := Apply(c, s, l);
      |t.tasks| == |c.kinds| && t.tasks[i] != Refused
      && (if Ran(s.tasks[i]) then 1 else 0) + (if s.tasks[i] != Inside && t.tasks[i] == Inside then 1 else 0) == (if Ran(t.tasks[i]) then 1 else 0)
      && (t.tasks[i] == Idle <==> s.tasks[i] == Idle && l != Use(i))
  {
  }

  /** Without cancellation a function that is not periodic has started once as soon as its
      task is past its start, and no task is refused. */
  lemma {:induction false} LiveTasks(c: Config, labels: seq<Label>, i: nat)
    requires Run(c, labels).Some? && !Cancels(labels) && i < |c.kinds| && c.kinds[i] != Periodic
    ensures
      var pc := Run(c, labels).value.tasks[i];
      pc != Refused && StartCount(c, labels, i) == (if Ran(pc) then 1 else 0)
      && (pc != Idle <==> exists k | 0 <= k < |labels| :: labels[k] == Use(i))
  {
    hide Apply, Enabled, Actives;
    if labels != [] {
      var n := |labels| - 1;
      var before, l := labels[..n], labels[n];
      assert forall k | 0 <= k < n :: labels[k] == before[k];
      assert !Cancels(before);
      LiveTasks(c, before, i);
      CancelledIff(c, before);
      StepRan(c, Run(c, before).value, l, i);
    }
  }

  /** Only new uses and calls of Done can still happen. */
  ghost predicate Settled(c: Config, s: State) {
    Shape(c, s) && forall l: Label :: Enabled(c, s, l) ==> l.Use? || l.Close?
  }

  /** Then every function that was given to run once, at once or delayed, has run exactly
      once and is finished. */
  lemma LiveUnitRunsAll(c: Config, labels: seq<Label>, k: nat, i: nat)
    requires Run(c, labels).Some? && !Cancels(labels) && Settled(c, Run(c, labels).value)
    requires k < |labels| && labels[k] == Use(i) && i < |c.kinds| && c.kinds[i] != Periodic
    ensures Run(c, labels).value.tasks[i] == Finished && StartCount(c, labels, i) == 1
  {
    hide Run, StartCount, Actives;
    LiveTasks(c, labels, i);
    var s := Run(c, labels).value;
    assert !Enabled(c, s, Admit(i)) && !Enabled(c, s, Go(i)) && !Enabled(c, s, Return(i)) && !Enabled(c, s, Release(i));
  }

  /** A periodic function that is running can return and start again, as long as the unit
      is not cancelled. */
  lemma PeriodicStartsAgain(c: Config, labels: seq<Label>, i: nat)
    requires Run(c, labels).Some? && !Cancels(labels) && i < |c.kinds| && c.kinds[i] == Periodic
    requires Run(c, labels).value.tasks[i] == Inside
    ensures Run(c, labels + [Return(i)] + [Go(i)] + [Go(i)]) == Run(c, labels)
    ensures Run(c, labels + [Return(i)]).Some? && Run(c, labels + [Return(i)]).value.tasks[i] != Inside
  {
    var s := Run(c, labels).value;
    ReturnsAndEnds(c, labels, i);
    var one := labels + [Return(i)];
    StillLive(labels, Return(i));
    LoopChecksFirst(c, one, i);
    var two := one + [Go(i)];
    StillLive(one, Go(i));
    LoopChecksFirst(c, two, i);
    assert s.tasks[i := Checking][i := Ticking][i := Inside] == s.tasks;
  }

  lemma StillLive(labels: seq<Label>, l: Label)
    requires !Cancels(labels) && !l.Cancel?
    ensures !Cancels(labels + [l])
  {
    assert forall k | 0 <= k < |labels| :: (labels + [l])[k] == labels[k];
  }
}
