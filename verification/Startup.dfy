/** Serial startup of a node's components (cmd/scaffold.go): every worker waits for
    the channel of the one before it, and closes its own when it is ready, or at once
    if it can be restarted.  Workers with explicit dependencies wait for those and
    release nobody. */
module Startup {
  import opened Bytes

  datatype Component = Component(name: string, restartable: bool, dependencies: Option<seq<string>>)

  datatype Kind = Serial | Restartable | Async

  /** A registered worker: what it waits for and what it closes. */
  datatype Worker = Worker(component: Component, kind: Kind, parent: nat, started: Option<nat>)

  predicate InChain(f: Component) {
    f.dependencies.None?
  }

  function Chain(components: seq<Component>): seq<Component> {
    if components == [] then []
    else if InChain(components[0]) then [components[0]] + Chain(components[1..])
    else Chain(components[1..])
  }

  function Rest(components: seq<Component>): seq<Component> {
    if components == [] then []
    else if InChain(components[0]) then Rest(components[1..])
    else [components[0]] + Rest(components[1..])
  }

  /** The workers of the first `n` positions form a chain of channels starting at the
      closed channel 0; the others each have a dependency channel of their own. */
  ghost predicate Wired(workers: seq<Worker>, n: nat) {
    n <= |workers|
    && forall i | 0 <= i < |workers| ::
         if i < n then workers[i].kind != Async && workers[i].parent == i && workers[i].started == Some(i + 1)
         else workers[i].kind == Async && workers[i].parent == i + 1 && workers[i].started == None
  }

  lemma {:induction false} ChainSnoc(done: seq<Component>, f: Component)
    ensures Chain(done + [f]) == if InChain(f) then Chain(done) + [f] else Chain(done)
  {
    hide InChain;
    if done == [] {
      assert done + [f] == [f] && [f][1..] == [];
      assert [f] + [] == [f];
    } else {
      ChainSnoc(done[1..], f);
      assert (done + [f])[1..] == done[1..] + [f] && (done + [f])[0] == done[0];
      assert [done[0]] + (Chain(done[1..]) + [f]) == [done[0]] + Chain(done[1..]) + [f];
    }
  }

  lemma {:induction false} RestSnoc(done: seq<Component>, f: Component)
    ensures Rest(done + [f]) == if InChain(f) then Rest(done) else Rest(done) + [f]
  {
    hide InChain;
    if done == [] {
      assert done + [f] == [f] && [f][1..] == [];
      assert [f] + [] == [f];
    } else {
      RestSnoc(done[1..], f);
      assert (done + [f])[1..] == done[1..] + [f] && (done + [f])[0] == done[0];
      assert [done[0]] + (Rest(done[1..]) + [f]) == [done[0]] + Rest(done[1..]) + [f];
    }
  }

  /** How many of the components are started serially. */
  function CountSerial(components: seq<Component>): nat {
    if components == [] then 0
    else CountSerial(components[..|components| - 1]) + if components[|components| - 1].dependencies == None then 1 else 0
  }

  lemma SerialSnoc(done: seq<Component>, f: Component)
    ensures CountSerial(done + [f]) == CountSerial(done) + if f.dependencies == None then 1 else 0
  {
    assert (done + [f])[..|done|] == done;
  }

  lemma {:induction false} Counted(components: seq<Component>)
    ensures |Chain(components)| == CountSerial(components) && |Rest(components)| == |components| - CountSerial(components)
  {
    if components != [] {
      var n := |components| - 1;
      var front, last := components[..n], components[n];
      assert components == front + [last];
      Counted(front);
      ChainSnoc(front, last);
      RestSnoc(front, last);
      SerialSnoc(front, last);
    }
  }

  /** The serial components are started in the order given, and so are the others. */
  lemma {:induction false} ChainAt(components: seq<Component>, a: nat)
    requires a < |components|
    ensures |Chain(components)| == CountSerial(components) && |Rest(components)| == |components| - CountSerial(components)
    ensures
      var before, f := CountSerial(components[..a]), components[a];
      before <= a
      && if f.dependencies == None then before < |Chain(components)| && Chain(components)[before] == f
         else a - before < |Rest(components)| && Rest(components)[a - before] == f
  {
    hide Chain, Rest, CountSerial;
    var n := |components| - 1;
    var front, last := components[..n], components[n];
    assert components == front + [last];
    Counted(components);
    Counted(front);
    ChainSnoc(front, last);
    RestSnoc(front, last);
    SerialSnoc(front, last);
    if a < n {
      ChainAt(front, a);
      assert front[..a] == components[..a];
    }
  }

  lemma NoneYet(components: seq<Component>)
    ensures Chain(components[..0]) == [] && Rest(components[..0]) == []
  {
  }

  /** Threads the channels through the serial components in order and appends the
      asynchronous ones. */
  method AddWorkersFromComponents(components: seq<Component>) returns (workers: seq<Worker>, n: nat)
    ensures Wired(workers, n) && n == |Chain(components)| && |workers| == n + |Rest(components)|
    ensures forall i | 0 <= i < |workers| ::
      workers[i].component == if i < n then Chain(components)[i] else Rest(components)[i - n]
    ensures forall i | 0 <= i < n :: workers[i].kind == if workers[i].component.restartable then Restartable else Serial
  {
    hide Chain, Rest;
    NoneYet(components);
    var parent := 0;
    var channels := 1;
    var asyncComponents := [];
    workers := [];
    for i := 0 to |components|
      invariant parent == |workers| == |Chain(components[..i])| && channels == parent + 1 && Wired(workers, parent)
      invariant asyncComponents == Rest(components[..i])
      invariant forall k | 0 <= k < |workers| :: workers[k].component == Chain(components[..i])[k]
      invariant forall k | 0 <= k < |workers| :: workers[k].kind == if workers[k].component.restartable then Restartable else Serial
    {
      var f := components[i];
      ChainSnoc(components[..i], f);
      RestSnoc(components[..i], f);
      assert components[..i + 1] == components[..i] + [f];
      if f.dependencies.Some? {
        asyncComponents := asyncComponents + [f];
        continue;
      }
      var started := channels;
      channels := channels + 1;
      workers := workers + [Worker(f, if f.restartable then Restartable else Serial, parent, Some(started))];
      parent := started;
    }
    assert components[..|components|] == components;
    n := parent;
    for a := 0 to |asyncComponents|
      invariant |workers| == n + a && channels == n + 1 + a && Wired(workers, n)
      invariant forall k | 0 <= k < |workers| ::
        workers[k].component == if k < n then Chain(components)[k] else asyncComponents[k - n]
      invariant forall k | 0 <= k < n :: workers[k].kind == if workers[k].component.restartable then Restartable else Serial
    {
      workers := workers + [Worker(asyncComponents[a], Async, channels, None)];
      channels := channels + 1;
    }
  }

  // ----- the workers run

  /** AtParent: waiting for the channel before.  Constructing: in the factory.
      Awaiting: until the component is ready.  Passing: about to call started.  Up: until
      shutdown.  Looping: a restartable component is run, again and again.  Thrown: an
      irrecoverable error ended the goroutine. */
  datatype Pc = AtParent | Constructing | Awaiting | Passing | Up | Looping | Gone | Thrown

  /** `closes` counts how often each channel was closed, `built` how often each factory
      was called, `ready` which components have signalled. */
  datatype State = State(closes: seq<nat>, cancelled: bool, pcs: seq<Pc>, built: seq<nat>, ready: seq<bool>)

  datatype Label =
    | Enter(i: nat)
    | Abort(i: nat)
    | Construct(i: nat)
    | Throw(i: nat)
    | Signal(i: nat)
    | Notice(i: nat)
    | GiveUp(i: nat)
    | Release(i: nat)
    | Rebuild(i: nat)
    | Exit(i: nat)
    | Depend(i: nat)
    | Cancel

  function Initial(ws: seq<Worker>): State {
    var m := |ws|;
    State(seq(m + 1, k => if k == 0 then 1 else 0), false, seq(m, _ => AtParent), seq(m, _ => 0), seq(m, _ => false))
  }

  predicate Shape(ws: seq<Worker>, s: State) {
    |s.closes| == |ws| + 1 && |s.pcs| == |s.built| == |s.ready| == |ws|
    && forall i | 0 <= i < |ws| :: ws[i].parent <= |ws| && (ws[i].started.Some? ==> ws[i].started.value <= |ws|)
  }

  predicate Closed(s: State, ch: nat)
    requires ch < |s.closes|
  {
    s.closes[ch] > 0
  }

  /** A wait gives up only if the context is cancelled and the channel still open; when
      both are there it goes on. */
  predicate Enabled(ws: seq<Worker>, s: State, l: Label)
    requires Shape(ws, s)
  {
    match l
    case Enter(i) => i < |ws| && s.pcs[i].AtParent? && Closed(s, ws[i].parent)
    case Abort(i) => i < |ws| && s.pcs[i].AtParent? && s.cancelled && !Closed(s, ws[i].parent)
    case Construct(i) => i < |ws| && s.pcs[i].Constructing?
    case Throw(i) => i < |ws| && (s.pcs[i].Constructing? || s.pcs[i].Looping?)
    case Signal(i) => i < |ws| && s.pcs[i].Awaiting? && !s.ready[i]
    case Notice(i) => i < |ws| && s.pcs[i].Awaiting? && s.ready[i]
    case GiveUp(i) => i < |ws| && s.pcs[i].Awaiting? && s.cancelled && !s.ready[i]
    case Release(i) => i < |ws| && s.pcs[i].Passing?
    case Rebuild(i) => i < |ws| && s.pcs[i].Looping?
    case Exit(i) => i < |ws| && ((s.pcs[i].Up? && s.cancelled) || s.pcs[i].Looping?)
    case Depend(i) => i < |ws| && ws[i].kind.Async? && !Closed(s, ws[i].parent)
    case Cancel => !s.cancelled
  }

  function Apply(ws: seq<Worker>, s: State, l: Label): State
    requires Shape(ws, s) && Enabled(ws, s, l)
  {
    match l
    case Enter(i) =>
      if ws[i].kind.Restartable? then s.(pcs := s.pcs[i := Passing])
      else s.(pcs := s.pcs[i := Constructing], built := s.built[i := s.built[i] + 1])
    case Abort(i) => s.(pcs := s.pcs[i := Gone])
    case Construct(i) => s.(pcs := s.pcs[i := Awaiting])
    case Throw(i) => s.(pcs := s.pcs[i := Thrown])
    case Signal(i) => s.(ready := s.ready[i := true])
    case Notice(i) => s.(pcs := s.pcs[i := Passing])
    case GiveUp(i) => s.(pcs := s.pcs[i := Gone])
    case Release(i) =>
      var t := s.(pcs := s.pcs[i := if ws[i].kind.Restartable? then Looping else Up]);
      if ws[i].started.None? then t
      else var ch := ws[i].started.value; t.(closes := s.closes[ch := s.closes[ch] + 1])
    case Rebuild(i) => s.(built := s.built[i := s.built[i] + 1])
    case Exit(i) => s.(pcs := s.pcs[i := Gone])
    case Depend(i) => var ch := ws[i].parent; s.(closes := s.closes[ch := s.closes[ch] + 1])
    case Cancel => s.(cancelled := true)
  }

  // ----- what holds in every state

  /** The worker has not passed yet; its channel is open. */
  predicate Before(pc: Pc) {
    pc.AtParent? || pc.Constructing? || pc.Awaiting? || pc.Passing?
  }

  ghost predicate WorkerOk(ws: seq<Worker>, s: State, n: nat, i: nat)
    requires Shape(ws, s) && i < |ws|
  {
    (s.pcs[i].AtParent? ==> s.built[i] == 0)
    && (s.pcs[i] != AtParent && s.built[i] > 0 ==> Closed(s, ws[i].parent))
    && (s.pcs[i].Constructing? || s.pcs[i].Awaiting? ==> s.built[i] > 0 && !ws[i].kind.Restartable?)
    && (s.pcs[i].Passing? || s.pcs[i].Looping? || s.pcs[i].Up? ==> Closed(s, ws[i].parent))
    && (s.pcs[i].Passing? && !ws[i].kind.Restartable? ==> s.ready[i] && s.built[i] > 0)
    && (s.pcs[i].Passing? && ws[i].kind.Restartable? ==> s.built[i] == 0)
    && (s.pcs[i].Looping? ==> ws[i].kind.Restartable?)
    && (i < n && Before(s.pcs[i]) ==> s.closes[i + 1] == 0)
    && (i < n && (s.pcs[i].Looping? || s.pcs[i].Up?) ==> s.closes[i + 1] == 1)
    && s.closes[i + 1] <= 1
    && (i < n && s.closes[i + 1] > 0 ==> s.closes[i] > 0 && (ws[i].kind.Serial? ==> s.ready[i] && s.built[i] > 0))
  }

  ghost predicate Inv(ws: seq<Worker>, n: nat, s: State) {
    Wired(ws, n) && Shape(ws, s) && s.closes[0] == 1 && forall i | 0 <= i < |ws| :: WorkerOk(ws, s, n, i)
  }

  lemma InitInv(ws: seq<Worker>, n: nat)
    requires Wired(ws, n)
    ensures Inv(ws, n, Initial(ws))
  {
  }

  lemma StepInv(ws: seq<Worker>, n: nat, s: State, l: Label)
    requires Inv(ws, n, s) && Enabled(ws, s, l)
    ensures Inv(ws, n, Apply(ws, s, l))
  {
    hide WorkerOk;
    var t := Apply(ws, s, l);
    ApplyShape(ws, n, s, l);
    forall i | 0 <= i < |ws| ensures WorkerOk(ws, t, n, i) {
      StepWorker(ws, n, s, l, i);
    }
  }

  lemma ApplyShape(ws: seq<Worker>, n: nat, s: State, l: Label)
    requires Wired(ws, n) && Shape(ws, s) && Enabled(ws, s, l) && s.closes[0] == 1
    ensures Shape(ws, Apply(ws, s, l)) && Apply(ws, s, l).closes[0] == 1
  {
  }

  lemma StepWorker(ws: seq<Worker>, n: nat, s: State, l: Label, i: nat)
    requires Wired(ws, n) && Shape(ws, s) && i < |ws| && WorkerOk(ws, s, n, i) && Enabled(ws, s, l) && s.closes[0] == 1
    requires l.Release? ==> WorkerOk(ws, s, n, l.i)
    ensures Shape(ws, Apply(ws, s, l)) && WorkerOk(ws, Apply(ws, s, l), n, i)
  {
    hide WorkerOk;
    ApplyShape(ws, n, s, l);
    var t := Apply(ws, s, l);
    if l.Cancel? || l.i != i {
      if l.Release? {
        ReleaseOpen(ws, n, s, l.i);
      }
      OtherStep(ws, n, s, t, i);
    } else if l.Release? {
      ReleaseStep(ws, n, s, i);
    } else if l.Depend? {
      DependStep(ws, n, s, i);
    } else {
      OwnStep(ws, n, s, l);
    }
  }

  /** Another worker's step: channels only close, and not this worker's. */
  lemma OtherStep(ws: seq<Worker>, n: nat, s: State, t: State, i: nat)
    requires Wired(ws, n) && Shape(ws, s) && Shape(ws, t) && i < |ws| && WorkerOk(ws, s, n, i)
    requires s.pcs[i] == t.pcs[i] && s.built[i] == t.built[i] && s.ready[i] == t.ready[i]
    requires s.closes[i + 1] == t.closes[i + 1] && forall ch | 0 <= ch < |s.closes| :: s.closes[ch] <= t.closes[ch]
    ensures WorkerOk(ws, t, n, i)
  {
  }

  lemma ReleaseOpen(ws: seq<Worker>, n: nat, s: State, i: nat)
    requires Wired(ws, n) && Shape(ws, s) && Enabled(ws, s, Release(i)) && WorkerOk(ws, s, n, i)
    ensures ws[i].started.Some? ==> ws[i].started == Some(i + 1) && s.closes[i + 1] == 0
  {
  }

  lemma ReleaseStep(ws: seq<Worker>, n: nat, s: State, i: nat)
    requires Wired(ws, n) && Shape(ws, s) && Enabled(ws, s, Release(i)) && WorkerOk(ws, s, n, i)
    ensures Shape(ws, Apply(ws, s, Release(i))) && WorkerOk(ws, Apply(ws, s, Release(i)), n, i)
  {
  }

  lemma DependStep(ws: seq<Worker>, n: nat, s: State, i: nat)
    requires Wired(ws, n) && Shape(ws, s) && Enabled(ws, s, Depend(i)) && WorkerOk(ws, s, n, i)
    ensures Shape(ws, Apply(ws, s, Depend(i))) && WorkerOk(ws, Apply(ws, s, Depend(i)), n, i)
  {
  }

  lemma OwnStep(ws: seq<Worker>, n: nat, s: State, l: Label)
    requires Wired(ws, n) && Shape(ws, s) && Enabled(ws, s, l) && !l.Cancel? && !l.Release? && !l.Depend?
    requires WorkerOk(ws, s, n, l.i)
    ensures Shape(ws, Apply(ws, s, l)) && WorkerOk(ws, Apply(ws, s, l), n, l.i)
  {
  }

  // ----- runs

  function Run(ws: seq<Worker>, n: nat, labels: seq<Label>): (r: Option<State>)
    requires Wired(ws, n)
    ensures r.Some? ==> Inv(ws, n, r.value)
  {
    if labels == [] then InitInv(ws, n); Some(Initial(ws))
    else
      var m := |labels| - 1;
      var r := Run(ws, n, labels[..m]);
      if r.Some? && Enabled(ws, r.value, labels[m]) then
        StepInv(ws, n, r.value, labels[m]);
        Some(Apply(ws, r.value, labels[m]))
      else None
  }

  /** What a worker must have done before it lets the next one in. */
  ghost predicate LetsOn(ws: seq<Worker>, s: State, j: nat)
    requires Shape(ws, s) && j < |ws|
  {
    s.closes[j + 1] == 1 && (ws[j].kind.Serial? ==> s.built[j] > 0 && s.ready[j])
  }

  lemma {:induction false} ChannelsInOrder(ws: seq<Worker>, n: nat, s: State, j: nat, i: nat)
    requires Inv(ws, n, s) && j < i <= n && s.closes[i] > 0
    ensures LetsOn(ws, s, j)
    decreases i
  {
    InvAt(ws, n, s, i - 1);
    if j != i - 1 {
      ChannelsInOrder(ws, n, s, j, i - 1);
    }
  }

  lemma InvAt(ws: seq<Worker>, n: nat, s: State, i: nat)
    requires Inv(ws, n, s) && i < |ws|
    ensures Wired(ws, n) && Shape(ws, s) && WorkerOk(ws, s, n, i)
  {
  }

  /** The factory of a component in the chain has run only if every earlier one that is
      not restartable is ready and every earlier restartable one has been released;
      every started channel closes at most once. */
  lemma SerialStartup(ws: seq<Worker>, n: nat, labels: seq<Label>, j: nat, i: nat)
    requires Wired(ws, n) && Run(ws, n, labels).Some? && j < i < n
    ensures
      var s := Run(ws, n, labels).value;
      (s.built[i] > 0 ==> LetsOn(ws, s, j)) && s.closes[i + 1] <= 1
  {
    var s := Run(ws, n, labels).value;
    InvAt(ws, n, s, i);
    if s.built[i] > 0 {
      assert s.closes[i] > 0;
      ChannelsInOrder(ws, n, s, j, i);
    }
  }

  /** The dependency channel of an asynchronous worker is closed by its dependencies
      alone. */
  lemma {:induction false} DependencyClosed(ws: seq<Worker>, n: nat, labels: seq<Label>, i: nat) returns (a: nat)
    requires Wired(ws, n) && Run(ws, n, labels).Some? && n <= i < |ws| && Closed(Run(ws, n, labels).value, ws[i].parent)
    ensures a < |labels| && labels[a] == Depend(i)
  {
    hide Inv;
    var m := |labels| - 1;
    assert labels != [];
    var s := Run(ws, n, labels[..m]).value;
    assert Shape(ws, s) by { InvAt(ws, n, s, i); }
    if Closed(s, ws[i].parent) {
      a := DependencyClosed(ws, n, labels[..m], i);
    } else {
      OnlyDependCloses(ws, n, s, labels[m], i);
      a := m;
    }
  }

  lemma OnlyDependCloses(ws: seq<Worker>, n: nat, s: State, l: Label, i: nat)
    requires Wired(ws, n) && Shape(ws, s) && Enabled(ws, s, l) && n <= i < |ws|
    requires !Closed(s, ws[i].parent) && |Apply(ws, s, l).closes| == |s.closes| && Closed(Apply(ws, s, l), ws[i].parent)
    ensures l == Depend(i)
  {
  }

  /** In every run a component with dependencies is built only after they were ready:
      its worker enters after the step that closed their channel. */
  lemma {:induction false} AsyncStartup(ws: seq<Worker>, n: nat, labels: seq<Label>, i: nat) returns (a: nat, b: nat)
    requires Wired(ws, n) && Run(ws, n, labels).Some? && n <= i < |ws| && Run(ws, n, labels).value.built[i] > 0
    ensures a < b < |labels| && labels[a] == Depend(i) && labels[b] == Enter(i)
  {
    hide Inv;
    var m := |labels| - 1;
    assert labels != [];
    var s := Run(ws, n, labels[..m]).value;
    InvAt(ws, n, s, i);
    if s.built[i] > 0 {
      a, b := AsyncStartup(ws, n, labels[..m], i);
    } else {
      assert labels[m] == Enter(i);
      a := DependencyClosed(ws, n, labels[..m], i);
      b := m;
    }
  }

  /** A worker that ended without releasing the next one. */
  ghost predicate Failed(s: State, j: nat)
    requires j < |s.pcs| && j + 1 < |s.closes|
  {
    (s.pcs[j].Thrown? || s.pcs[j].Gone?) && s.closes[j + 1] == 0
  }

  lemma StepFailed(ws: seq<Worker>, n: nat, s: State, l: Label, j: nat)
    requires Inv(ws, n, s) && Enabled(ws, s, l) && j < n && Failed(s, j)
    ensures Shape(ws, Apply(ws, s, l)) && Failed(Apply(ws, s, l), j)
  {
    ApplyShape(ws, n, s, l);
  }

  lemma {:induction false} FailureLasts(ws: seq<Worker>, n: nat, labels: seq<Label>, more: seq<Label>, j: nat)
    requires Wired(ws, n) && Run(ws, n, labels + more).Some? && j < n
    ensures Run(ws, n, labels).Some?
    ensures Failed(Run(ws, n, labels).value, j) ==> Failed(Run(ws, n, labels + more).value, j)
    decreases |more|
  {
    hide Failed, Enabled, Apply;
    if more == [] {
      assert labels + more == labels;
    } else {
      var m := |more| - 1;
      assert (labels + more)[..|labels + more| - 1] == labels + more[..m];
      FailureLasts(ws, n, labels, more[..m], j);
      var s := Run(ws, n, labels + more[..m]).value;
      if Failed(s, j) {
        StepFailed(ws, n, s, more[m], j);
      }
    }
  }

  /** A component that throws in its factory or is aborted before it is ready fails ... */
  lemma EarlyEndFails(ws: seq<Worker>, n: nat, s: State, l: Label, j: nat)
    requires Inv(ws, n, s) && Enabled(ws, s, l) && j < n
    requires l == Abort(j) || l == GiveUp(j) || (l == Throw(j) && ws[j].kind.Serial?)
    ensures Shape(ws, Apply(ws, s, l)) && Failed(Apply(ws, s, l), j)
  {
    ApplyShape(ws, n, s, l);
    InvAt(ws, n, s, j);
  }

  /** ... and then no later component is ever built. */
  lemma FailureBlocks(ws: seq<Worker>, n: nat, labels: seq<Label>, more: seq<Label>, j: nat, i: nat)
    requires Wired(ws, n) && Run(ws, n, labels + more).Some? && j < i < n
    requires Run(ws, n, labels).Some? && Failed(Run(ws, n, labels).value, j)
    ensures Run(ws, n, labels + more).value.built[i] == 0
  {
    FailureLasts(ws, n, labels, more, j);
    if Run(ws, n, labels + more).value.built[i] > 0 {
      SerialStartup(ws, n, labels + more, j, i);
    }
  }

  /** Startup does not get stuck: while the context lives and no component of the chain
      has failed, some step of the first unreleased worker can happen. */
  lemma {:induction false} NoDeadlock(ws: seq<Worker>, n: nat, s: State, k: nat) returns (l: Label)
    requires Inv(ws, n, s) && k < n && s.closes[k] > 0 && s.closes[k + 1] == 0 && !Failed(s, k)
    ensures Enabled(ws, s, l) && IsStartup(l) && l.i == k
  {
    InvAt(ws, n, s, k);
    match s.pcs[k]
    case AtParent => l := Enter(k);
    case Constructing => l := Construct(k);
    case Awaiting => l := if s.ready[k] then Notice(k) else Signal(k);
    case _ => l := Release(k);
  }

  /** Where no such step is left, the whole chain has been released. */
  lemma {:induction false} StuckMeansStarted(ws: seq<Worker>, n: nat, s: State, k: nat)
    requires Inv(ws, n, s) && k <= n && forall j | 0 <= j < n :: !Failed(s, j)
    requires forall l: Label | IsStartup(l) :: !Enabled(ws, s, l)
    ensures s.closes[k] == 1
  {
    if k > 0 {
      StuckMeansStarted(ws, n, s, k - 1);
      InvAt(ws, n, s, k - 1);
      if s.closes[k] == 0 {
        var l := NoDeadlock(ws, n, s, k - 1);
        assert false;
      }
    }
  }

  predicate IsStartup(l: Label) {
    l.Enter? || l.Construct? || l.Signal? || l.Notice? || l.Release?
  }

  /** The startup steps a worker has ahead of it. */
  function Rank(pc: Pc, ready: bool): nat {
    match pc
    case AtParent => 5
    case Constructing => 4
    case Awaiting => if ready then 2 else 3
    case Passing => 1
    case _ => 0
  }

  function Ranks(pcs: seq<Pc>, ready: seq<bool>): nat
    requires |pcs| == |ready|
  {
    if pcs == [] then 0 else Rank(pcs[0], ready[0]) + Ranks(pcs[1..], ready[1..])
  }

  lemma {:induction false} RanksUpdate(pcs: seq<Pc>, ready: seq<bool>, i: nat, pc: Pc, r: bool)
    requires |pcs| == |ready| && i < |pcs|
    ensures Ranks(pcs[i := pc], ready[i := r]) == Ranks(pcs, ready) - Rank(pcs[i], ready[i]) + Rank(pc, r)
  {
    if i == 0 {
      assert pcs[i := pc][1..] == pcs[1..] && ready[i := r][1..] == ready[1..];
    } else {
      RanksUpdate(pcs[1..], ready[1..], i - 1, pc, r);
      assert pcs[i := pc][1..] == pcs[1..][i - 1 := pc] && ready[i := r][1..] == ready[1..][i - 1 := r];
    }
  }

  lemma StepRanks(ws: seq<Worker>, s: State, l: Label)
    requires Shape(ws, s) && Enabled(ws, s, l)
    ensures
      var t := Apply(ws, s, l);
      |t.pcs| == |t.ready| && Ranks(t.pcs, t.ready) + (if IsStartup(l) then 1 else 0) <= Ranks(s.pcs, s.ready)
  {
    hide Ranks;
    var t := Apply(ws, s, l);
    if !l.Cancel? {
      assert t.pcs == s.pcs[l.i := t.pcs[l.i]] && t.ready == s.ready[l.i := t.ready[l.i]];
      RanksUpdate(s.pcs, s.ready, l.i, t.pcs[l.i], t.ready[l.i]);
    }
  }

  function StartupSteps(labels: seq<Label>): nat {
    if labels == [] then 0 else StartupSteps(labels[..|labels| - 1]) + if IsStartup(labels[|labels| - 1]) then 1 else 0
  }

  /** No run takes more startup steps than the workers have at the beginning. */
  lemma {:induction false} StartupIsBounded(ws: seq<Worker>, n: nat, labels: seq<Label>)
    requires Wired(ws, n) && Run(ws, n, labels).Some?
    ensures
      var s := Run(ws, n, labels).value;
      StartupSteps(labels) + Ranks(s.pcs, s.ready) <= Ranks(Initial(ws).pcs, Initial(ws).ready)
    decreases |labels|
  {
    hide Ranks, Enabled, Apply, IsStartup;
    if labels != [] {
      StartupIsBounded(ws, n, labels[..|labels| - 1]);
      StepRanks(ws, Run(ws, n, labels[..|labels| - 1]).value, labels[|labels| - 1]);
    }
  }

  // ----- what a step does, seen from the run

  ghost predicate Cancels(labels: seq<Label>) {
    exists k | 0 <= k < |labels| :: labels[k].Cancel?
  }

  lemma RunStep(ws: seq<Worker>, n: nat, labels: seq<Label>, l: Label)
    requires Wired(ws, n) && Run(ws, n, labels).Some?
    ensures Run(ws, n, labels + [l]) ==
      if Enabled(ws, Run(ws, n, labels).value, l) then Some(Apply(ws, Run(ws, n, labels).value, l)) else None
  {
    assert (labels + [l])[..|labels|] == labels;
  }

  lemma StepCancels(ws: seq<Worker>, s: State, l: Label)
    requires Shape(ws, s) && Enabled(ws, s, l)
    ensures Apply(ws, s, l).cancelled <==> s.cancelled || l.Cancel?
  {
  }

  lemma {:induction false} CancelledIff(ws: seq<Worker>, n: nat, labels: seq<Label>)
    requires Wired(ws, n) && Run(ws, n, labels).Some?
    ensures Run(ws, n, labels).value.cancelled <==> Cancels(labels)
  {
    hide Apply, Enabled;
    if labels != [] {
      var m := |labels| - 1;
      CancelledIff(ws, n, labels[..m]);
      StepCancels(ws, Run(ws, n, labels[..m]).value, labels[m]);
      assert forall k | 0 <= k < m :: labels[k] == labels[..m][k];
    }
  }

  /** A worker of the chain that waits goes on exactly if the one before has released it:
      into its factory, or, if restartable, to release the next one first.  It aborts
      exactly if it was not released and the context is cancelled. */
  lemma WaitsForParent(ws: seq<Worker>, n: nat, labels: seq<Label>, i: nat)
    requires Wired(ws, n) && Run(ws, n, labels).Some? && i < n && Run(ws, n, labels).value.pcs[i] == AtParent
    ensures
      var s, go, stop := Run(ws, n, labels).value, Run(ws, n, labels + [Enter(i)]), Run(ws, n, labels + [Abort(i)]);
      if s.closes[i] > 0 then
        stop == None
        && go == Some(if ws[i].kind == Restartable then s.(pcs := s.pcs[i := Passing])
                      else s.(pcs := s.pcs[i := Constructing], built := s.built[i := s.built[i] + 1]))
      else go == None && stop == if Cancels(labels) then Some(s.(pcs := s.pcs[i := Gone])) else None
  {
    hide Run;
    RunStep(ws, n, labels, Enter(i));
    RunStep(ws, n, labels, Abort(i));
    CancelledIff(ws, n, labels);
  }

  /** A built component is noticed exactly once it is ready, and given up exactly if it is
      not and the context is cancelled. */
  lemma WaitsForReady(ws: seq<Worker>, n: nat, labels: seq<Label>, i: nat)
    requires Wired(ws, n) && Run(ws, n, labels).Some? && i < |ws| && Run(ws, n, labels).value.pcs[i] == Awaiting
    ensures
      var s, go, stop := Run(ws, n, labels).value, Run(ws, n, labels + [Notice(i)]), Run(ws, n, labels + [GiveUp(i)]);
      if s.ready[i] then stop == None && go == Some(s.(pcs := s.pcs[i := Passing]))
      else go == None && stop == if Cancels(labels) then Some(s.(pcs := s.pcs[i := Gone])) else None
  {
    hide Run;
    RunStep(ws, n, labels, Notice(i));
    RunStep(ws, n, labels, GiveUp(i));
    CancelledIff(ws, n, labels);
  }

  /** A worker of the chain that has passed closes its own channel and no other; only then
      does a restartable one build anything. */
  lemma ReleasesTheNext(ws: seq<Worker>, n: nat, labels: seq<Label>, i: nat)
    requires Wired(ws, n) && Run(ws, n, labels).Some? && i < n && Run(ws, n, labels).value.pcs[i] == Passing
    ensures
      var s := Run(ws, n, labels).value;
      s.closes[i + 1] == 0 && (ws[i].kind == Restartable ==> s.built[i] == 0)
      && Run(ws, n, labels + [Release(i)]) ==
         Some(s.(closes := s.closes[i + 1 := 1], pcs := s.pcs[i := if ws[i].kind == Restartable then Looping else Up]))
  {
    hide Run;
    RunStep(ws, n, labels, Release(i));
    InvAt(ws, n, Run(ws, n, labels).value, i);
  }

  lemma StepOnce(ws: seq<Worker>, n: nat, s: State, l: Label, i: nat)
    requires Inv(ws, n, s) && Enabled(ws, s, l) && i < |ws| && ws[i].kind != Restartable && s.built[i] <= 1
    ensures Shape(ws, Apply(ws, s, l)) && Apply(ws, s, l).built[i] <= 1
    ensures !s.cancelled && s.pcs[i] != Gone ==> Apply(ws, s, l).pcs[i] != Gone
  {
    ApplyShape(ws, n, s, l);
    InvAt(ws, n, s, i);
  }

  /** A restartable component that was released is built as often as it is restarted, until
      it ends or throws; that changes nothing for the others. */
  lemma RebuiltAgain(ws: seq<Worker>, n: nat, labels: seq<Label>, i: nat)
    requires Wired(ws, n) && Run(ws, n, labels).Some? && i < |ws| && Run(ws, n, labels).value.pcs[i] == Looping
    ensures
      var s := Run(ws, n, labels).value;
      ws[i].kind == Restartable
      && Run(ws, n, labels + [Rebuild(i)]) == Some(s.(built := s.built[i := s.built[i] + 1]))
      && Run(ws, n, labels + [Throw(i)]) == Some(s.(pcs := s.pcs[i := Thrown]))
      && Run(ws, n, labels + [Exit(i)]) == Some(s.(pcs := s.pcs[i := Gone]))
  {
    hide Run, Wired, Inv;
    RunStep(ws, n, labels, Rebuild(i));
    RunStep(ws, n, labels, Throw(i));
    RunStep(ws, n, labels, Exit(i));
    LoopingIsRestartable(ws, n, Run(ws, n, labels).value, i);
  }

  lemma LoopingIsRestartable(ws: seq<Worker>, n: nat, s: State, i: nat)
    requires Inv(ws, n, s) && i < |ws|
    ensures Shape(ws, s) && (s.pcs[i] == Looping ==> ws[i].kind == Restartable)
  {
    assert WorkerOk(ws, s, n, i);
  }

  /** The factory of a component that is not restartable is called at most once, and as
      long as the context is not cancelled its worker does not end except by throwing. */
  lemma {:induction false} BuiltOnce(ws: seq<Worker>, n: nat, labels: seq<Label>, i: nat)
    requires Wired(ws, n) && Run(ws, n, labels).Some? && i < |ws| && ws[i].kind != Restartable
    ensures Run(ws, n, labels).value.built[i] <= 1
    ensures !Cancels(labels) ==> Run(ws, n, labels).value.pcs[i] != Gone
  {
    hide Apply, Enabled;
    if labels != [] {
      var m := |labels| - 1;
      BuiltOnce(ws, n, labels[..m], i);
      CancelledIff(ws, n, labels[..m]);
      StepOnce(ws, n, Run(ws, n, labels[..m]).value, labels[m], i);
      assert forall k | 0 <= k < m :: labels[k] == labels[..m][k];
    }
  }
}
