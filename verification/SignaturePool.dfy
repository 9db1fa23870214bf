/** The worker pool of TransactionVerifier.verifySignatures as a state machine: two
    FIFO channels, workers with program counters, a cancel flag, a wait group and
    the collecting caller.  One label is one step of one goroutine; every
    interleaving of enabled labels is a run. */
module SignaturePool {
  import opened Bytes

  /** `errs` is what verify() returns for each signature, None when it is valid. */
  datatype Config<E> = Config(errs: seq<Option<E>>, concurrency: nat) {
    function Workers(): nat {
      if concurrency < |errs| then concurrency else |errs|
    }
  }

  datatype Worker =
    | Waiting           // at the head of the loop over toVerifyChan
    | Holding(i: nat)   // has received entry i
    | Checked(i: nat)   // has called verify on it
    | Sent(i: nat)      // has passed it on
    | Leaving           // is about to run the deferred wg.Done
    | Exited

  datatype Caller<E> =
    | Feeding(k: nat)
    | Collecting
    | Joining
    | Scanning(k: nat)
    | Returned(result: Option<E>)
    | NotInvoked        // the "verify not called" error
    | Panicked          // the final panic

  /** A FIFO channel: everything sent so far, and how much of it was received. */
  datatype Channel = Channel(log: seq<nat>, taken: nat) {
    predicate Ok() { taken <= |log| }

    function Length(): int { |log| - taken }

    function Head(): nat
      requires taken < |log|
    {
      log[taken]
    }

    function Put(i: nat): Channel { Channel(log + [i], taken) }

    function Drop(): Channel { Channel(log, taken + 1) }
  }

  datatype State<E> = State(
    toVerify: Channel, closed: bool,
    verified: Channel,
    workers: seq<Worker>, wg: nat, cancelled: bool,
    invoked: seq<bool>, results: seq<Option<E>>, // the entries' invokedVerify and verifyErr
    caller: Caller<E>)

  datatype Label =
    | Feed | Close | Collect | Join | Scan
    | Receive(w: nat) | ReceiveClosed(w: nat) | Verify(w: nat) | Send(w: nat) | AfterSend(w: nat) | Exit(w: nat)

  function Init<E>(c: Config<E>): State<E> {
    var n := |c.errs|;
    State(Channel([], 0), false, Channel([], 0), seq(c.Workers(), _ => Waiting), c.Workers(), false,
          seq(n, _ => false), seq(n, _ => None), Feeding(0))
  }

  /** Sends block on a full channel, receives on an empty one that is open, and
      wg.Wait until the count is zero. */
  predicate Enabled<E>(c: Config<E>, s: State<E>, l: Label) {
    var n := |c.errs|;
    match l
    case Feed => s.caller.Feeding? && s.caller.k < n && s.toVerify.Length() < n
    case Close => s.caller.Feeding? && s.caller.k == n
    case Collect => s.caller.Collecting? && (s.verified.taken == n || s.verified.Length() > 0)
    case Join => s.caller.Joining? && s.wg == 0
    case Scan => s.caller.Scanning?
    case Receive(w) => w < |s.workers| && s.workers[w].Waiting? && s.toVerify.Length() > 0
    case ReceiveClosed(w) => w < |s.workers| && s.workers[w].Waiting? && s.toVerify.Length() <= 0 && s.closed
    case Verify(w) => w < |s.workers| && s.workers[w].Holding?
    case Send(w) => w < |s.workers| && s.workers[w].Checked? && s.verified.Length() < n
    case AfterSend(w) => w < |s.workers| && s.workers[w].Sent?
    case Exit(w) => w < |s.workers| && s.workers[w].Leaving? && s.wg > 0
  }

  function Become<E>(s: State<E>, w: nat, pc: Worker): State<E>
    requires w < |s.workers|
  {
    s.(workers := s.workers[w := pc])
  }

  ghost predicate InRange<E>(c: Config<E>, s: State<E>) {
    var n := |c.errs|;
    |s.invoked| == n && |s.results| == n
    && s.toVerify.Ok() && s.verified.Ok()
    && (forall j | 0 <= j < |s.verified.log| :: s.verified.log[j] < n)
    && (forall j | 0 <= j < |s.toVerify.log| :: s.toVerify.log[j] < n)
    && (forall w | 0 <= w < |s.workers| :: s.workers[w].Holding? || s.workers[w].Checked? || s.workers[w].Sent? ==> s.workers[w].i < n)
    && (s.caller.Scanning? ==> s.caller.k <= n)
  }

  function Apply<E>(c: Config<E>, s: State<E>, l: Label): State<E>
    requires InRange(c, s) && Enabled(c, s, l)
  {
    match l
    case Feed => s.(toVerify := s.toVerify.Put(s.caller.k), caller := Feeding(s.caller.k + 1))
    case Close => s.(closed := true, caller := Collecting)
    case Collect =>
      if s.verified.taken == |c.errs| then s.(caller := Returned(None), cancelled := true)
      else
        var i := s.verified.Head();
        var t := s.(verified := s.verified.Drop());
        if !s.invoked[i] then t.(caller := NotInvoked)
        else if s.results[i].Some? then t.(caller := Joining)
        else t
    case Join => s.(caller := Scanning(0))
    case Scan =>
      if s.caller.k == |c.errs| then s.(caller := Panicked)
      else if s.results[s.caller.k].Some? then s.(caller := Returned(s.results[s.caller.k]), cancelled := true)
      else s.(caller := Scanning(s.caller.k + 1))
    case Receive(w) => Become(s.(toVerify := s.toVerify.Drop()), w, Holding(s.toVerify.Head()))
    case ReceiveClosed(w) => Become(s, w, Leaving)
    case Verify(w) =>
      var i := s.workers[w].i;
      Become(s.(invoked := s.invoked[i := true], results := s.results[i := c.errs[i]]), w, Checked(i))
    case Send(w) => Become(s.(verified := s.verified.Put(s.workers[w].i)), w, Sent(s.workers[w].i))
    case AfterSend(w) =>
      if c.errs[s.workers[w].i].Some? then Become(s.(cancelled := true), w, Leaving)
      else if s.cancelled then Become(s, w, Leaving)
      else Become(s, w, Waiting)
    case Exit(w) => Become(s.(wg := s.wg - 1), w, Exited)
  }

  /** What a loop over the signatures in order would return. */
  function FirstError<E>(errs: seq<Option<E>>): Option<E> {
    if errs == [] then None else if errs[0].Some? then errs[0] else FirstError(errs[1..])
  }

  lemma {:induction false} FirstErrorAt<E>(errs: seq<Option<E>>, k: nat)
    requires k < |errs| && errs[k].Some? && forall j | 0 <= j < k :: errs[j].None?
    ensures FirstError(errs) == errs[k]
  {
    if k != 0 {
      FirstErrorAt(errs[1..], k - 1);
    }
  }

  lemma {:induction false} NoFirstError<E>(errs: seq<Option<E>>)
    requires forall j | 0 <= j < |errs| :: errs[j].None?
    ensures FirstError(errs) == None
  {
    if errs != [] {
      NoFirstError(errs[1..]);
    }
  }

  // ----- invariant

  ghost predicate NoDuplicates(q: seq<nat>) {
    forall i, j | 0 <= i < j < |q| :: q[i] != q[j]
  }

  ghost predicate Busy(pc: Worker) {
    pc.Holding? || pc.Checked?
  }

  /** An entry that was taken is with a worker or has been passed on. */
  ghost predicate Located<E>(s: State<E>, i: nat) {
    i in s.verified.log || exists w :: 0 <= w < |s.workers| && Busy(s.workers[w]) && s.workers[w].i == i
  }

  ghost predicate ErrorSent<E>(c: Config<E>, s: State<E>) {
    exists i :: i in s.verified.log && i < |c.errs| && c.errs[i].Some?
  }

  ghost predicate Returning<E>(s: State<E>) {
    s.caller.Returned?
  }

  /** The caller feeds the entries in order, so those taken are a prefix of the
      signatures; each is passed on at most once, and only after it was verified. */
  ghost predicate Channels<E>(c: Config<E>, s: State<E>)
    requires InRange(c, s)
  {
    |s.toVerify.log| == (if s.caller.Feeding? then s.caller.k else |c.errs|)
    && |s.toVerify.log| <= |c.errs| && s.closed == !s.caller.Feeding?
    && (forall j | 0 <= j < |s.toVerify.log| :: s.toVerify.log[j] == j)
    && NoDuplicates(s.verified.log)
    && (forall j | 0 <= j < |s.verified.log| :: s.verified.log[j] < s.toVerify.taken && s.invoked[s.verified.log[j]])
  }

  ghost predicate WorkerOk<E>(c: Config<E>, s: State<E>, w: nat)
    requires w < |s.workers| && InRange(c, s)
  {
    match s.workers[w]
    case Waiting => true
    case Holding(i) => i < s.toVerify.taken && i !in s.verified.log
    case Checked(i) => i < s.toVerify.taken && i !in s.verified.log && s.invoked[i]
    case Sent(i) => i in s.verified.log
    case _ => (s.closed && s.toVerify.Length() == 0) || ErrorSent(c, s) || Returning(s)
  }

  ghost predicate Entries<E>(c: Config<E>, s: State<E>)
    requires InRange(c, s)
  {
    (forall i | 0 <= i < |c.errs| :: s.results[i] == if s.invoked[i] then c.errs[i] else None)
    && (forall i | 0 <= i < s.toVerify.taken :: Located(s, i))
    && (forall v, w | 0 <= v < w < |s.workers| && Busy(s.workers[v]) && Busy(s.workers[w]) :: s.workers[v].i != s.workers[w].i)
  }

  function Running(ws: seq<Worker>): nat {
    if ws == [] then 0 else (if ws[0].Exited? then 0 else 1) + Running(ws[1..])
  }

  ghost predicate CallerOk<E>(c: Config<E>, s: State<E>)
    requires InRange(c, s)
  {
    match s.caller
    case Feeding(_) => s.verified.taken == 0
    case Collecting => forall j | 0 <= j < s.verified.taken :: c.errs[s.verified.log[j]].None?
    case Joining => ErrorSent(c, s)
    case Scanning(k) => ErrorSent(c, s) && Running(s.workers) == 0 && forall j | 0 <= j < k :: s.results[j].None?
    case Returned(r) => r == FirstError(c.errs)
    case NotInvoked => false
    case Panicked => false
  }

  ghost predicate Inv<E>(c: Config<E>, s: State<E>) {
    InRange(c, s) && Channels(c, s) && Entries(c, s) && CallerOk(c, s)
    && |s.workers| == c.Workers() && s.wg == Running(s.workers)
    && (forall w | 0 <= w < |s.workers| :: WorkerOk(c, s, w))
    && (s.cancelled ==> ErrorSent(c, s) || Returning(s))
  }

  // ----- counting

  lemma {:induction false} RunningUpdate(ws: seq<Worker>, w: nat, pc: Worker)
    requires w < |ws|
    ensures Running(ws[w := pc]) == Running(ws) - (if ws[w].Exited? then 0 else 1) + (if pc.Exited? then 0 else 1)
  {
    if w == 0 {
      assert ws[w := pc][1..] == ws[1..];
    } else {
      RunningUpdate(ws[1..], w - 1, pc);
      assert ws[w := pc][1..] == ws[1..][w - 1 := pc];
    }
  }

  lemma {:induction false} RunningZero(ws: seq<Worker>, w: nat)
    requires w < |ws| && Running(ws) == 0
    ensures ws[w].Exited?
  {
    if w != 0 {
      RunningZero(ws[1..], w - 1);
    }
  }

  lemma {:induction false} RunningPositive(ws: seq<Worker>) returns (w: nat)
    requires Running(ws) > 0
    ensures w < |ws| && !ws[w].Exited?
  {
    if !ws[0].Exited? {
      w := 0;
    } else {
      var v := RunningPositive(ws[1..]);
      w := v + 1;
    }
  }

  ghost function Below(n: nat): (b: set<nat>)
    ensures |b| == n && forall i: nat :: i in b <==> i < n
  {
    if n == 0 then {} else Below(n - 1) + {n - 1}
  }

  ghost function Elements(q: seq<nat>): set<nat> {
    set i | i in q
  }

  lemma {:induction false} DistinctSize(q: seq<nat>)
    requires NoDuplicates(q)
    ensures |Elements(q)| == |q|
  {
    if q != [] {
      var last := q[|q| - 1];
      var front := q[..|q| - 1];
      DistinctSize(front);
      assert Elements(q) == Elements(front) + {last};
    }
  }

  lemma SubsetSize(a: set<nat>, b: set<nat>)
    requires a <= b
    ensures |a| <= |b|
    ensures |a| == |b| ==> a == b
  {
    assert b == a + (b - a);
  }

  /** Distinct entries below n: at most n of them, and all when there are n. */
  lemma Pigeonhole(q: seq<nat>, n: nat)
    requires NoDuplicates(q) && forall i | i in q :: i < n
    ensures |q| <= n
    ensures |q| == n ==> forall i | 0 <= i < n :: i in q
    ensures (exists i :: 0 <= i < n && i !in q) ==> |q| < n
  {
    DistinctSize(q);
    assert Elements(q) <= Below(n);
    SubsetSize(Elements(q), Below(n));
    if |q| == n {
      forall i | 0 <= i < n ensures i in q {
        assert i in Below(n);
      }
    }
  }

  // ----- every step keeps the invariant

  lemma InitInv<E>(c: Config<E>)
    ensures Inv(c, Init(c))
  {
    AllRunning(Init(c).workers);
  }

  lemma {:induction false} AllRunning(ws: seq<Worker>)
    requires forall w | 0 <= w < |ws| :: ws[w].Waiting?
    ensures Running(ws) == |ws|
  {
    if ws != [] {
      AllRunning(ws[1..]);
    }
  }

  /** A step of the caller leaves the workers and the entries as they are. */
  lemma CallerStepInv<E>(c: Config<E>, s: State<E>, t: State<E>)
    requires Inv(c, s) && InRange(c, t) && Channels(c, t) && CallerOk(c, t)
    requires t.workers == s.workers && t.wg == s.wg && t.invoked == s.invoked && t.results == s.results
    requires t.verified.log == s.verified.log && t.toVerify.taken == s.toVerify.taken
    requires s.closed ==> t.closed && t.toVerify == s.toVerify
    requires t.cancelled ==> s.cancelled || Returning(t)
    requires Returning(s) ==> Returning(t)
    ensures Inv(c, t)
  {
    forall i | 0 <= i < t.toVerify.taken ensures Located(t, i) {
      assert Located(s, i);
    }
    forall v | 0 <= v < |t.workers| ensures WorkerOk(c, t, v) {
      assert WorkerOk(c, s, v);
    }
  }

  lemma FeedInv<E>(c: Config<E>, s: State<E>)
    requires Inv(c, s) && Enabled(c, s, Feed)
    ensures Inv(c, Apply(c, s, Feed))
  {
    CallerStepInv(c, s, Apply(c, s, Feed));
  }

  lemma CloseInv<E>(c: Config<E>, s: State<E>)
    requires Inv(c, s) && Enabled(c, s, Close)
    ensures Inv(c, Apply(c, s, Close))
  {
    CallerStepInv(c, s, Apply(c, s, Close));
  }

  /** When the caller has as many entries as there are signatures, all are valid. */
  lemma AllCollected<E>(c: Config<E>, s: State<E>)
    requires Inv(c, s) && s.caller.Collecting? && s.verified.taken == |c.errs|
    ensures FirstError(c.errs) == None
  {
    Pigeonhole(s.verified.log, |c.errs|);
    forall i | 0 <= i < |c.errs| ensures c.errs[i].None? {
      assert i in s.verified.log;
      var j :| 0 <= j < |s.verified.log| && s.verified.log[j] == i;
      assert j < s.verified.taken;
    }
    NoFirstError(c.errs);
  }

  lemma CollectInv<E>(c: Config<E>, s: State<E>)
    requires Inv(c, s) && Enabled(c, s, Collect)
    ensures Inv(c, Apply(c, s, Collect))
  {
    hide WorkerOk, Entries, Channels, CallerOk;
    CollectCaller(c, s);
    CallerStepInv(c, s, Apply(c, s, Collect));
  }

  lemma CollectCaller<E>(c: Config<E>, s: State<E>)
    requires Inv(c, s) && Enabled(c, s, Collect)
    ensures var t := Apply(c, s, Collect); InRange(c, t) && Channels(c, t) && CallerOk(c, t)
  {
    hide WorkerOk, NoDuplicates;
    var t := Apply(c, s, Collect);
    if s.verified.taken == |c.errs| {
      AllCollected(c, s);
    } else {
      assert s.verified.Head() in t.verified.log;
    }
  }

  lemma JoinInv<E>(c: Config<E>, s: State<E>)
    requires Inv(c, s) && Enabled(c, s, Join)
    ensures Inv(c, Apply(c, s, Join))
  {
    var t := Apply(c, s, Join);
    assert ErrorSent(c, t);
    CallerStepInv(c, s, t);
  }

  /** When all workers are done, whatever was taken has been verified. */
  lemma AllTakenInvoked<E>(c: Config<E>, s: State<E>, i: nat)
    requires Inv(c, s) && Running(s.workers) == 0 && i < s.toVerify.taken
    ensures i in s.verified.log && s.results[i] == c.errs[i]
  {
    assert Located(s, i);
    if i !in s.verified.log {
      var w :| 0 <= w < |s.workers| && Busy(s.workers[w]) && s.workers[w].i == i;
      RunningZero(s.workers, w);
    }
  }

  /** So the scan stops at the lowest invalid signature, and does stop. */
  lemma ScanFinds<E>(c: Config<E>, s: State<E>)
    requires Inv(c, s) && s.caller.Scanning?
    ensures s.caller.k < |c.errs|
    ensures s.results[s.caller.k].Some? ==> s.results[s.caller.k] == FirstError(c.errs)
  {
    var k := s.caller.k;
    var e :| e in s.verified.log && e < |c.errs| && c.errs[e].Some?;
    forall j | 0 <= j <= e ensures s.results[j] == c.errs[j] {
      AllTakenInvoked(c, s, j);
    }
    if s.results[k].Some? {
      FirstErrorAt(c.errs, k);
    }
  }

  lemma ScanInv<E>(c: Config<E>, s: State<E>)
    requires Inv(c, s) && Enabled(c, s, Scan)
    ensures Inv(c, Apply(c, s, Scan))
  {
    ScanFinds(c, s);
    var t := Apply(c, s, Scan);
    assert ErrorSent(c, s) ==> ErrorSent(c, t);
    CallerStepInv(c, s, t);
  }

  lemma LocatedKept<E>(s: State<E>, t: State<E>, w: nat, i: nat)
    requires Located(s, i) && w < |s.workers| == |t.workers| && t.workers == s.workers[w := t.workers[w]]
    requires t.verified.log == s.verified.log
    requires Busy(s.workers[w]) ==> Busy(t.workers[w]) && t.workers[w].i == s.workers[w].i
    ensures Located(t, i)
  {
    if i !in s.verified.log {
      var v :| 0 <= v < |s.workers| && Busy(s.workers[v]) && s.workers[v].i == i;
      assert Busy(t.workers[v]) && t.workers[v].i == i;
    }
  }

  /** A worker that exits or goes on without an entry in hand. */
  lemma QuietStepInv<E>(c: Config<E>, s: State<E>, t: State<E>, w: nat)
    requires Inv(c, s) && w < |s.workers| && !s.workers[w].Exited?
    requires t == s.(workers := t.workers, wg := t.wg, cancelled := t.cancelled) && |t.workers| == |s.workers| && t.workers == s.workers[w := t.workers[w]]
    requires !Busy(s.workers[w]) && !Busy(t.workers[w]) && InRange(c, t) && WorkerOk(c, t, w)
    requires t.wg == s.wg - (if t.workers[w].Exited? then 1 else 0)
    requires t.cancelled ==> s.cancelled || ErrorSent(c, s)
    ensures Inv(c, t)
  {
    RunningUpdate(s.workers, w, t.workers[w]);
    if s.caller.Scanning? {
      RunningZero(s.workers, w);
    }
    forall i | 0 <= i < t.toVerify.taken ensures Located(t, i) {
      LocatedKept(s, t, w, i);
    }
    forall v | 0 <= v < |t.workers| ensures WorkerOk(c, t, v) {
      assert WorkerOk(c, s, v);
    }
  }

  lemma ReceiveClosedInv<E>(c: Config<E>, s: State<E>, w: nat)
    requires Inv(c, s) && Enabled(c, s, ReceiveClosed(w))
    ensures Inv(c, Apply(c, s, ReceiveClosed(w)))
  {
    QuietStepInv(c, s, Apply(c, s, ReceiveClosed(w)), w);
  }

  lemma AfterSendInv<E>(c: Config<E>, s: State<E>, w: nat)
    requires Inv(c, s) && Enabled(c, s, AfterSend(w))
    ensures Inv(c, Apply(c, s, AfterSend(w)))
  {
    assert WorkerOk(c, s, w);
    var t := Apply(c, s, AfterSend(w));
    assert ErrorSent(c, s) ==> ErrorSent(c, t);
    QuietStepInv(c, s, t, w);
  }

  lemma ExitInv<E>(c: Config<E>, s: State<E>, w: nat)
    requires Inv(c, s) && Enabled(c, s, Exit(w))
    ensures Inv(c, Apply(c, s, Exit(w)))
  {
    assert WorkerOk(c, s, w);
    var t := Apply(c, s, Exit(w));
    assert ErrorSent(c, s) ==> ErrorSent(c, t);
    QuietStepInv(c, s, t, w);
  }

  lemma VerifyChannels<E>(c: Config<E>, s: State<E>, w: nat)
    requires Inv(c, s) && Enabled(c, s, Verify(w))
    ensures var t := Apply(c, s, Verify(w)); InRange(c, t) && Channels(c, t)
  {
  }

  lemma VerifyInv<E>(c: Config<E>, s: State<E>, w: nat)
    requires Inv(c, s) && Enabled(c, s, Verify(w))
    ensures Inv(c, Apply(c, s, Verify(w)))
  {
    hide Channels, NoDuplicates, Entries, WorkerOk, ErrorSent;
    VerifyChannels(c, s, w);
    VerifyEntries(c, s, w);
    VerifyWorkers(c, s, w);
    var t := Apply(c, s, Verify(w));
    RunningUpdate(s.workers, w, t.workers[w]);
    if s.caller.Scanning? {
      RunningZero(s.workers, w);
    }
    VerifySends(c, s, w);
  }

  lemma VerifySends<E>(c: Config<E>, s: State<E>, w: nat)
    requires InRange(c, s) && Enabled(c, s, Verify(w))
    ensures ErrorSent(c, s) <==> ErrorSent(c, Apply(c, s, Verify(w)))
  {
  }

  lemma VerifyEntries<E>(c: Config<E>, s: State<E>, w: nat)
    requires Inv(c, s) && Enabled(c, s, Verify(w))
    ensures var t := Apply(c, s, Verify(w)); InRange(c, t) && Entries(c, t)
  {
    hide Channels, NoDuplicates, CallerOk, Located, ErrorSent;
    var t := Apply(c, s, Verify(w));
    forall i | 0 <= i < t.toVerify.taken ensures Located(t, i) {
      LocatedKept(s, t, w, i);
    }
  }

  lemma VerifyWorkers<E>(c: Config<E>, s: State<E>, w: nat)
    requires Inv(c, s) && Enabled(c, s, Verify(w))
    ensures var t := Apply(c, s, Verify(w)); InRange(c, t) && forall v | 0 <= v < |t.workers| :: WorkerOk(c, t, v)
  {
    hide Channels, NoDuplicates, Entries, CallerOk, ErrorSent;
    VerifySends(c, s, w);
    var t := Apply(c, s, Verify(w));
    assert WorkerOk(c, s, w);
    forall v | 0 <= v < |t.workers| ensures WorkerOk(c, t, v) {
      assert WorkerOk(c, s, v);
    }
  }

  /** The entry taken is the next one in order. */
  lemma ReceiveChannels<E>(c: Config<E>, s: State<E>, w: nat)
    requires Inv(c, s) && Enabled(c, s, Receive(w))
    ensures var t := Apply(c, s, Receive(w)); InRange(c, t) && Channels(c, t)
    ensures s.toVerify.Head() == s.toVerify.taken && s.toVerify.Head() !in s.verified.log
  {
  }

  lemma ReceiveInv<E>(c: Config<E>, s: State<E>, w: nat)
    requires Inv(c, s) && Enabled(c, s, Receive(w))
    ensures Inv(c, Apply(c, s, Receive(w)))
  {
    ReceiveChannels(c, s, w);
    hide Channels, NoDuplicates;
    var t := Apply(c, s, Receive(w));
    var e := s.toVerify.taken;
    RunningUpdate(s.workers, w, t.workers[w]);
    if s.caller.Scanning? {
      RunningZero(s.workers, w);
    }
    forall i | 0 <= i < t.toVerify.taken ensures Located(t, i) {
      if i == e {
        assert Busy(t.workers[w]) && t.workers[w].i == i;
      } else {
        LocatedKept(s, t, w, i);
      }
    }
    forall v | 0 <= v < |t.workers| ensures WorkerOk(c, t, v) {
      assert WorkerOk(c, s, v);
    }
    forall v | 0 <= v < |s.workers| && Busy(s.workers[v]) ensures s.workers[v].i < e {
      assert WorkerOk(c, s, v);
    }
  }

  /** The entry passed on is new, so there is one more distinct one. */
  lemma SendChannels<E>(c: Config<E>, s: State<E>, w: nat)
    requires Inv(c, s) && Enabled(c, s, Send(w))
    ensures var t := Apply(c, s, Send(w)); InRange(c, t) && Channels(c, t)
  {
    assert WorkerOk(c, s, w);
  }

  lemma SendInv<E>(c: Config<E>, s: State<E>, w: nat)
    requires Inv(c, s) && Enabled(c, s, Send(w))
    ensures Inv(c, Apply(c, s, Send(w)))
  {
    hide Channels, NoDuplicates, WorkerOk;
    SendChannels(c, s, w);
    var t := Apply(c, s, Send(w));
    var e := s.workers[w].i;
    RunningUpdate(s.workers, w, t.workers[w]);
    if s.caller.Scanning? {
      RunningZero(s.workers, w);
    }
    assert forall i :: i in t.verified.log <==> i in s.verified.log || i == e;
    forall i | 0 <= i < t.toVerify.taken ensures Located(t, i) {
      assert Located(s, i);
      if i !in s.verified.log && i != e {
        var v :| 0 <= v < |s.workers| && Busy(s.workers[v]) && s.workers[v].i == i;
        assert Busy(t.workers[v]) && t.workers[v].i == i;
      }
    }
    forall v | 0 <= v < |t.workers| ensures WorkerOk(c, t, v) {
      SendWorker(c, s, w, v);
    }
  }

  lemma SendWorker<E>(c: Config<E>, s: State<E>, w: nat, v: nat)
    requires Inv(c, s) && Enabled(c, s, Send(w)) && v < |s.workers|
    ensures var t := Apply(c, s, Send(w)); v < |t.workers| && InRange(c, t) && WorkerOk(c, t, v)
  {
    hide Channels, NoDuplicates, CallerOk;
    SendChannels(c, s, w);
    assert WorkerOk(c, s, v) && WorkerOk(c, s, w);
  }

  lemma StepInv<E>(c: Config<E>, s: State<E>, l: Label)
    requires Inv(c, s) && Enabled(c, s, l)
    ensures Inv(c, Apply(c, s, l))
  {
    match l
    case Feed => FeedInv(c, s);
    case Close => CloseInv(c, s);
    case Collect => CollectInv(c, s);
    case Join => JoinInv(c, s);
    case Scan => ScanInv(c, s);
    case Receive(w) => ReceiveInv(c, s, w);
    case Send(w) => SendInv(c, s, w);
    case ReceiveClosed(w) => ReceiveClosedInv(c, s, w);
    case Verify(w) => VerifyInv(c, s, w);
    case AfterSend(w) => AfterSendInv(c, s, w);
    case Exit(w) => ExitInv(c, s, w);
  }

  // ----- no step blocks for ever

  /** A worker that has verified an entry finds room to pass it on. */
  lemma SendNeverBlocks<E>(c: Config<E>, s: State<E>, w: nat)
    requires Inv(c, s) && w < |s.workers| && s.workers[w].Checked?
    ensures Enabled(c, s, Send(w))
  {
    assert WorkerOk(c, s, w);
    Pigeonhole(s.verified.log, |c.errs|);
  }

  /** A worker that has not exited has a step to take, unless the channel it waits on
      is empty and still open. */
  lemma WorkerMoves<E>(c: Config<E>, s: State<E>, w: nat) returns (l: Label)
    requires Inv(c, s) && w < |s.workers| && !s.workers[w].Exited? && s.closed
    ensures Enabled(c, s, l)
  {
    match s.workers[w]
    case Waiting => l := if s.toVerify.Length() > 0 then Receive(w) else ReceiveClosed(w);
    case Holding(_) => l := Verify(w);
    case Checked(_) => SendNeverBlocks(c, s, w); l := Send(w);
    case Sent(_) => l := AfterSend(w);
    case Leaving =>
      l := Exit(w);
      if Running(s.workers) == 0 {
        RunningZero(s.workers, w);
      }
  }

  /** Once every worker has exited, there is an entry for the caller to collect. */
  lemma CallerNotStarved<E>(c: Config<E>, s: State<E>)
    requires Inv(c, s) && s.caller.Collecting? && Running(s.workers) == 0
    requires |c.errs| == 0 || c.concurrency > 0
    ensures Enabled(c, s, Collect)
  {
    Pigeonhole(s.verified.log, |c.errs|);
    if |c.errs| != 0 && s.verified.Length() == 0 {
      RunningZero(s.workers, 0);
      assert WorkerOk(c, s, 0);
      forall e | e in s.verified.log ensures e < |c.errs| && c.errs[e].None? {
        var j :| 0 <= j < |s.verified.log| && s.verified.log[j] == e;
      }
      forall i | 0 <= i < |c.errs| ensures i in s.verified.log {
        AllTakenInvoked(c, s, i);
      }
      DistinctSize(s.verified.log);
      assert Below(|c.errs|) <= Elements(s.verified.log);
      SubsetSize(Below(|c.errs|), Elements(s.verified.log));
    }
  }

  /** Until the caller returns, some goroutine has a step to take. */
  lemma Progress<E>(c: Config<E>, s: State<E>) returns (l: Label)
    requires Inv(c, s) && !s.caller.Returned?
    requires |c.errs| == 0 || c.concurrency > 0
    ensures Enabled(c, s, l)
  {
    match s.caller
    case Feeding(k) => l := if k < |c.errs| then Feed else Close;
    case Scanning(_) => l := Scan;
    case _ =>
      if Running(s.workers) > 0 {
        var w := RunningPositive(s.workers);
        l := WorkerMoves(c, s, w);
      } else if s.caller.Collecting? {
        CallerNotStarved(c, s);
        l := Collect;
      } else {
        l := Join;
      }
  }

  // ----- every run is finite

  function WorkerRank(pc: Worker): nat {
    match pc
    case Waiting => 2
    case Holding(_) => 7
    case Checked(_) => 6
    case Sent(_) => 5
    case Leaving => 1
    case Exited => 0
  }

  function WorkersRank(ws: seq<Worker>): nat {
    if ws == [] then 0 else WorkerRank(ws[0]) + WorkersRank(ws[1..])
  }

  lemma {:induction false} RankUpdate(ws: seq<Worker>, w: nat, pc: Worker)
    requires w < |ws|
    ensures WorkersRank(ws[w := pc]) == WorkersRank(ws) - WorkerRank(ws[w]) + WorkerRank(pc)
  {
    if w == 0 {
      assert ws[w := pc][1..] == ws[1..];
    } else {
      RankUpdate(ws[1..], w - 1, pc);
      assert ws[w := pc][1..] == ws[1..][w - 1 := pc];
    }
  }

  function CallerRank<E>(c: Config<E>, s: State<E>): int {
    var n := |c.errs|;
    match s.caller
    case Feeding(k) => 3 * n + 5 - k
    case Collecting => 2 * n + 4 - s.verified.taken
    case Joining => n + 3
    case Scanning(k) => n + 1 - k
    case _ => 0
  }

  /** Steps left, at most: six for every entry not yet taken, and what the workers
      and the caller still have before them. */
  function Measure<E>(c: Config<E>, s: State<E>): int {
    6 * (|c.errs| - s.toVerify.taken) + WorkersRank(s.workers) + CallerRank(c, s)
  }

  lemma MeasureNonNegative<E>(c: Config<E>, s: State<E>)
    requires Inv(c, s)
    ensures Measure(c, s) >= 0
  {
    Pigeonhole(s.verified.log, |c.errs|);
  }

  ghost predicate OfCaller(l: Label) {
    l.Feed? || l.Close? || l.Collect? || l.Join? || l.Scan?
  }

  lemma CallerMeasureDecreases<E>(c: Config<E>, s: State<E>, l: Label)
    requires Inv(c, s) && Enabled(c, s, l) && OfCaller(l)
    ensures Measure(c, Apply(c, s, l)) < Measure(c, s)
  {
    Pigeonhole(s.verified.log, |c.errs|);
    hide Channels, Entries, WorkerOk, NoDuplicates, CallerOk;
  }

  lemma CallerRankKept<E>(c: Config<E>, s: State<E>, l: Label)
    requires InRange(c, s) && Enabled(c, s, l) && !OfCaller(l)
    ensures CallerRank(c, Apply(c, s, l)) == CallerRank(c, s)
  {
  }

  lemma WorkerMeasureDecreases<E>(c: Config<E>, s: State<E>, l: Label)
    requires InRange(c, s) && Enabled(c, s, l) && !OfCaller(l)
    ensures Measure(c, Apply(c, s, l)) < Measure(c, s)
  {
    hide WorkersRank, InRange, CallerRank;
    CallerRankKept(c, s, l);
    RankUpdate(s.workers, l.w, Apply(c, s, l).workers[l.w]);
  }

  lemma MeasureDecreases<E>(c: Config<E>, s: State<E>, l: Label)
    requires Inv(c, s) && Enabled(c, s, l)
    ensures Measure(c, Apply(c, s, l)) < Measure(c, s)
  {
    hide Measure, Apply, Enabled;
    if OfCaller(l) {
      CallerMeasureDecreases(c, s, l);
    } else {
      WorkerMeasureDecreases(c, s, l);
    }
  }

  // ----- runs

  /** The state after a sequence of labels, each enabled when its turn comes. */
  ghost function Run<E>(c: Config<E>, labels: seq<Label>): (r: Option<State<E>>)
    ensures r.Some? ==> Inv(c, r.value)
  {
    InitInv(c);
    if labels == [] then Some(Init(c)) else
    var s :- Run(c, labels[..|labels| - 1]);
    var l := labels[|labels| - 1];
    if Enabled(c, s, l) then StepInv(c, s, l); Some(Apply(c, s, l)) else None
  }

  lemma {:induction false} RunIsBounded<E>(c: Config<E>, labels: seq<Label>)
    ensures Run(c, labels).Some? ==> |labels| + Measure(c, Run(c, labels).value) <= Measure(c, Init(c))
  {
    hide Enabled, Apply, Inv, Measure;
    if labels != [] && Run(c, labels).Some? {
      var before := labels[..|labels| - 1];
      RunIsBounded(c, before);
      MeasureDecreases(c, Run(c, before).value, labels[|labels| - 1]);
    }
  }

  /** The main result.  In every interleaving: if verifySignatures returns, it returns
      what a sequential scan returns, neither the internal error nor the panic is
      reached, the run has a bounded number of steps, and if there is a worker or
      nothing to verify it cannot stop before the caller has returned. */
  lemma RunsAgreeWithSequentialScan<E>(c: Config<E>, labels: seq<Label>)
    ensures Run(c, labels).Some? ==>
      var s := Run(c, labels).value;
      !s.caller.Panicked? && !s.caller.NotInvoked?
      && (s.caller.Returned? ==> s.caller.result == FirstError(c.errs))
      && |labels| <= Measure(c, Init(c))
      && (|c.errs| == 0 || c.concurrency > 0 ==> s.caller.Returned? || exists l :: Enabled(c, s, l))
  {
    if Run(c, labels).Some? {
      var s := Run(c, labels).value;
      RunIsBounded(c, labels);
      MeasureNonNegative(c, s);
      if !s.caller.Returned? && (|c.errs| == 0 || c.concurrency > 0) {
        var l := Progress(c, s);
      }
    }
  }

  /** As many workers as signatures, but no more than allowed. */
  lemma WorkersAre<E>(c: Config<E>, labels: seq<Label>)
    ensures Run(c, labels).Some? ==>
      |Run(c, labels).value.workers| == if |c.errs| <= c.concurrency then |c.errs| else c.concurrency
  {
    hide Run;
    if Run(c, labels).Some? {
      assert Inv(c, Run(c, labels).value);
    }
  }

  function Receives(labels: seq<Label>, w: nat): nat {
    if labels == [] then 0 else Receives(labels[..|labels| - 1], w) + if labels[|labels| - 1] == Receive(w) then 1 else 0
  }

  /** Once the pool is cancelled a worker that waits takes at most one more entry, and any
      other none. */
  function ReceivesLeft(pc: Worker): nat {
    if pc.Waiting? then 1 else 0
  }

  lemma StepReceives<E>(c: Config<E>, s: State<E>, l: Label, w: nat)
    requires InRange(c, s) && Enabled(c, s, l) && s.cancelled && w < |s.workers|
    ensures
      var t := Apply(c, s, l);
      t.cancelled && |t.workers| == |s.workers|
      && (if l == Receive(w) then 1 else 0) + ReceivesLeft(t.workers[w]) <= ReceivesLeft(s.workers[w])
  {
  }

  /** So after the first invalid signature was found the workers stop early. */
  lemma {:induction false} CancelledWorkersStop<E>(c: Config<E>, labels: seq<Label>, more: seq<Label>, w: nat)
    ensures Run(c, labels + more).Some? && Run(c, labels).Some? && Run(c, labels).value.cancelled && w < |Run(c, labels).value.workers| ==>
      Run(c, labels + more).value.cancelled && w < |Run(c, labels + more).value.workers|
      && Receives(more, w) + ReceivesLeft(Run(c, labels + more).value.workers[w]) <= ReceivesLeft(Run(c, labels).value.workers[w]) <= 1
    decreases |more|
  {
    hide Enabled, Apply, Inv;
    if more == [] {
      assert labels + more == labels;
    } else {
      var n := |more| - 1;
      assert (labels + more)[..|labels + more| - 1] == labels + more[..n];
      CancelledWorkersStop(c, labels, more[..n], w);
      if Run(c, labels + more).Some? && Run(c, labels).Some? && Run(c, labels).value.cancelled && w < |Run(c, labels).value.workers| {
        var s := Run(c, labels + more[..n]).value;
        InvInRange(c, s);
        StepReceives(c, s, more[n], w);
      }
    }
  }

  /** A worker that has sent an invalid signature cancels the others and leaves; one that
      has sent a valid one goes on exactly if nobody has cancelled. */
  lemma BadSignatureCancels<E>(c: Config<E>, labels: seq<Label>, w: nat)
    ensures Run(c, labels).Some? && w < |Run(c, labels).value.workers| && Run(c, labels).value.workers[w].Sent? ==>
      var s, r := Run(c, labels).value, Run(c, labels + [AfterSend(w)]);
      var i := s.workers[w].i;
      i < |c.errs| && r.Some?
      && var stop := s.cancelled || c.errs[i].Some?;
         r.value == s.(cancelled := stop, workers := s.workers[w := if stop then Leaving else Waiting])
  {
    hide Inv;
    assert (labels + [AfterSend(w)])[..|labels|] == labels;
    if Run(c, labels).Some? {
      InvInRange(c, Run(c, labels).value);
    }
  }

  /** The steps there are: those of the caller and of each worker. */
  function Labels<E>(s: State<E>): set<Label> {
    var n := |s.workers|;
    {Feed, Close, Collect, Join, Scan}
    + (set w | 0 <= w < n :: Receive(w)) + (set w | 0 <= w < n :: ReceiveClosed(w)) + (set w | 0 <= w < n :: Verify(w))
    + (set w | 0 <= w < n :: Send(w)) + (set w | 0 <= w < n :: AfterSend(w)) + (set w | 0 <= w < n :: Exit(w))
  }

  /** verifySignatures under an arbitrary scheduler, which picks any step that can be
      taken until the caller returns. */
  method VerifySignatures<E>(errs: seq<Option<E>>, concurrency: nat) returns (err: Option<E>)
    requires concurrency > 0 || errs == []
    ensures err == FirstError(errs)
  {
    hide Apply, Inv, Measure, Enabled, Labels;
    var c := Config(errs, concurrency);
    var s := Init(c);
    InitInv(c);
    while !s.caller.Returned?
      invariant Inv(c, s)
      decreases Measure(c, s)
    {
      MeasureNonNegative(c, s);
      ghost var can := Progress(c, s);
      EnabledLabels(c, s, can);
      var l :| l in Labels(s) && Enabled(c, s, l);
      StepInv(c, s, l);
      MeasureDecreases(c, s, l);
      InvInRange(c, s);
      s := Apply(c, s, l);
    }
    ReturnedIs(c, s);
    err := s.caller.result;
  }

  lemma EnabledLabels<E>(c: Config<E>, s: State<E>, l: Label)
    requires Enabled(c, s, l)
    ensures l in Labels(s)
  {
  }

  lemma InvInRange<E>(c: Config<E>, s: State<E>)
    requires Inv(c, s)
    ensures InRange(c, s)
  {
  }

  lemma ReturnedIs<E>(c: Config<E>, s: State<E>)
    requires Inv(c, s) && s.caller.Returned?
    ensures s.caller.result == FirstError(c.errs)
  {
  }

  /** Conversely, without a worker the caller never returns once there is a signature. */
  lemma {:induction false} NoWorkersNoReturn<E>(c: Config<E>, labels: seq<Label>)
    requires c.concurrency == 0 && c.errs != [] && Run(c, labels).Some?
    ensures !Run(c, labels).value.caller.Returned?
    ensures Run(c, labels).value.verified == Channel([], 0)
  {
    hide Enabled, Apply, Inv;
    if labels != [] {
      NoWorkersNoReturn(c, labels[..|labels| - 1]);
      NoWorkersStep(c, Run(c, labels[..|labels| - 1]).value, labels[|labels| - 1]);
    }
  }

  lemma NoWorkersStep<E>(c: Config<E>, s: State<E>, l: Label)
    requires c.concurrency == 0 && c.errs != [] && Inv(c, s) && Enabled(c, s, l)
    requires !s.caller.Returned? && s.verified == Channel([], 0)
    ensures var t := Apply(c, s, l); !t.caller.Returned? && t.verified == Channel([], 0)
  {
    assert s.workers == [];
    assert !ErrorSent(c, s);
  }
}
