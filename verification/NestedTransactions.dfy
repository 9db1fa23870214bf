/** The stack of nested transactions (fvm/storage/state/transaction_state.go) over
    execution states that hold writes and a computation meter
    (fvm/storage/state/execution_state.go).  Only the top of the stack is active.
    Frames share a limits controller with their parent unless they compute derived
    data; metering is switched per controller. */
module NestedTransactions {
  import opened Bytes

  datatype Register = Register(owner: bytes, key: bytes)

  datatype Value = Sequence(n: nat) | Data(b: bytes)

  type Writes = map<Register, Value>

  /** The limit of a meter whose limits are lifted, in the unit that limits are
      reported in: 64 bits less 16 of internal precision. */
  const NO_LIMIT: nat := 0xFFFF_FFFF_FFFF

  /** An execution state; `ctl` names its controller by the frame that made it. */
  datatype Frame = Frame(id: nat, ctl: nat, writes: Writes, meter: nat, limit: nat, restricted: Option<nat>)

  /** `off` holds the controllers with metering disabled, `next` is an unused id. */
  datatype Stack = Stack(frames: seq<Frame>, off: set<nat>, next: nat)

  ghost predicate Valid(s: Stack) {
    s.frames != []
    && (forall i | 0 <= i < |s.frames| :: s.frames[i].id < s.next && s.frames[i].ctl < s.next)
    && (forall i, j | 0 <= i < j < |s.frames| :: s.frames[i].id != s.frames[j].id)
    && (forall c | c in s.off :: c < s.next)
  }

  function Initial(limit: nat): Stack {
    Stack([Frame(0, 0, map[], 0, limit, None)], {}, 1)
  }

  function Current(s: Stack): Frame
    requires s.frames != []
  {
    s.frames[|s.frames| - 1]
  }

  predicate Metering(s: Stack)
    requires s.frames != []
  {
    Current(s).ctl !in s.off
  }

  function WithCurrent(s: Stack, f: Frame): Stack
    requires s.frames != []
  {
    s.(frames := s.frames[..|s.frames| - 1] + [f])
  }

  function Push(s: Stack, f: Frame): Stack {
    s.(frames := s.frames + [f], next := s.next + 1)
  }

  // ----- the calls of the interface, as functions of the stack

  /** NewChildWithMeterParams: a new meter under the parent's controller. */
  function Begin(s: Stack, limit: nat): Option<Stack>
    requires s.frames != []
  {
    if Current(s).restricted.Some? then None
    else Some(Push(s, Frame(s.next, Current(s).ctl, map[], 0, limit, None)))
  }

  /** NewChildForDerivedData: an own controller that meters, without limits when
      the parent does not meter. */
  function BeginDerived(s: Stack): Option<Stack>
    requires s.frames != []
  {
    if Current(s).restricted.Some? then None
    else
      var limit := if Metering(s) then Current(s).limit else NO_LIMIT;
      Some(Push(s, Frame(s.next, s.next, map[], 0, limit, None)))
  }

  function BeginRestricted(s: Stack, location: nat): Stack
    requires s.frames != []
  {
    Push(s, Frame(s.next, Current(s).ctl, map[], 0, Current(s).limit, Some(location)))
  }

  /** Merge of a finalized child: writes always, the meter only while metering. */
  function Merged(s: Stack, writes: Writes, meter: nat): Stack
    requires s.frames != []
  {
    var f := Current(s);
    WithCurrent(s, f.(writes := f.writes + writes, meter := f.meter + if Metering(s) then meter else 0))
  }

  function Popped(s: Stack): Stack
    requires s.frames != []
  {
    s.(frames := s.frames[..|s.frames| - 1])
  }

  function MergedIntoParent(s: Stack): Stack
    requires |s.frames| >= 2
  {
    Merged(Popped(s), Current(s).writes, Current(s).meter)
  }

  function Commit(s: Stack, id: nat): Option<Stack>
    requires s.frames != []
  {
    if Current(s).id != id || Current(s).restricted.Some? || |s.frames| < 2 then None else Some(MergedIntoParent(s))
  }

  function CommitRestricted(s: Stack, location: nat): Option<Stack>
    requires s.frames != []
  {
    if Current(s).restricted != Some(location) || |s.frames| < 2 then None else Some(MergedIntoParent(s))
  }

  /** The position of a frame, or the number of frames. */
  function Position(frames: seq<Frame>, id: nat): (k: nat)
    ensures k <= |frames|
    ensures k < |frames| ==> frames[k].id == id
    ensures forall i | 0 <= i < k :: frames[i].id != id
  {
    if frames == [] then 0
    else if frames[0].id == id then 0
    else
      assert forall i | 0 < i < |frames| :: frames[i] == frames[1..][i - 1];
      1 + Position(frames[1..], id)
  }

  /** The stack merged down until the frame at `k` is on top. */
  function MergedDown(s: Stack, k: nat): (t: Stack)
    requires k < |s.frames|
    ensures |t.frames| == k + 1
    decreases |s.frames|
  {
    if |s.frames| == k + 1 then s else MergedDown(MergedIntoParent(s), k)
  }

  lemma MergedDownStep(s: Stack, k: nat)
    requires k + 1 < |s.frames|
    ensures MergedDown(s, k) == MergedDown(MergedIntoParent(s), k)
  {
  }

  lemma MergedDownHere(s: Stack, k: nat)
    requires k + 1 == |s.frames|
    ensures MergedDown(s, k) == s
  {
  }

  function Dropped(s: Stack): Stack
    requires s.frames != []
  {
    WithCurrent(s, Current(s).(writes := map[]))
  }

  function Restart(s: Stack, id: nat): Option<Stack> {
    var k := Position(s.frames, id);
    if k == |s.frames| then None else Some(Dropped(MergedDown(s, k)))
  }

  function Set(s: Stack, r: Register, v: Value): Stack
    requires s.frames != []
  {
    WithCurrent(s, Current(s).(writes := Current(s).writes[r := v]))
  }

  function Meter(s: Stack, amount: nat): Stack
    requires s.frames != []
  {
    if Metering(s) then WithCurrent(s, Current(s).(meter := Current(s).meter + amount)) else s
  }

  /** What a read finds: the newest write, else the storage below. */
  function Lookup(frames: seq<Frame>, store: Writes, r: Register): Option<Value> {
    if frames == [] then (if r in store then Some(store[r]) else None)
    else
      var top := frames[|frames| - 1];
      if r in top.writes then Some(top.writes[r]) else Lookup(frames[..|frames| - 1], store, r)
  }

  // ----- laws

  function Total(frames: seq<Frame>): nat {
    if frames == [] then 0 else frames[0].meter + Total(frames[1..])
  }

  ghost predicate AllMeter(s: Stack, k: nat) {
    forall i | k <= i < |s.frames| :: s.frames[i].ctl !in s.off
  }

  lemma {:induction false} TotalSnoc(frames: seq<Frame>, f: Frame)
    ensures Total(frames + [f]) == Total(frames) + f.meter
  {
    if frames == [] {
      assert frames + [f] == [f];
    } else {
      TotalSnoc(frames[1..], f);
      assert (frames + [f])[1..] == frames[1..] + [f];
    }
  }

  lemma {:induction false} MergedDownIs(s: Stack, k: nat)
    requires k < |s.frames| && AllMeter(s, k)
    ensures
      var t := MergedDown(s, k);
      t.off == s.off && t.next == s.next && t.frames[..k] == s.frames[..k]
      && t.frames[k] == s.frames[k].(writes := t.frames[k].writes, meter := Total(s.frames[k..]))
    decreases |s.frames|
  {
    if |s.frames| == k + 1 {
      assert s.frames[k..] == [s.frames[k]];
    } else {
      MergeKeepsTotal(s, k);
      MergedDownIs(MergedIntoParent(s), k);
    }
  }

  lemma MergeKeepsTotal(s: Stack, k: nat)
    requires k + 1 < |s.frames| && AllMeter(s, k)
    ensures
      var m := MergedIntoParent(s);
      |m.frames| == |s.frames| - 1 && m.off == s.off && m.next == s.next && AllMeter(m, k)
      && m.frames[..k] == s.frames[..k] && Total(m.frames[k..]) == Total(s.frames[k..])
      && m.frames[k] == s.frames[k].(writes := m.frames[k].writes, meter := m.frames[k].meter)
  {
    var n := |s.frames|;
    var m := MergedIntoParent(s);
    var low, merged := s.frames[k..n - 2], m.frames[n - 2];
    assert merged.meter == s.frames[n - 2].meter + s.frames[n - 1].meter;
    assert m.frames == s.frames[..n - 2] + [merged];
    assert m.frames[k..] == low + [merged];
    assert s.frames[k..] == low + [s.frames[n - 2]] + [s.frames[n - 1]];
    TotalSnoc(low, merged);
    TotalSnoc(low, s.frames[n - 2]);
    TotalSnoc(low + [s.frames[n - 2]], s.frames[n - 1]);
  }

  lemma PositionOf(s: Stack, k: nat)
    requires Valid(s) && k < |s.frames|
    ensures Position(s.frames, s.frames[k].id) == k
  {
    hide Position;
  }

  /** A restart closes every frame above the given one, keeps what they metered and
      drops what they wrote. */
  lemma RestartIs(s: Stack, k: nat)
    requires Valid(s) && k < |s.frames| && AllMeter(s, k)
    ensures Restart(s, s.frames[k].id) ==
      Some(s.(frames := s.frames[..k] + [s.frames[k].(writes := map[], meter := Total(s.frames[k..]))]))
    ensures Valid(Restart(s, s.frames[k].id).value)
  {
    hide MergedDown, Position, Total;
    PositionOf(s, k);
    MergedDownIs(s, k);
    var t := MergedDown(s, k);
    assert t.frames == t.frames[..k] + [t.frames[k]];
    assert Dropped(t).frames == s.frames[..k] + [s.frames[k].(writes := map[], meter := Total(s.frames[k..]))];
    assert forall i | 0 <= i <= k :: Dropped(t).frames[i].id == s.frames[i].id && Dropped(t).frames[i].ctl == s.frames[i].ctl;
  }

  // ----- what reads see

  lemma LookupTop(frames: seq<Frame>, f: Frame, store: Writes, r: Register)
    ensures Lookup(frames + [f], store, r) == if r in f.writes then Some(f.writes[r]) else Lookup(frames, store, r)
  {
    assert (frames + [f])[..|frames|] == frames;
  }

  lemma TopApart(s: Stack)
    requires s.frames != []
    ensures s.frames == s.frames[..|s.frames| - 1] + [Current(s)]
  {
  }

  /** Without frames a read is one of the storage. */
  lemma StorageIsLast(store: Writes, r: Register)
    ensures Lookup([], store, r) == if r in store then Some(store[r]) else None
  {
  }

  /** A write is read back, and no other register is affected. */
  lemma ReadYourWrite(s: Stack, store: Writes, r: Register, v: Value, q: Register)
    requires s.frames != []
    ensures Lookup(Set(s, r, v).frames, store, q) == if q == r then Some(v) else Lookup(s.frames, store, q)
  {
    TopApart(s);
    var low, f := s.frames[..|s.frames| - 1], Current(s);
    LookupTop(low, f, store, q);
    LookupTop(low, f.(writes := f.writes[r := v]), store, q);
  }

  /** Opening a frame changes no read. */
  lemma BeginKeepsReads(s: Stack, f: Frame, store: Writes, r: Register)
    requires f.writes == map[]
    ensures Lookup(Push(s, f).frames, store, r) == Lookup(s.frames, store, r)
  {
    LookupTop(s.frames, f, store, r);
  }

  /** Neither does committing one. */
  lemma CommitKeepsReads(s: Stack, id: nat, store: Writes, r: Register)
    requires s.frames != [] && Commit(s, id).Some?
    ensures Lookup(Commit(s, id).value.frames, store, r) == Lookup(s.frames, store, r)
  {
    MergeKeepsReads(s, store, r);
  }

  lemma MergeKeepsReads(s: Stack, store: Writes, r: Register)
    requires |s.frames| >= 2
    ensures Lookup(MergedIntoParent(s).frames, store, r) == Lookup(s.frames, store, r)
  {
    var n := |s.frames|;
    var low, parent, child := s.frames[..n - 2], s.frames[n - 2], s.frames[n - 1];
    assert s.frames == low + [parent] + [child];
    LookupTop(low + [parent], child, store, r);
    LookupTop(low, parent, store, r);
    var t := MergedIntoParent(s);
    assert Popped(s).frames == low + [parent];
    assert t.frames == low + [t.frames[n - 2]];
    LookupTop(low, t.frames[n - 2], store, r);
  }

  /** What is attached, a cached snapshot say, is read from then on; it is metered unless
      metering is off, as a committed child is. */
  lemma AttachOverlays(s: Stack, writes: Writes, used: nat, store: Writes, r: Register)
    requires s.frames != []
    ensures
      var t := Merged(s, writes, used);
      Lookup(t.frames, store, r) == (if r in writes then Some(writes[r]) else Lookup(s.frames, store, r))
      && Current(t).meter == Current(s).meter + (if Current(s).ctl in s.off then 0 else used)
  {
    TopApart(s);
    var low, f := s.frames[..|s.frames| - 1], Current(s);
    LookupTop(low, f, store, r);
    LookupTop(low, Current(Merged(s, writes, used)), store, r);
  }

  /** A commit closes the child and changes only writes and meter of its parent. */
  lemma CommitMeters(s: Stack, id: nat)
    requires s.frames != [] && Commit(s, id).Some?
    ensures
      var t, n := Commit(s, id).value, |s.frames|;
      var parent, child := s.frames[n - 2], s.frames[n - 1];
      t.off == s.off && t.next == s.next
      && t.frames == s.frames[..n - 2]
           + [parent.(writes := parent.writes + child.writes, meter := parent.meter + if parent.ctl in s.off then 0 else child.meter)]
  {
    var n := |s.frames|;
    assert Popped(s).frames[..n - 2] == s.frames[..n - 2];
  }

  /** After a restart reads are those of the frames below. */
  lemma RestartForgets(s: Stack, k: nat, store: Writes, r: Register)
    requires Valid(s) && k < |s.frames|
    ensures Restart(s, s.frames[k].id).Some?
    ensures Lookup(Restart(s, s.frames[k].id).value.frames, store, r) == Lookup(s.frames[..k], store, r)
  {
    PositionOf(s, k);
    MergedDownBelow(s, k);
    var t := MergedDown(s, k);
    LookupTop(s.frames[..k], t.frames[k].(writes := map[]), store, r);
  }

  lemma {:induction false} MergedDownBelow(s: Stack, k: nat)
    requires k < |s.frames|
    ensures MergedDown(s, k).frames[..k] == s.frames[..k]
    decreases |s.frames|
  {
    if |s.frames| != k + 1 {
      MergedDownBelow(MergedIntoParent(s), k);
    }
  }

  // ----- when the calls succeed

  /** Unrestricted frames cannot be opened in a restricted one; an ordinary child meters as
      its parent does and one for derived data always, with the parent's limit or, if the
      parent does not meter, none.  Restricted frames can always be opened. */
  lemma BeginIff(s: Stack, limit: nat, location: nat)
    requires Valid(s)
    ensures
      var t := BeginRestricted(s, location);
      t.frames == s.frames + [Current(t)] && t.off == s.off && (Metering(t) <==> Metering(s))
      && Contents(Current(t)) == Held(map[], 0, Current(s).limit, Some(location))
    ensures Begin(s, limit).Some? <==> Current(s).restricted == None
    ensures BeginDerived(s).Some? <==> Current(s).restricted == None
    ensures Begin(s, limit).Some? ==>
      var t := Begin(s, limit).value;
      t.frames == s.frames + [Current(t)] && t.off == s.off && Contents(Current(t)) == Held(map[], 0, limit, None)
      && (Metering(t) <==> Metering(s))
    ensures BeginDerived(s).Some? ==>
      var t := BeginDerived(s).value;
      t.frames == s.frames + [Current(t)] && t.off == s.off && Metering(t)
      && Contents(Current(t)) == Held(map[], 0, if Current(s).ctl in s.off then 0xFFFF_FFFF_FFFF else Current(s).limit, None)
  {
  }

  /** Only the current frame can be committed: an unrestricted one by its own id, a
      restricted one by its location, and never the main transaction. */
  lemma CommitIff(s: Stack, id: nat, location: nat)
    requires Valid(s)
    ensures Commit(s, id).Some? <==> |s.frames| >= 2 && Current(s).id == id && Current(s).restricted == None
    ensures CommitRestricted(s, location).Some? <==> |s.frames| >= 2 && Current(s).restricted == Some(location)
  {
  }

  /** A restart succeeds exactly if the frame is open. */
  lemma RestartIff(s: Stack, id: nat)
    requires Valid(s)
    ensures Restart(s, id).Some? <==> exists k | 0 <= k < |s.frames| :: s.frames[k].id == id
  {
  }

  // ----- code that runs on top of the stack

  /** One call of foreign code.  It knows only the frames it opened itself, so it
      closes or restarts none at or below the frame it was called in. */
  datatype Call =
    | Open(limit: nat)
    | OpenDerived
    | OpenRestricted(location: nat)
    | Close
    | CloseRestricted(location: nat)
    | RestartAt(k: nat)
    | Write(r: Register, v: Value)
    | Charge(amount: nat)
    | Replay(writes: Writes, meter: nat)

  /** Calls in order; Unmetered is RunWithMeteringDisabled around some of them. */
  datatype Script = End | Then(call: Call, next: Script) | Unmetered(inner: Script, next: Script)

  function Called(s: Stack, base: nat, c: Call): (t: Stack)
    requires base < |s.frames|
    ensures base < |t.frames|
  {
    match c
    case Open(limit) => Or(Begin(s, limit), s)
    case OpenDerived => Or(BeginDerived(s), s)
    case OpenRestricted(location) => BeginRestricted(s, location)
    case Close => if |s.frames| > base + 1 then Or(Commit(s, Current(s).id), s) else s
    case CloseRestricted(location) => if |s.frames| > base + 1 then Or(CommitRestricted(s, location), s) else s
    case RestartAt(k) =>
      if base + 1 + k < |s.frames| then Dropped(MergedDown(s, base + 1 + k)) else s
    case Write(r, v) => Set(s, r, v)
    case Charge(amount) => Meter(s, amount)
    case Replay(writes, meter) => Merged(s, writes, meter)
  }

  /** RunWithMeteringDisabled saves the flag of the current controller and puts it
      back, whatever ran in between. */
  function Executed(s: Stack, base: nat, code: Script): (t: Stack)
    requires base < |s.frames|
    ensures base < |t.frames|
    decreases code
  {
    match code
    case End => s
    case Then(c, next) => Executed(Called(s, base, c), base, next)
    case Unmetered(inner, next) =>
      var ctl := Current(s).ctl;
      var t := Executed(s.(off := s.off + {ctl}), base, inner);
      Executed(t.(off := if ctl in s.off then t.off + {ctl} else t.off - {ctl}), base, next)
  }

  function Or(o: Option<Stack>, s: Stack): Stack {
    if o.Some? then o.value else s
  }

  /** What foreign code called on `s` may turn it into: lower frames stay, the
      caller's frame only gains, and gains no computation while it does not meter;
      frames left open have the caller's controller or a new one. */
  ghost predicate Local(s: Stack, t: Stack) {
    |s.frames| <= |t.frames| && Valid(s) && Valid(t) && s.off <= t.off && s.next <= t.next
    && t.frames[..|s.frames| - 1] == s.frames[..|s.frames| - 1]
    && Grown(Current(s), t.frames[|s.frames| - 1], s.off)
    && (forall i | |s.frames| <= i < |t.frames| :: t.frames[i].ctl == Current(s).ctl || s.next <= t.frames[i].ctl)
  }

  ghost predicate Grown(f: Frame, g: Frame, off: set<nat>) {
    g == f.(writes := g.writes, meter := g.meter)
    && f.writes.Keys <= g.writes.Keys && f.meter <= g.meter && (f.ctl in off ==> g.meter == f.meter)
  }

  lemma PushLocal(s: Stack, t: Stack, f: Frame)
    requires Local(s, t) && f.id == t.next && (f.ctl == Current(t).ctl || f.ctl == t.next)
    ensures Local(s, Push(t, f))
  {
  }

  lemma MergedLocal(s: Stack, t: Stack, writes: Writes, meter: nat)
    requires Local(s, t)
    ensures Local(s, Merged(t, writes, meter)) && Merged(t, writes, meter).off == t.off
  {
  }

  lemma PoppedLocal(s: Stack, t: Stack)
    requires Local(s, t) && |s.frames| < |t.frames|
    ensures Local(s, Popped(t))
  {
  }

  lemma {:induction false} MergedDownLocal(s: Stack, t: Stack, k: nat)
    requires Local(s, t) && |s.frames| <= k < |t.frames|
    ensures Local(s, MergedDown(t, k)) && MergedDown(t, k).off == t.off
    decreases |t.frames|
  {
    hide Local;
    if |t.frames| != k + 1 {
      assert |s.frames| < |t.frames|;
      PoppedLocal(s, t);
      MergedLocal(s, Popped(t), Current(t).writes, Current(t).meter);
      MergedDownLocal(s, MergedIntoParent(t), k);
    }
  }

  lemma DroppedLocal(s: Stack, t: Stack)
    requires Local(s, t) && |s.frames| < |t.frames|
    ensures Local(s, Dropped(t)) && Dropped(t).off == t.off
  {
  }

  lemma CalledLocal(s: Stack, t: Stack, c: Call)
    requires Local(s, t)
    ensures Local(s, Called(t, |s.frames| - 1, c)) && Called(t, |s.frames| - 1, c).off == t.off
  {
    hide Local, MergedDown;
    assert |s.frames| <= |t.frames| && t.frames != [] by { LocalGrows(s, t); }
    match c
    case Open(limit) => PushLocal(s, t, Frame(t.next, Current(t).ctl, map[], 0, limit, None));
    case OpenDerived => PushLocal(s, t, Frame(t.next, t.next, map[], 0, if Metering(t) then Current(t).limit else NO_LIMIT, None));
    case OpenRestricted(location) => PushLocal(s, t, Frame(t.next, Current(t).ctl, map[], 0, Current(t).limit, Some(location)));
    case Close => MergeLocal(s, t);
    case CloseRestricted(location) => MergeLocal(s, t);
    case RestartAt(k) =>
      if |s.frames| + k < |t.frames| {
        MergedDownLocal(s, t, |s.frames| + k);
        DroppedLocal(s, MergedDown(t, |s.frames| + k));
      }
    case Write(r, v) =>
      MergedLocal(s, t, map[r := v], 0);
      assert Current(t).writes + map[r := v] == Current(t).writes[r := v];
      assert Current(t).meter + 0 == Current(t).meter;
    case Charge(amount) =>
      MergedLocal(s, t, map[], amount);
      assert Current(t).writes + map[] == Current(t).writes;
      assert !Metering(t) ==> WithCurrent(t, Current(t)).frames == t.frames;
    case Replay(writes, meter) => MergedLocal(s, t, writes, meter);
  }

  lemma LocalGrows(s: Stack, t: Stack)
    requires Local(s, t)
    ensures 0 < |s.frames| <= |t.frames|
  {
  }

  lemma MergeLocal(s: Stack, t: Stack)
    requires Local(s, t)
    ensures |s.frames| < |t.frames| ==> |t.frames| >= 2 && Local(s, MergedIntoParent(t)) && MergedIntoParent(t).off == t.off
  {
    if |s.frames| < |t.frames| {
      PoppedLocal(s, t);
      MergedLocal(s, Popped(t), Current(t).writes, Current(t).meter);
    }
  }

  /** Whatever foreign code calls, it acts locally and leaves metering as it was. */
  lemma {:induction false} ExecutedLocal(s: Stack, t: Stack, code: Script)
    requires Local(s, t)
    ensures Local(s, Executed(t, |s.frames| - 1, code)) && Executed(t, |s.frames| - 1, code).off == t.off
    decreases code
  {
    hide Local, Called;
    LocalGrows(s, t);
    var base := |s.frames| - 1;
    match code
    case End =>
    case Then(c, next) =>
      CalledLocal(s, t, c);
      ExecutedLocal(s, Called(t, base, c), next);
    case Unmetered(inner, next) =>
      LocalOff(s, t);
      var ctl := Current(t).ctl;
      var quiet := t.(off := t.off + {ctl});
      OffLocal(s, t, quiet.off);
      ExecutedLocal(s, quiet, inner);
      var after := Executed(quiet, base, inner);
      var off := if ctl in t.off then after.off + {ctl} else after.off - {ctl};
      assert off == t.off;
      LocalOff(s, after);
      OffLocal(s, after, off);
      ExecutedLocal(s, after.(off := off), next);
  }

  lemma LocalOff(s: Stack, t: Stack)
    requires Local(s, t)
    ensures s.off <= t.off && t.frames != [] && Current(t).ctl < t.next && forall c | c in t.off :: c < t.next
  {
  }

  lemma OffLocal(s: Stack, t: Stack, off: set<nat>)
    requires Local(s, t) && s.off <= off && forall c | c in off :: c < t.next
    ensures Local(s, t.(off := off))
  {
  }

  /** A frame left open. */
  datatype Held = Held(writes: Writes, meter: nat, limit: nat, restricted: Option<nat>)

  /** The sum of what foreign code does: to its caller's frame, and the frames it
      leaves open above. */
  datatype Effect = Effect(writes: Writes, used: nat, open: seq<Held>)

  function PushAll(s: Stack, open: seq<Held>): (t: Stack)
    requires s.frames != []
    ensures t.frames != []
    decreases |open|
  {
    if open == [] then s
    else
      var h := open[0];
      PushAll(Push(s, Frame(s.next, Current(s).ctl, h.writes, h.meter, h.limit, h.restricted)), open[1..])
  }

  function HeldTotal(open: seq<Held>): nat {
    if open == [] then 0 else open[0].meter + HeldTotal(open[1..])
  }

  function Foreign(s: Stack, e: Effect): Stack
    requires s.frames != []
  {
    PushAll(Merged(s, e.writes, e.used), e.open)
  }

  function Unmeteredly(s: Stack, e: Effect): Stack
    requires s.frames != []
  {
    Foreign(s.(off := s.off + {Current(s).ctl}), e).(off := s.off)
  }

  lemma Nothing(s: Stack)
    requires s.frames != []
    ensures PushAll(s, []) == s
  {
  }

  lemma PushAllStep(s: Stack, open: seq<Held>)
    requires s.frames != [] && open != []
    ensures
      var h := open[0];
      PushAll(s, open) == PushAll(Push(s, Frame(s.next, Current(s).ctl, h.writes, h.meter, h.limit, h.restricted)), open[1..])
  {
  }

  function Contents(f: Frame): Held {
    Held(f.writes, f.meter, f.limit, f.restricted)
  }

  lemma ValidSome(s: Stack)
    requires Valid(s)
    ensures s.frames != []
  {
  }

  lemma PushValid(s: Stack, f: Frame)
    requires Valid(s) && f.id == s.next && f.ctl == Current(s).ctl
    ensures Valid(Push(s, f))
  {
  }

  lemma {:induction false} PushAllIs(s: Stack, open: seq<Held>)
    requires Valid(s)
    ensures
      var t := PushAll(s, open);
      Valid(t) && t.off == s.off && |t.frames| == |s.frames| + |open| && t.frames[..|s.frames|] == s.frames
      && (forall i | 0 <= i < |open| :: Contents(t.frames[|s.frames| + i]) == open[i] && t.frames[|s.frames| + i].ctl == Current(s).ctl)
    decreases |open|
  {
    hide Valid;
    ValidSome(s);
    if open != [] {
      var h := open[0];
      var f := Frame(s.next, Current(s).ctl, h.writes, h.meter, h.limit, h.restricted);
      var u := Push(s, f);
      PushValid(s, f);
      PushAllIs(u, open[1..]);
      var t := PushAll(u, open[1..]);
      assert t.frames[..|s.frames|] == t.frames[..|u.frames|][..|s.frames|] == s.frames;
      assert t.frames[|s.frames|] == t.frames[..|u.frames|][|s.frames|] == f;
      forall i | 0 <= i < |open|
        ensures Contents(t.frames[|s.frames| + i]) == open[i] && t.frames[|s.frames| + i].ctl == Current(s).ctl
      {
        if i > 0 {
          assert open[i] == open[1..][i - 1];
          assert t.frames[|s.frames| + i] == t.frames[|u.frames| + (i - 1)];
        }
      }
    }
  }

  lemma {:induction false} PushAllTotal(s: Stack, open: seq<Held>)
    requires s.frames != []
    ensures Total(PushAll(s, open).frames) == Total(s.frames) + HeldTotal(open)
    decreases |open|
  {
    if open != [] {
      var h := open[0];
      var f := Frame(s.next, Current(s).ctl, h.writes, h.meter, h.limit, h.restricted);
      TotalSnoc(s.frames, f);
      PushAllTotal(Push(s, f), open[1..]);
    }
  }

  lemma MergedValid(s: Stack, writes: Writes, meter: nat)
    requires Valid(s)
    ensures Valid(Merged(s, writes, meter))
  {
    var t, n := Merged(s, writes, meter), |s.frames|;
    assert forall i | 0 <= i < n - 1 :: t.frames[i] == s.frames[i];
    assert t.frames[n - 1].id == s.frames[n - 1].id && t.frames[n - 1].ctl == s.frames[n - 1].ctl;
    assert forall i | 0 <= i < n :: t.frames[i].id == s.frames[i].id && t.frames[i].ctl == s.frames[i].ctl;
  }

  lemma NotEmpty(s: Stack)
    requires Valid(s)
    ensures s.frames != []
  {
  }

  lemma MergedIs(s: Stack, writes: Writes, meter: nat)
    requires Valid(s)
    ensures
      var t, n := Merged(s, writes, meter), |s.frames|;
      Valid(t) && t.off == s.off && |t.frames| == n && t.frames[..n - 1] == s.frames[..n - 1]
      && Total(t.frames) == Total(s.frames) + if Metering(s) then meter else 0
  {
    hide Total, Valid;
    MergedValid(s, writes, meter);
    NotEmpty(s);
    var t, n := Merged(s, writes, meter), |s.frames|;
    TotalSnoc(s.frames[..n - 1], Current(s));
    TotalSnoc(s.frames[..n - 1], Current(t));
    assert s.frames == s.frames[..n - 1] + [Current(s)];
  }

  lemma ForeignIs(s: Stack, e: Effect)
    requires Valid(s)
    ensures
      var t, n := Foreign(s, e), |s.frames|;
      Valid(t) && t.off == s.off && |t.frames| == n + |e.open| && t.frames[..n - 1] == s.frames[..n - 1]
      && t.frames[n - 1] == Current(Merged(s, e.writes, e.used))
      && (forall i | 0 <= i < |e.open| :: Contents(t.frames[n + i]) == e.open[i])
      && Total(t.frames) == Total(s.frames) + (if Metering(s) then e.used else 0) + HeldTotal(e.open)
  {
    hide PushAll, Total;
    var m := Merged(s, e.writes, e.used);
    MergedIs(s, e.writes, e.used);
    PushAllIs(m, e.open);
    PushAllTotal(m, e.open);
    var t, n := Foreign(s, e), |s.frames|;
    assert t.frames[..n] == m.frames;
    assert t.frames[..n - 1] == t.frames[..n][..n - 1];
    assert t.frames[n - 1] == t.frames[..n][n - 1];
  }

  /** Every script amounts to one effect: same stack, up to the names of the frames
      left open. */
  lemma ForeignCodeIsAnEffect(s: Stack, code: Script) returns (e: Effect)
    requires Valid(s)
    ensures
      var t, u, n := Executed(s, |s.frames| - 1, code), Foreign(s, e), |s.frames|;
      n <= |t.frames| == |u.frames| && t.off == u.off == s.off && t.frames[..n] == u.frames[..n]
      && (forall i | n <= i < |t.frames| :: Contents(t.frames[i]) == Contents(u.frames[i]))
      && (Metering(s) ==> forall i | n <= i < |t.frames| :: t.frames[i].ctl !in t.off)
  {
    hide Executed, PushAll;
    ExecutedLocal(s, s, code);
    var t, n := Executed(s, |s.frames| - 1, code), |s.frames|;
    var top := t.frames[n - 1];
    e := Effect(top.writes, top.meter - Current(s).meter, seq(|t.frames| - n, i requires 0 <= i < |t.frames| - n => Contents(t.frames[n + i])));
    var m := Merged(s, e.writes, e.used);
    assert Current(s).writes + top.writes == top.writes;
    assert t.frames[..n] == t.frames[..n - 1] + [top];
    assert m.frames == t.frames[..n];
    assert Valid(m) by { MergedLocal(s, s, e.writes, e.used); }
    PushAllIs(m, e.open);
    var u := Foreign(s, e);
    forall i | n <= i < |t.frames| ensures Contents(t.frames[i]) == Contents(u.frames[i]) {
      assert Contents(u.frames[n + (i - n)]) == e.open[i - n];
    }
  }

  // ----- the object

  class TransactionState {
    var frames: seq<Frame>
    var off: set<nat>
    var next: nat

    ghost function Abs(): Stack
      reads this
    {
      Stack(frames, off, next)
    }

    constructor (limit: nat)
      ensures Abs() == Initial(limit) && Valid(Abs())
    {
      frames, off, next := [Frame(0, 0, map[], 0, limit, None)], {}, 1;
    }

    method BeginNested() returns (id: Option<nat>)
      requires Valid(Abs())
      modifies this
      ensures Valid(Abs())
      ensures match Begin(old(Abs()), Current(old(Abs())).limit)
              case None => id == None && Abs() == old(Abs())
              case Some(t) => id == Some(old(next)) && Abs() == t
    {
      id := BeginNestedWithMeterParams(frames[|frames| - 1].limit);
    }

    method BeginNestedWithMeterParams(limit: nat) returns (id: Option<nat>)
      requires Valid(Abs())
      modifies this
      ensures Valid(Abs())
      ensures match Begin(old(Abs()), limit)
              case None => id == None && Abs() == old(Abs())
              case Some(t) => id == Some(old(next)) && Abs() == t
    {
      var current := frames[|frames| - 1];
      if current.restricted.Some? {
        return None;
      }
      id := Some(next);
      frames := frames + [Frame(next, current.ctl, map[], 0, limit, None)];
      next := next + 1;
    }

    method BeginNestedForDerivedData() returns (id: Option<nat>)
      requires Valid(Abs())
      modifies this
      ensures Valid(Abs())
      ensures match BeginDerived(old(Abs()))
              case None => id == None && Abs() == old(Abs())
              case Some(t) => id == Some(old(next)) && Abs() == t
    {
      var current := frames[|frames| - 1];
      if current.restricted.Some? {
        return None;
      }
      id := Some(next);
      var limit := if current.ctl in off then NO_LIMIT else current.limit;
      frames := frames + [Frame(next, next, map[], 0, limit, None)];
      next := next + 1;
    }

    method MergeIntoParent()
      requires Valid(Abs()) && |frames| >= 2
      modifies this
      ensures Valid(Abs()) && Abs() == MergedIntoParent(old(Abs()))
      ensures |frames| == old(|frames|) - 1 && forall i | 0 <= i < |frames| :: frames[i].id == old(frames[i].id)
    {
      var child := frames[|frames| - 1];
      frames := frames[..|frames| - 1];
      Attach(child.writes, child.meter);
    }

    /** AttachAndCommitNestedTransaction: Merge of a finalized snapshot. */
    method Attach(writes: Writes, meter: nat)
      requires Valid(Abs())
      modifies this
      ensures Valid(Abs()) && Abs() == Merged(old(Abs()), writes, meter)
    {
      var parent := frames[|frames| - 1];
      parent := parent.(writes := parent.writes + writes);
      if parent.ctl !in off {
        parent := parent.(meter := parent.meter + meter);
      }
      frames := frames[..|frames| - 1] + [parent];
    }

    /** The committed snapshot's writes, or None. */
    method CommitNested(id: nat) returns (snapshot: Option<Writes>)
      requires Valid(Abs())
      modifies this
      ensures Valid(Abs())
      ensures match Commit(old(Abs()), id)
              case None => snapshot == None && Abs() == old(Abs())
              case Some(t) => snapshot == Some(Current(old(Abs())).writes) && Abs() == t
    {
      var current := frames[|frames| - 1];
      if current.id != id || current.restricted.Some? || |frames| < 2 {
        return None;
      }
      MergeIntoParent();
      snapshot := Some(current.writes);
    }

    /** Looks the frame up before merging anything, merges down to it and drops its
        writes. */
    method RestartNested(id: nat) returns (ok: bool)
      requires Valid(Abs())
      modifies this
      ensures Valid(Abs())
      ensures match Restart(old(Abs()), id)
              case None => !ok && Abs() == old(Abs())
              case Some(t) => ok && Abs() == t
    {
      hide Position, MergedDown, MergedIntoParent;
      var found := false;
      var i := 0;
      while i < |frames| && !found
        invariant 0 <= i <= |frames|
        invariant found ==> i < |frames| && frames[i].id == id
        invariant forall j | 0 <= j < i :: frames[j].id != id
        decreases |frames| - i, !found
      {
        if frames[i].id == id {
          found := true;
        } else {
          i := i + 1;
        }
      }
      if !found {
        return false;
      }
      PositionOf(Abs(), i);
      while frames[|frames| - 1].id != id
        invariant Valid(Abs()) && i < |frames| && frames[i].id == id
        invariant MergedDown(Abs(), i) == MergedDown(old(Abs()), i)
        decreases |frames|
      {
        MergedDownStep(Abs(), i);
        MergeIntoParent();
      }
      MergedDownHere(Abs(), i);
      DropChanges();
      ok := true;
    }

    method DropChanges()
      requires Valid(Abs())
      modifies this
      ensures Valid(Abs()) && Abs() == Dropped(old(Abs()))
    {
      frames := frames[..|frames| - 1] + [frames[|frames| - 1].(writes := map[])];
    }

    method Get(store: Writes, r: Register) returns (v: Option<Value>)
      requires Valid(Abs())
      ensures v == Lookup(frames, store, r)
    {
      var i := |frames|;
      assert frames[..i] == frames;
      while i > 0
        invariant 0 <= i <= |frames|
        invariant Lookup(frames, store, r) == Lookup(frames[..i], store, r)
      {
        assert frames[..i][..i - 1] == frames[..i - 1];
        if r in frames[i - 1].writes {
          return Some(frames[i - 1].writes[r]);
        }
        i := i - 1;
      }
      v := if r in store then Some(store[r]) else None;
    }

    method Put(r: Register, v: Value)
      requires Valid(Abs())
      modifies this
      ensures Valid(Abs()) && Abs() == Set(old(Abs()), r, v)
    {
      var current := frames[|frames| - 1];
      frames := frames[..|frames| - 1] + [current.(writes := current.writes[r := v])];
    }

    /** Foreign code runs: the sum of what it does. */
    method Run(e: Effect)
      requires Valid(Abs())
      modifies this
      ensures Valid(Abs()) && Abs() == Foreign(old(Abs()), e)
    {
      hide PushAll, Valid;
      Attach(e.writes, e.used);
      ghost var m := Abs();
      ValidSome(m);
      Nothing(m);
      for i := 0 to |e.open|
        invariant Valid(Abs()) && frames != [] && PushAll(m, e.open) == PushAll(Abs(), e.open[i..])
      {
        var h := e.open[i];
        ValidSome(Abs());
        PushValid(Abs(), Frame(next, frames[|frames| - 1].ctl, h.writes, h.meter, h.limit, h.restricted));
        PushAllStep(Abs(), e.open[i..]);
        assert e.open[i..][1..] == e.open[i + 1..];
        frames := frames + [Frame(next, frames[|frames| - 1].ctl, h.writes, h.meter, h.limit, h.restricted)];
        next := next + 1;
      }
      ValidSome(Abs());
      Nothing(Abs());
    }

    /** The two halves of RunWithMeteringDisabled. */
    method DisableMetering() returns (ctl: nat, current: bool)
      requires Valid(Abs())
      modifies this`off
      ensures Valid(Abs()) && Abs() == old(Abs()).(off := old(off) + {ctl})
      ensures ctl == Current(Abs()).ctl && current == (ctl !in old(off))
    {
      ctl := frames[|frames| - 1].ctl;
      current := ctl !in off;
      off := off + {ctl};
    }

    method RestoreMetering(ctl: nat, current: bool)
      requires Valid(Abs()) && ctl < next
      modifies this`off
      ensures Valid(Abs()) && Abs() == old(Abs()).(off := if current then old(off) - {ctl} else old(off) + {ctl})
    {
      off := if current then off - {ctl} else off + {ctl};
    }

    /** RunWithMeteringDisabled around foreign code. */
    method RunUnmetered(e: Effect)
      requires Valid(Abs())
      modifies this
      ensures Valid(Abs()) && Abs() == Unmeteredly(old(Abs()), e)
    {
      hide Foreign;
      var ctl, current := DisableMetering();
      ForeignIs(Abs(), e);
      ghost var quiet := Abs();
      Run(e);
      assert off == quiet.off;
      assert ctl in off;
      RestoreMetering(ctl, current);
      assert off == old(off);
    }

    /** The writes of the main transaction, or None when nested ones are open. */
    method Finalize() returns (writes: Option<Writes>)
      requires Valid(Abs())
      ensures writes == if |frames| > 1 then None else Some(frames[0].writes)
    {
      if |frames| > 1 {
        return None;
      }
      writes := Some(frames[0].writes);
    }
  }
}
