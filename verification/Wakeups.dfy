/** Any number of producers and consumers around the stores and the notifier: a
    producer stores and then notifies, a consumer waits for the token and then takes
    messages until it has found every store empty in one pass
    (engine/enqueue.go, engine/notifier.go, and the consumer loop of
    engine/common/synchronization/request_handler.go). */
module Wakeups {
  import opened Bytes
  import opened WorkQueue

  /** A consumer waits at the notifier, or is about to ask store `next`; past the last
      store it goes back to waiting. */
  datatype Consumer = Waiting | Scanning(next: nat)

  datatype Config = Config(capacities: seq<nat>, producers: nat, consumers: nat)

  /** `notifying[p]`: producer p has stored a message and not notified yet.  The last
      two fields record, per store, what was accepted and handed out so far. */
  datatype State = State(
    queues: seq<seq<Message>>, token: bool, notifying: seq<bool>, consumers: seq<Consumer>,
    accepted: seq<seq<Message>>, delivered: seq<seq<Message>>)

  datatype Label = Store(p: nat, q: nat, m: Message) | Notify(p: nat) | Take(k: nat) | Ask(k: nat)

  function Initial(c: Config): State {
    var n := |c.capacities|;
    State(seq(n, _ => []), false, seq(c.producers, _ => false), seq(c.consumers, _ => Waiting), seq(n, _ => []), seq(n, _ => []))
  }

  predicate Shape(c: Config, s: State) {
    |s.queues| == |c.capacities| == |s.accepted| == |s.delivered|
    && |s.notifying| == c.producers && |s.consumers| == c.consumers
    && forall k | 0 <= k < |s.consumers| :: s.consumers[k].Scanning? ==> s.consumers[k].next <= |c.capacities|
  }

  predicate Enabled(c: Config, s: State, l: Label)
    requires Shape(c, s)
  {
    match l
    case Store(p, q, m) => p < c.producers && !s.notifying[p] && q < |c.capacities|
    case Notify(p) => p < c.producers && s.notifying[p]
    case Take(k) => k < c.consumers && s.consumers[k].Waiting? && s.token
    case Ask(k) => k < c.consumers && s.consumers[k].Scanning?
  }

  function Apply(c: Config, s: State, l: Label): State
    requires Shape(c, s) && Enabled(c, s, l)
  {
    match l
    case Store(p, q, m) =>
      if |s.queues[q]| < c.capacities[q] then
        s.(queues := s.queues[q := s.queues[q] + [m]], accepted := s.accepted[q := s.accepted[q] + [m]],
           notifying := s.notifying[p := true])
      else s
    case Notify(p) => s.(token := true, notifying := s.notifying[p := false])
    case Take(k) => s.(token := false, consumers := s.consumers[k := Scanning(0)])
    case Ask(k) =>
      var q := s.consumers[k].next;
      if q == |c.capacities| then s.(consumers := s.consumers[k := Waiting])
      else if s.queues[q] == [] then s.(consumers := s.consumers[k := Scanning(q + 1)])
      else
        s.(queues := s.queues[q := s.queues[q][1..]], delivered := s.delivered[q := s.delivered[q] + [s.queues[q][0]]],
           consumers := s.consumers[k := Scanning(0)])
  }

  // ----- no lost wake-up

  ghost predicate SomeoneNotifies(s: State) {
    exists p | 0 <= p < |s.notifying| :: s.notifying[p]
  }

  /** A draining consumer still has the store ahead of it. */
  ghost predicate SomeoneComes(s: State, q: nat) {
    exists k | 0 <= k < |s.consumers| :: s.consumers[k].Scanning? && s.consumers[k].next <= q
  }

  ghost predicate Covered(s: State, q: nat) {
    s.token || SomeoneNotifies(s) || SomeoneComes(s, q)
  }

  /** What each store accepted is what it handed out followed by what it holds, and it
      holds no more than its capacity. */
  ghost predicate Conserved(c: Config, s: State, q: nat)
    requires Shape(c, s) && q < |c.capacities|
  {
    s.accepted[q] == s.delivered[q] + s.queues[q] && |s.queues[q]| <= c.capacities[q]
  }

  ghost predicate Inv(c: Config, s: State) {
    Shape(c, s) && forall q | 0 <= q < |c.capacities| :: Conserved(c, s, q) && (s.queues[q] != [] ==> Covered(s, q))
  }

  lemma InitInv(c: Config)
    ensures Inv(c, Initial(c))
  {
  }

  lemma StepInv(c: Config, s: State, l: Label)
    requires Inv(c, s) && Enabled(c, s, l)
    ensures Inv(c, Apply(c, s, l))
  {
    var t := Apply(c, s, l);
    forall q | 0 <= q < |c.capacities| ensures Conserved(c, t, q) && (t.queues[q] != [] ==> Covered(t, q)) {
      assert Conserved(c, s, q);
      match l
      case Store(p, _, m) =>
        if t != s {
          assert t.notifying[p];
        }
      case Notify(p) =>
      case Take(k) => assert t.consumers[k].next <= q;
      case Ask(k) =>
        if t.queues[q] != [] {
          AskCovers(c, s, k, q);
        }
    }
  }

  lemma AskCovers(c: Config, s: State, k: nat, q: nat)
    requires Inv(c, s) && Enabled(c, s, Ask(k)) && q < |c.capacities| && Apply(c, s, Ask(k)).queues[q] != []
    ensures Covered(Apply(c, s, Ask(k)), q)
  {
    var t := Apply(c, s, Ask(k));
    assert Covered(s, q);
    if s.token {
    } else if SomeoneNotifies(s) {
      var p :| 0 <= p < |s.notifying| && s.notifying[p];
      assert t.notifying[p];
    } else {
      var j :| 0 <= j < |s.consumers| && s.consumers[j].Scanning? && s.consumers[j].next <= q;
      if j != k {
        assert t.consumers[j] == s.consumers[j];
      } else {
        assert t.consumers[k].Scanning? && t.consumers[k].next <= q;
      }
    }
  }

  // ----- progress

  function Messages(queues: seq<seq<Message>>): nat {
    if queues == [] then 0 else |queues[0]| + Messages(queues[1..])
  }

  function Count(bits: seq<bool>): nat {
    if bits == [] then 0 else (if bits[0] then 1 else 0) + Count(bits[1..])
  }

  function Rank(n: nat, k: Consumer): nat {
    if k.Scanning? && k.next <= n then n + 1 - k.next else 0
  }

  function Ranks(n: nat, ks: seq<Consumer>): nat {
    if ks == [] then 0 else Rank(n, ks[0]) + Ranks(n, ks[1..])
  }

  /** The steps left to do if nothing more is stored. */
  function Measure(c: Config, s: State): nat {
    var n := |c.capacities|;
    (n + 2) * Messages(s.queues) + (if s.token then n + 2 else 0) + (n + 3) * Count(s.notifying) + Ranks(n, s.consumers)
  }

  lemma {:induction false} MessagesUpdate(queues: seq<seq<Message>>, q: nat, x: seq<Message>)
    requires q < |queues|
    ensures Messages(queues[q := x]) == Messages(queues) - |queues[q]| + |x|
  {
    if q == 0 {
      assert queues[q := x][1..] == queues[1..];
    } else {
      MessagesUpdate(queues[1..], q - 1, x);
      assert queues[q := x][1..] == queues[1..][q - 1 := x];
    }
  }

  lemma {:induction false} CountUpdate(bits: seq<bool>, p: nat)
    requires p < |bits| && bits[p]
    ensures Count(bits[p := false]) == Count(bits) - 1
  {
    if p == 0 {
      assert bits[p := false][1..] == bits[1..];
    } else {
      CountUpdate(bits[1..], p - 1);
      assert bits[p := false][1..] == bits[1..][p - 1 := false];
    }
  }

  lemma {:induction false} RanksUpdate(n: nat, ks: seq<Consumer>, k: nat, x: Consumer)
    requires k < |ks|
    ensures Ranks(n, ks[k := x]) == Ranks(n, ks) - Rank(n, ks[k]) + Rank(n, x)
  {
    if k == 0 {
      assert ks[k := x][1..] == ks[1..];
    } else {
      RanksUpdate(n, ks[1..], k - 1, x);
      assert ks[k := x][1..] == ks[1..][k - 1 := x];
    }
  }

  lemma MeasureDecreases(c: Config, s: State, l: Label)
    requires Inv(c, s) && Enabled(c, s, l) && !l.Store?
    ensures Measure(c, Apply(c, s, l)) < Measure(c, s)
  {
    hide Inv, Messages, Count, Ranks;
    assert Shape(c, s) by { InvShape(c, s); }
    var n := |c.capacities|;
    match l
    case Notify(p) =>
      CountUpdate(s.notifying, p);
      Distribute(n + 3, Count(s.notifying) - 1);
    case Take(k) => RanksUpdate(n, s.consumers, k, Scanning(0));
    case Ask(k) =>
      var q := s.consumers[k].next;
      if q == n {
        RanksUpdate(n, s.consumers, k, Waiting);
      } else if s.queues[q] == [] {
        RanksUpdate(n, s.consumers, k, Scanning(q + 1));
      } else {
        RanksUpdate(n, s.consumers, k, Scanning(0));
        MessagesUpdate(s.queues, q, s.queues[q][1..]);
        Distribute(n + 2, Messages(s.queues) - 1);
      }
  }

  lemma InvShape(c: Config, s: State)
    requires Inv(c, s)
    ensures Shape(c, s)
  {
  }

  lemma Distribute(a: nat, b: int)
    ensures a * (b + 1) == a * b + a
  {
  }

  /** Something can move while a store holds a message. */
  lemma Progress(c: Config, s: State, q: nat) returns (l: Label)
    requires Inv(c, s) && q < |c.capacities| && s.queues[q] != [] && c.consumers > 0
    ensures !l.Store? && Enabled(c, s, l)
  {
    assert Covered(s, q);
    if k :| 0 <= k < |s.consumers| && s.consumers[k].Scanning? {
      l := Ask(k);
    } else if p :| 0 <= p < |s.notifying| && s.notifying[p] {
      l := Notify(p);
    } else {
      assert s.consumers[0].Waiting?;
      l := Take(0);
    }
  }

  // ----- runs

  /** The state after a run, if every step of it could happen. */
  function Run(c: Config, labels: seq<Label>): (r: Option<State>)
    ensures r.Some? ==> Inv(c, r.value)
  {
    if labels == [] then InitInv(c); Some(Initial(c))
    else
      var n := |labels| - 1;
      var r := Run(c, labels[..n]);
      if r.Some? && Enabled(c, r.value, labels[n]) then
        StepInv(c, r.value, labels[n]);
        Some(Apply(c, r.value, labels[n]))
      else None
  }

  /** In every reachable state a store with a message has a token, a producer about to
      notify or a consumer on its way; and messages leave in the order they were
      accepted, each once. */
  lemma NoLostWakeup(c: Config, labels: seq<Label>, q: nat)
    requires Run(c, labels).Some? && q < |c.capacities|
    ensures
      var s := Run(c, labels).value;
      (s.queues[q] != [] ==> Covered(s, q)) && s.accepted[q] == s.delivered[q] + s.queues[q]
      && |s.queues[q]| <= c.capacities[q]
  {
    assert Conserved(c, Run(c, labels).value, q);
  }

  ghost predicate Quiet(labels: seq<Label>) {
    forall i | 0 <= i < |labels| :: !labels[i].Store?
  }

  /** Once nothing more is stored, only so many steps are left ... */
  lemma {:induction false} QuietRunsEnd(c: Config, labels: seq<Label>, more: seq<Label>)
    requires Quiet(more) && Run(c, labels + more).Some?
    ensures Run(c, labels).Some?
    ensures |more| + Measure(c, Run(c, labels + more).value) <= Measure(c, Run(c, labels).value)
    decreases |more|
  {
    hide Measure, Enabled, Apply, Inv;
    if more == [] {
      assert labels + more == labels;
    } else {
      var n := |more| - 1;
      assert (labels + more)[..|labels + more| - 1] == labels + more[..n];
      QuietRunsEnd(c, labels, more[..n]);
      MeasureDecreases(c, Run(c, labels + more[..n]).value, more[n]);
    }
  }

  /** ... and where none is left, every accepted message was handed out. */
  lemma StuckMeansDrained(c: Config, labels: seq<Label>, q: nat)
    requires Run(c, labels).Some? && c.consumers > 0 && q < |c.capacities|
    requires forall l: Label | !l.Store? :: !Enabled(c, Run(c, labels).value, l)
    ensures Run(c, labels).value.queues[q] == [] && Run(c, labels).value.delivered[q] == Run(c, labels).value.accepted[q]
  {
    var s := Run(c, labels).value;
    assert Conserved(c, s, q);
    if s.queues[q] != [] {
      var l := Progress(c, s, q);
      assert false;
    }
  }

  // ----- what is accepted

  /** The messages that producers put into a store, whether it took them or not. */
  function Offered(labels: seq<Label>, q: nat): seq<Message> {
    if labels == [] then []
    else
      var n := |labels| - 1;
      Offered(labels[..n], q) + if labels[n].Store? && labels[n].q == q then [labels[n].m] else []
  }

  lemma RunStep(c: Config, labels: seq<Label>, l: Label)
    requires Run(c, labels).Some?
    ensures Run(c, labels + [l]) == if Enabled(c, Run(c, labels).value, l) then Some(Apply(c, Run(c, labels).value, l)) else None
  {
    assert (labels + [l])[..|labels|] == labels;
  }

  /** A producer that has notified can always put another message.  The store takes it
      exactly if it holds fewer than its capacity, and then the producer has to notify;
      else nothing happens.  No other store, producer or consumer is concerned. */
  lemma PutIsTaken(c: Config, labels: seq<Label>, p: nat, q: nat, m: Message)
    requires Run(c, labels).Some? && p < c.producers && q < |c.capacities| && !Run(c, labels).value.notifying[p]
    ensures
      var s, r := Run(c, labels).value, Run(c, labels + [Store(p, q, m)]);
      r.Some?
      && if |s.accepted[q]| - |s.delivered[q]| < c.capacities[q]
         then r.value.accepted == s.accepted[q := s.accepted[q] + [m]] && r.value.notifying == s.notifying[p := true]
              && r.value.delivered == s.delivered && r.value.token == s.token && r.value.consumers == s.consumers
         else r.value == s
  {
    RunStep(c, labels, Store(p, q, m));
    assert Conserved(c, Run(c, labels).value, q);
  }

  /** A producer that has put a message can always notify, which leaves the token set and
      the producer free; stores and consumers stay. */
  lemma NotifyNeverBlocks(c: Config, labels: seq<Label>, p: nat)
    requires Run(c, labels).Some? && p < c.producers && Run(c, labels).value.notifying[p]
    ensures
      var s, r := Run(c, labels).value, Run(c, labels + [Notify(p)]);
      r.Some? && r.value.token && r.value.notifying == s.notifying[p := false]
      && r.value.queues == s.queues && r.value.accepted == s.accepted && r.value.delivered == s.delivered && r.value.consumers == s.consumers
  {
    RunStep(c, labels, Notify(p));
  }

  /** A waiting consumer goes on exactly if there is a token, and takes it. */
  lemma OneConsumerPerToken(c: Config, labels: seq<Label>, k: nat)
    requires Run(c, labels).Some? && k < c.consumers && Run(c, labels).value.consumers[k].Waiting?
    ensures
      var s, r := Run(c, labels).value, Run(c, labels + [Take(k)]);
      if s.token then
        r.Some? && !r.value.token && r.value.consumers == s.consumers[k := Scanning(0)]
        && r.value.accepted == s.accepted && r.value.delivered == s.delivered && r.value.notifying == s.notifying
      else r.None?
  {
    RunStep(c, labels, Take(k));
  }

  /** A draining consumer is handed the oldest message not handed out of the store it asks,
      and starts over; from an empty store it goes on to the next, past the last it goes
      back to wait. */
  lemma AskIsAnswered(c: Config, labels: seq<Label>, k: nat)
    requires Run(c, labels).Some? && k < c.consumers && Run(c, labels).value.consumers[k].Scanning?
    ensures
      var s, r := Run(c, labels).value, Run(c, labels + [Ask(k)]);
      var q := s.consumers[k].next;
      r.Some? && r.value.token == s.token && r.value.accepted == s.accepted && r.value.notifying == s.notifying
      && if q == |c.capacities| then r.value.delivered == s.delivered && r.value.consumers == s.consumers[k := Waiting]
         else if |s.delivered[q]| == |s.accepted[q]| then r.value.delivered == s.delivered && r.value.consumers == s.consumers[k := Scanning(q + 1)]
         else |s.delivered[q]| < |s.accepted[q]|
              && r.value.delivered == s.delivered[q := s.delivered[q] + [s.accepted[q][|s.delivered[q]|]]]
              && r.value.consumers == s.consumers[k := Scanning(0)]
  {
    hide Run, Inv, Apply, Enabled;
    RunStep(c, labels, Ask(k));
    InvShape(c, Run(c, labels).value);
    AskStep(c, Run(c, labels).value, k);
  }

  lemma AskStep(c: Config, s: State, k: nat)
    requires Inv(c, s) && k < c.consumers && s.consumers[k].Scanning?
    ensures Enabled(c, s, Ask(k))
    ensures
      var t, q := Apply(c, s, Ask(k)), s.consumers[k].next;
      q <= |c.capacities| && t.token == s.token && t.accepted == s.accepted && t.notifying == s.notifying
      && if q == |c.capacities| then t.delivered == s.delivered && t.consumers == s.consumers[k := Waiting]
         else if |s.delivered[q]| == |s.accepted[q]| then t.delivered == s.delivered && t.consumers == s.consumers[k := Scanning(q + 1)]
         else |s.delivered[q]| < |s.accepted[q]|
              && t.delivered == s.delivered[q := s.delivered[q] + [s.accepted[q][|s.delivered[q]|]]]
              && t.consumers == s.consumers[k := Scanning(0)]
  {
    var q := s.consumers[k].next;
    if q < |c.capacities| {
      assert Conserved(c, s, q);
    }
  }

  lemma StartsEmpty(c: Config, q: nat)
    requires q < |c.capacities|
    ensures Run(c, []).Some? && Run(c, []).value.accepted[q] == [] && Run(c, []).value.delivered[q] == [] && !Run(c, []).value.token
  {
  }

  /** If no more is put into a store than it can hold at once, it takes everything. */
  lemma {:induction false} AllOffersTaken(c: Config, labels: seq<Label>, q: nat)
    requires Run(c, labels).Some? && q < |c.capacities| && |Offered(labels, q)| <= c.capacities[q]
    ensures Run(c, labels).value.accepted[q] == Offered(labels, q)
  {
    hide Apply, Inv;
    if labels == [] {
      StartsEmpty(c, q);
    } else {
      var n := |labels| - 1;
      var before, l := labels[..n], labels[n];
      assert labels == before + [l];
      AllOffersTaken(c, before, q);
      var s := Run(c, before).value;
      assert Shape(c, s) by { InvShape(c, s); }
      match l
      case Store(p, i, m) => PutIsTaken(c, before, p, i, m);
      case Notify(p) => NotifyNeverBlocks(c, before, p);
      case Take(k) => OneConsumerPerToken(c, before, k);
      case Ask(k) => AskIsAnswered(c, before, k);
    }
  }

  /** So then, once nothing more happens, everything put into it was handed out, in order. */
  lemma AllOffersDelivered(c: Config, labels: seq<Label>, q: nat)
    requires Run(c, labels).Some? && q < |c.capacities| && |Offered(labels, q)| <= c.capacities[q] && c.consumers > 0
    requires forall l: Label | !l.Store? :: !Enabled(c, Run(c, labels).value, l)
    ensures Run(c, labels).value.delivered[q] == Offered(labels, q)
  {
    hide Run;
    AllOffersTaken(c, labels, q);
    StuckMeansDrained(c, labels, q);
  }
}
