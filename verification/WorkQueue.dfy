/** Bounded message stores, the notifier that wakes consumers, and the handler that
    feeds them (engine/enqueue.go, engine/fifoqueue.go, engine/notifier.go). */
module WorkQueue {
  import opened Bytes

  datatype Message = Message(origin: bytes, payload: bytes)

  /** A channel of capacity one: sending to a full one does nothing. */
  class Notifier {
    var token: bool

    constructor ()
      ensures !token
    {
      token := false;
    }

    method Notify()
      modifies this
      ensures token
    {
      token := true;
    }

    /** A receive that does not wait: one receiver gets the token. */
    method Take() returns (taken: bool)
      modifies this
      ensures taken == old(token) && !token
    {
      taken := token;
      token := false;
    }
  }

  /** A queue that drops what exceeds its capacity. */
  class FifoMessageStore {
    var queue: seq<Message>
    const maxCapacity: nat

    ghost predicate Valid()
      reads this
    {
      |queue| <= maxCapacity
    }

    constructor (maxCapacity: nat)
      ensures Valid() && queue == [] && this.maxCapacity == maxCapacity
    {
      this.maxCapacity := maxCapacity;
      queue := [];
    }

    method Put(m: Message) returns (ok: bool)
      requires Valid()
      modifies this
      ensures Valid() && ok == (old(|queue|) < maxCapacity)
      ensures queue == if ok then old(queue) + [m] else old(queue)
    {
      ok := |queue| < maxCapacity;
      if ok {
        queue := queue + [m];
      }
    }

    method Get() returns (m: Option<Message>)
      requires Valid()
      modifies this
      ensures Valid() && (m == None <==> old(queue) == [])
      ensures m.Some? ==> old(queue) == [m.value] + queue
      ensures m.None? ==> queue == old(queue)
    {
      if queue == [] {
        return None;
      }
      m := Some(queue[0]);
      queue := queue[1..];
    }
  }

  /** A store must have room for a message. */
  method NewFifoMessageStore(maxCapacity: int) returns (store: Option<FifoMessageStore>)
    ensures store == None <==> maxCapacity < 1
    ensures store.Some? ==>
      fresh(store.value) && store.value.Valid() && store.value.queue == [] && store.value.maxCapacity == maxCapacity
  {
    if maxCapacity < 1 {
      return None;
    }
    var s := new FifoMessageStore(maxCapacity);
    store := Some(s);
  }

  /** `mapping` None stores messages as they are; its result None drops them. */
  datatype Pattern = Pattern(matches: Message -> bool, mapping: Option<Message -> Option<Message>>, store: FifoMessageStore)

  ghost predicate FirstMatch(patterns: seq<Pattern>, m: Message, i: nat) {
    i < |patterns| && patterns[i].matches(m) && forall j | 0 <= j < i :: !patterns[j].matches(m)
  }

  function Mapped(p: Pattern, m: Message): Option<Message> {
    if p.mapping.None? then Some(m) else (p.mapping.value)(m)
  }

  class MessageHandler {
    const notifier: Notifier
    const patterns: seq<Pattern>

    constructor (notifier: Notifier, patterns: seq<Pattern>)
      ensures this.notifier == notifier && this.patterns == patterns
    {
      this.notifier, this.patterns := notifier, patterns;
    }

    ghost function Stores(): set<FifoMessageStore> {
      set p | p in patterns :: p.store
    }

    /** The first matching pattern takes the message: mapped and stored in its store
        alone, with a notification exactly if it was stored. */
    method Process(m: Message) returns (matched: bool)
      requires forall s | s in Stores() :: s.Valid()
      modifies notifier, Stores()
      ensures forall s | s in Stores() :: s.Valid()
      ensures matched <==> exists i: nat :: FirstMatch(patterns, m, i)
      ensures !matched ==> unchanged(notifier, Stores())
      ensures forall i: nat | FirstMatch(patterns, m, i) ::
        var s, mapped := patterns[i].store, Mapped(patterns[i], m);
        (forall t | t in Stores() && t != s :: t.queue == old(t.queue))
        && if mapped.Some? && |old(s.queue)| < s.maxCapacity then s.queue == old(s.queue) + [mapped.value] && notifier.token
           else s.queue == old(s.queue) && notifier.token == old(notifier.token)
    {
      for k := 0 to |patterns|
        invariant forall j | 0 <= j < k :: !patterns[j].matches(m)
        invariant unchanged(notifier, Stores())
      {
        var p := patterns[k];
        if p.matches(m) {
          assert FirstMatch(patterns, m, k) && forall i: nat | FirstMatch(patterns, m, i) :: i == k;
          assert p in patterns && p.store in Stores();
          var mapped := m;
          if p.mapping.Some? {
            var r := (p.mapping.value)(m);
            if r.None? {
              return true;
            }
            mapped := r.value;
          }
          var ok := p.store.Put(mapped);
          if !ok {
            return true;
          }
          notifier.Notify();
          return true;
        }
      }
      matched := false;
    }
  }
}
