/** The storage check after a transaction body (fvm/transactionStorageLimiter.go) and
    the payer's balance check before it (fvm/transactionPayerBalanceChecker.go). */
module StorageLimits {
  import opened Bytes
  import opened NestedTransactions
  import Executor
  import ExecutorLaws

  /** Eight bytes, compared byte by byte. */
  type Address = bytes

  const ADDRESS_LENGTH := 8

  predicate Less(a: bytes, b: bytes) {
    b != [] && (a == [] || a[0] < b[0] || (a[0] == b[0] && Less(a[1..], b[1..])))
  }

  lemma {:induction false} LessTotal(a: bytes, b: bytes)
    ensures Less(a, b) || a == b || Less(b, a)
    ensures !(Less(a, b) && Less(b, a)) && !Less(a, a)
  {
    if a != [] && b != [] {
      LessTotal(a[1..], b[1..]);
      assert a == [a[0]] + a[1..] && b == [b[0]] + b[1..];
    }
    if a != [] {
      LessTotal(a[1..], a[1..]);
    }
  }

  lemma {:induction false} LessTransitive(a: bytes, b: bytes, c: bytes)
    requires Less(a, b) && Less(b, c)
    ensures Less(a, c)
  {
    if a != [] && a[0] == b[0] == c[0] {
      LessTransitive(a[1..], b[1..], c[1..]);
    }
  }

  lemma {:induction false} FromBECons(x: byte, t: bytes)
    ensures FromBE([x] + t) == x as nat * Pow256(|t|) + FromBE(t)
  {
    if t == [] {
      assert ([x] + t)[..0] == [];
    } else {
      var n := |t| - 1;
      FromBECons(x, t[..n]);
      assert ([x] + t)[..|t|] == [x] + t[..n];
      Regroup(x as nat, Pow256(n), FromBE(t[..n]));
    }
  }

  lemma Regroup(x: nat, p: nat, f: nat)
    ensures (x * p + f) * 256 == x * (256 * p) + f * 256
  {
  }

  lemma LeadingDecides(x: nat, y: nat, p: nat, f: nat, g: nat)
    requires x < y && f < p
    ensures x * p + f < y * p + g
  {
    assert (x + 1) * p <= y * p;
  }

  /** Addresses are ordered as the numbers they are written as. */
  lemma {:induction false} LessIsNumeric(a: bytes, b: bytes)
    requires |a| == |b|
    ensures Less(a, b) <==> FromBE(a) < FromBE(b)
  {
    if a != [] {
      var s, t := a[1..], b[1..];
      assert a == [a[0]] + s && b == [b[0]] + t;
      FromBECons(a[0], s);
      FromBECons(b[0], t);
      ToFromBE(s);
      ToFromBE(t);
      LessIsNumeric(s, t);
      if a[0] < b[0] {
        LeadingDecides(a[0] as nat, b[0] as nat, Pow256(|s|), FromBE(s), FromBE(t));
      } else if b[0] < a[0] {
        LeadingDecides(b[0] as nat, a[0] as nat, Pow256(|s|), FromBE(t), FromBE(s));
      }
    }
  }

  // ----- which accounts are checked

  /** Strictly descending, hence without repetition. */
  ghost predicate Descending(s: seq<Address>) {
    forall i, j | 0 <= i < j < |s| :: Less(s[j], s[i])
  }

  /** The accounts a check is about: the payer if fees are due, and the owner of every
      written register except the one holding the EVM's state. */
  ghost predicate Listed(a: Address, written: set<Register>, payer: Address, maxFees: nat, evm: Address) {
    (maxFees > 0 && a == payer)
    || (|a| == ADDRESS_LENGTH && a != evm && exists r | r in written :: r.owner == a)
  }

  /** slices.SortFunc in reverse order. */
  function Inserted(a: Address, s: seq<Address>): seq<Address> {
    if s == [] || Less(s[0], a) then [a] + s else [s[0]] + Inserted(a, s[1..])
  }

  function Sorted(s: seq<Address>): seq<Address> {
    if s == [] then [] else Inserted(s[0], Sorted(s[1..]))
  }

  lemma {:induction false} InsertedDescends(a: Address, s: seq<Address>)
    requires Descending(s) && a !in s
    ensures Descending(Inserted(a, s))
    ensures forall b :: b in Inserted(a, s) <==> b == a || b in s
  {
    if s == [] {
    } else if Less(s[0], a) {
      forall b | b in s ensures Less(b, a) {
        if b != s[0] {
          var j :| 0 <= j < |s| && s[j] == b;
          LessTransitive(b, s[0], a);
        }
      }
    } else {
      LessTotal(a, s[0]);
      InsertedDescends(a, s[1..]);
      var t := Inserted(a, s[1..]);
      forall b | b in t ensures Less(b, s[0]) {
        if b != a {
          var j :| 0 <= j < |s[1..]| && s[1..][j] == b;
          assert s[j + 1] == b;
        }
      }
      assert forall b :: b in s <==> b == s[0] || b in s[1..];
    }
  }

  lemma {:induction false} SortedDescends(s: seq<Address>)
    requires forall i, j | 0 <= i < j < |s| :: s[i] != s[j]
    ensures Descending(Sorted(s)) && forall b :: b in Sorted(s) <==> b in s
  {
    if s != [] {
      SortedDescends(s[1..]);
      assert s[0] !in s[1..];
      InsertedDescends(s[0], Sorted(s[1..]));
      assert forall b :: b in s <==> b == s[0] || b in s[1..];
    }
  }

  /** A descending list is fixed by its members, so the order in which a map is walked
      does not matter. */
  lemma {:induction false} DescendingUnique(s: seq<Address>, t: seq<Address>)
    requires Descending(s) && Descending(t) && forall b :: b in s <==> b in t
    ensures s == t
  {
    assert t != [] ==> t[0] in t;
    if s != [] {
      assert s[0] in s && s[0] in t;
      assert t[0] in t && t[0] in s;
      SameHead(s, t);
      forall b ensures b in s[1..] <==> b in t[1..] {
        TailMembers(s, b);
        TailMembers(t, b);
      }
      DescendingUnique(s[1..], t[1..]);
      assert s == [s[0]] + s[1..] && t == [t[0]] + t[1..];
    }
  }

  lemma SameHead(s: seq<Address>, t: seq<Address>)
    requires Descending(s) && Descending(t) && s != [] && t != [] && s[0] in t && t[0] in s
    ensures s[0] == t[0]
  {
    if s[0] != t[0] {
      assert Less(s[0], t[0]);
      assert Less(t[0], s[0]);
      LessTotal(s[0], t[0]);
    }
  }

  lemma TailMembers(s: seq<Address>, b: Address)
    requires Descending(s) && s != []
    ensures b in s[1..] <==> b in s && b != s[0]
  {
    if b in s[1..] {
      var j :| 0 <= j < |s[1..]| && s[1..][j] == b;
      assert Less(s[j + 1], s[0]);
      LessTotal(b, s[0]);
    }
  }

  /** Walks the written registers in any order, keeping each account once. */
  method GetStorageCheckAddresses(written: set<Register>, payer: Address, maxFees: nat, evm: Address)
    returns (addresses: seq<Address>)
    ensures Descending(addresses)
    ensures forall a :: a in addresses <==>
      (maxFees > 0 && a == payer) || (|a| == 8 && a != evm && exists r | r in written :: r.owner == a)
  {
    var dedup: set<Address> := {};
    addresses := [];
    if maxFees > 0 {
      dedup := {payer};
      addresses := [payer];
    }
    var left := written;
    while left != {}
      invariant left <= written
      invariant forall a :: a in addresses <==> a in dedup
      invariant forall a :: a in dedup <==> Listed(a, written - left, payer, maxFees, evm)
      invariant forall i, j | 0 <= i < j < |addresses| :: addresses[i] != addresses[j]
      decreases |left|
    {
      var id :| id in left;
      ghost var before := written - left;
      left := left - {id};
      assert written - left == before + {id};
      if |id.owner| != ADDRESS_LENGTH || id.owner == evm || id.owner in dedup {
        continue;
      }
      dedup := dedup + {id.owner};
      addresses := addresses + [id.owner];
    }
    assert written - left == written;
    SortedDescends(addresses);
    addresses := Sorted(addresses);
  }

  // ----- whether they fit

  datatype Usage = Used(n: nat) | Unreadable(code: nat)

  /** What the storage contract answers: capacities in units of 10^-8 megabytes. */
  datatype Answer = Capacities(values: seq<nat>) | NotAnArray | CallFailed(code: nat)

  datatype LimitError =
    | ReadError(code: nat)
    | CallError(code: nat)
    | NoArray
    | WrongCount
    | Exceeded(address: Address, used: nat, capacity: nat)

  function ToBytes(value: nat): nat {
    value / 100
  }

  function Unread(addresses: seq<Address>, used: Address -> Usage): Option<LimitError> {
    if addresses == [] then None
    else if used(addresses[0]).Unreadable? then Some(ReadError(used(addresses[0]).code))
    else Unread(addresses[1..], used)
  }

  /** The first account over its capacity. */
  function Over(addresses: seq<Address>, used: Address -> Usage, values: seq<nat>): Option<LimitError>
    requires |values| == |addresses|
  {
    if addresses == [] then None
    else
      var u, capacity := used(addresses[0]), ToBytes(values[0]);
      if u.Used? && u.n > capacity then Some(Exceeded(addresses[0], u.n, capacity))
      else Over(addresses[1..], used, values[1..])
  }

  function Verdict(addresses: seq<Address>, used: Address -> Usage, answer: Answer): Option<LimitError> {
    if Unread(addresses, used).Some? then Unread(addresses, used)
    else match answer
      case CallFailed(code) => Some(CallError(code))
      case NotAnArray => Some(NoArray)
      case Capacities(values) => if |values| != |addresses| then Some(WrongCount) else Over(addresses, used, values)
  }

  /** Every listed account fits what the contract allows it; a hundred units make a
      byte. */
  ghost predicate Fit(addresses: seq<Address>, used: Address -> Usage, values: seq<nat>) {
    |values| == |addresses|
    && forall i | 0 <= i < |addresses| :: used(addresses[i]).Used? && used(addresses[i]).n * 100 <= values[i]
  }

  lemma WithinCapacity(n: nat, value: nat)
    ensures n <= ToBytes(value) <==> n * 100 <= value
  {
  }

  lemma {:induction false} UnreadIff(addresses: seq<Address>, used: Address -> Usage)
    ensures Unread(addresses, used) == None <==> forall i | 0 <= i < |addresses| :: used(addresses[i]).Used?
  {
    if addresses != [] {
      UnreadIff(addresses[1..], used);
      assert forall i | 0 < i < |addresses| :: addresses[i] == addresses[1..][i - 1];
    }
  }

  lemma {:induction false} OverIff(addresses: seq<Address>, used: Address -> Usage, values: seq<nat>)
    requires |values| == |addresses|
    ensures Over(addresses, used, values) == None
       <==> forall i | 0 <= i < |addresses| :: used(addresses[i]).Used? ==> used(addresses[i]).n <= ToBytes(values[i])
  {
    if addresses != [] {
      OverIff(addresses[1..], used, values[1..]);
      assert forall i | 0 < i < |addresses| :: addresses[i] == addresses[1..][i - 1] && values[i] == values[1..][i - 1];
    }
  }

  lemma VerdictIff(addresses: seq<Address>, used: Address -> Usage, answer: Answer)
    ensures Verdict(addresses, used, answer) == None <==> answer.Capacities? && Fit(addresses, used, answer.values)
  {
    UnreadIff(addresses, used);
    if answer.Capacities? && |answer.values| == |addresses| {
      OverIff(addresses, used, answer.values);
      forall i | 0 <= i < |addresses| && used(addresses[i]).Used?
        ensures used(addresses[i]).n <= ToBytes(answer.values[i]) <==> used(addresses[i]).n * 100 <= answer.values[i]
      {
        WithinCapacity(used(addresses[i]).n, answer.values[i]);
      }
    }
  }

  lemma {:induction false} UnreadAt(addresses: seq<Address>, used: Address -> Usage, k: nat)
    requires k < |addresses| && used(addresses[k]).Unreadable? && forall i | 0 <= i < k :: used(addresses[i]).Used?
    ensures Unread(addresses, used) == Some(ReadError(used(addresses[k]).code))
  {
    if k > 0 {
      assert addresses[k] == addresses[1..][k - 1];
      assert forall i | 0 < i < k :: addresses[i] == addresses[1..][i - 1];
      UnreadAt(addresses[1..], used, k - 1);
    }
  }

  lemma {:induction false} OverAt(addresses: seq<Address>, used: Address -> Usage, values: seq<nat>, k: nat)
    requires |values| == |addresses| && k < |addresses| && forall i | 0 <= i <= k :: used(addresses[i]).Used?
    requires used(addresses[k]).n > ToBytes(values[k]) && forall i | 0 <= i < k :: used(addresses[i]).n <= ToBytes(values[i])
    ensures Over(addresses, used, values) == Some(Exceeded(addresses[k], used(addresses[k]).n, ToBytes(values[k])))
  {
    if k > 0 {
      assert addresses[k] == addresses[1..][k - 1] && values[k] == values[1..][k - 1];
      assert forall i | 0 < i < k :: addresses[i] == addresses[1..][i - 1] && values[i] == values[1..][i - 1];
      OverAt(addresses[1..], used, values[1..], k - 1);
    }
  }

  /** The first unreadable usage is the error, whatever the contract says; else a bad
      answer is; else the first account that exceeds its capacity, with that capacity in
      whole bytes. */
  lemma VerdictTable(addresses: seq<Address>, used: Address -> Usage, answer: Answer, k: nat)
    ensures k < |addresses| && used(addresses[k]).Unreadable? && (forall i | 0 <= i < k :: used(addresses[i]).Used?) ==>
      Verdict(addresses, used, answer) == Some(ReadError(used(addresses[k]).code))
    ensures (forall i | 0 <= i < |addresses| :: used(addresses[i]).Used?) ==>
      match answer
      case CallFailed(code) => Verdict(addresses, used, answer) == Some(CallError(code))
      case NotAnArray => Verdict(addresses, used, answer) == Some(NoArray)
      case Capacities(values) =>
        (|values| != |addresses| ==> Verdict(addresses, used, answer) == Some(WrongCount))
        && (|values| == |addresses| && k < |addresses| && used(addresses[k]).n * 100 > values[k]
            && (forall i | 0 <= i < k :: used(addresses[i]).n * 100 <= values[i]) ==>
              Verdict(addresses, used, answer) == Some(Exceeded(addresses[k], used(addresses[k]).n, values[k] / 100)))
  {
    UnreadIff(addresses, used);
    if k < |addresses| && used(addresses[k]).Unreadable? && forall i | 0 <= i < k :: used(addresses[i]).Used? {
      UnreadAt(addresses, used, k);
    }
    if (forall i | 0 <= i < |addresses| :: used(addresses[i]).Used?) && answer.Capacities? && |answer.values| == |addresses| && k < |addresses| {
      var values := answer.values;
      forall i | 0 <= i <= k
        ensures used(addresses[i]).n <= ToBytes(values[i]) <==> used(addresses[i]).n * 100 <= values[i]
      {
        WithinCapacity(used(addresses[i]).n, values[i]);
      }
      if used(addresses[k]).n * 100 > values[k] && forall i | 0 <= i < k :: used(addresses[i]).n * 100 <= values[i] {
        OverAt(addresses, used, values, k);
      }
    }
  }

  /** The check itself; the contract is asked once, about all listed accounts in order. */
  method CheckStorageLimits(
    enabled: bool, written: set<Register>, payer: Address, maxFees: nat, evm: Address,
    used: Address -> Usage, ask: seq<Address> -> Answer)
    returns (err: Option<LimitError>)
    ensures !enabled ==> err == None
    ensures enabled ==>
      exists addresses ::
        Descending(addresses) && (forall a :: a in addresses <==> Listed(a, written, payer, maxFees, evm))
        && err == Verdict(addresses, used, ask(addresses))
    ensures enabled ==>
      forall addresses | Descending(addresses) && (forall a :: a in addresses <==> Listed(a, written, payer, maxFees, evm)) ::
        err == Verdict(addresses, used, ask(addresses))
  {
    if !enabled {
      return None;
    }
    var addresses := GetStorageCheckAddresses(written, payer, maxFees, evm);
    forall s | Descending(s) && (forall a :: a in s <==> Listed(a, written, payer, maxFees, evm)) ensures s == addresses {
      DescendingUnique(s, addresses);
    }
    err := Compare(addresses, used, ask(addresses));
  }

  method Compare(addresses: seq<Address>, used: Address -> Usage, answer: Answer) returns (err: Option<LimitError>)
    ensures err == Verdict(addresses, used, answer)
  {
    var usages: seq<nat> := [];
    for i := 0 to |addresses|
      invariant |usages| == i
      invariant forall j | 0 <= j < i :: used(addresses[j]) == Used(usages[j])
    {
      var u := used(addresses[i]);
      if u.Unreadable? {
        UnreadAt(addresses, used, i);
        return Some(ReadError(u.code));
      }
      usages := usages + [u.n];
    }
    UnreadIff(addresses, used);
    if answer.CallFailed? {
      return Some(CallError(answer.code));
    }
    if answer.NotAnArray? {
      return Some(NoArray);
    }
    var values := answer.values;
    if |addresses| != |values| {
      return Some(WrongCount);
    }
    for i := 0 to |addresses|
      invariant forall j | 0 <= j < i :: usages[j] <= ToBytes(values[j])
    {
      var capacity := ToBytes(values[i]);
      if usages[i] > capacity {
        OverAt(addresses, used, values, i);
        return Some(Exceeded(addresses[i], usages[i], capacity));
      }
    }
    OverIff(addresses, used, values);
    err := None;
  }

  // ----- the payer's balance

  datatype Field = Bool(b: bool) | UFix64(n: nat) | OtherField

  /** What the fee contract answers. */
  datatype Reply = Struct(fields: map<string, Field>) | OtherReply | ReplyFailed(code: nat)

  datatype BalanceError = CheckFailed(code: nat) | Undecodable(field: string) | Insufficient(required: nat)

  datatype MaxFees = Fees(max: nat) | Refused(why: BalanceError)

  const CAN_EXECUTE := "canExecuteTransaction"
  const REQUIRED_BALANCE := "requiredBalance"
  const MAXIMUM_FEES := "maximumTransactionFees"

  function FieldOf(r: Reply, name: string): Field {
    if r.Struct? && name in r.fields then r.fields[name] else OtherField
  }

  /** The reply has the field with this content. */
  ghost predicate Says(r: Reply, name: string, f: Field) {
    r.Struct? && name in r.fields && r.fields[name] == f
  }

  ghost predicate SaysNumber(r: Reply, name: string) {
    r.Struct? && name in r.fields && r.fields[name].UFix64?
  }

  ghost predicate SaysBool(r: Reply, name: string) {
    r.Struct? && name in r.fields && r.fields[name].Bool?
  }

  /** The result is the contract's maximum exactly when its reply decodes and lets the
      payer pay; without fees it is zero.  The fields are decoded in order. */
  method CheckPayerBalanceAndReturnMaxFees(fees: bool, reply: Reply) returns (r: MaxFees)
    ensures !fees ==> r == Fees(0)
    ensures fees && reply.ReplyFailed? ==> r == Refused(CheckFailed(reply.code))
    ensures fees && reply.OtherReply? ==> r == Refused(Undecodable(""))
    ensures fees && reply.Struct? && !SaysBool(reply, "canExecuteTransaction") ==> r == Refused(Undecodable("canExecuteTransaction"))
    ensures fees && SaysBool(reply, "canExecuteTransaction") && !SaysNumber(reply, "requiredBalance") ==>
      r == Refused(Undecodable("requiredBalance"))
    ensures fees && SaysBool(reply, "canExecuteTransaction") && SaysNumber(reply, "requiredBalance") && !SaysNumber(reply, "maximumTransactionFees") ==>
      r == Refused(Undecodable("maximumTransactionFees"))
    ensures fees ==> forall max ::
      r == Fees(max) <==>
        Says(reply, "canExecuteTransaction", Bool(true)) && SaysNumber(reply, "requiredBalance") && Says(reply, "maximumTransactionFees", UFix64(max))
    ensures fees ==> forall n ::
      r == Refused(Insufficient(n)) <==>
        Says(reply, "canExecuteTransaction", Bool(false)) && Says(reply, "requiredBalance", UFix64(n)) && SaysNumber(reply, "maximumTransactionFees")
  {
    if !fees {
      return Fees(0);
    }
    if reply.ReplyFailed? {
      return Refused(CheckFailed(reply.code));
    }
    if !reply.Struct? {
      return Refused(Undecodable(""));
    }
    var can, required, max := FieldOf(reply, CAN_EXECUTE), FieldOf(reply, REQUIRED_BALANCE), FieldOf(reply, MAXIMUM_FEES);
    if !can.Bool? {
      return Refused(Undecodable(CAN_EXECUTE));
    }
    if !required.UFix64? {
      return Refused(Undecodable(REQUIRED_BALANCE));
    }
    if !max.UFix64? {
      return Refused(Undecodable(MAXIMUM_FEES));
    }
    if !can.b {
      return Refused(Insufficient(required.n));
    }
    r := Fees(max.n);
  }

  // ----- paying keeps the payer within capacity

  ghost predicate Monotone(f: int -> nat) {
    forall a, b | a <= b :: f(a) <= f(b)
  }

  /** The contracts: the fee of a computation, the capacity of a balance, and the answer
      that treats the payer as if the maximum had been paid. */
  ghost predicate Contracts(
    feeOf: int -> nat, capacityOf: int -> nat, balances: Address -> int,
    payer: Address, maxFees: nat, ask: seq<Address> -> Answer)
  {
    Monotone(feeOf) && Monotone(capacityOf)
    && forall s :: ask(s).Capacities? ==> Priced(s, ask(s).values, capacityOf, balances, payer, maxFees)
  }

  ghost predicate Priced(
    s: seq<Address>, values: seq<nat>, capacityOf: int -> nat, balances: Address -> int, payer: Address, maxFees: nat)
  {
    |values| == |s|
    && forall i | 0 <= i < |s| :: values[i] == capacityOf(if s[i] == payer then balances(payer) - maxFees else balances(s[i]))
  }

  /** Every charge that is paid costs at most the maximum computed from the limit; so a
      payer who passed the storage check still fits after paying.  With a maximum of
      zero the payer need not be checked, and pays nothing. */
  lemma PayerStillFits(
    w: Executor.World, store: Writes, charge: nat, feeOf: int -> nat, capacityOf: int -> nat, balances: Address -> int,
    addresses: seq<Address>, written: set<Register>, payer: Address, evm: Address, used: Address -> Usage, ask: seq<Address> -> Answer)
    requires ExecutorLaws.Owed(w, store, charge)
    requires Contracts(feeOf, capacityOf, balances, payer, feeOf(w.limit), ask)
    requires forall a :: a in addresses <==> Listed(a, written, payer, feeOf(w.limit), evm)
    requires Verdict(addresses, used, ask(addresses)) == None
    ensures feeOf(charge) <= feeOf(w.limit)
    ensures payer in addresses ==> used(payer).Used? && used(payer).n * 100 <= capacityOf(balances(payer) - feeOf(charge))
    ensures payer !in addresses ==> feeOf(charge) == 0
  {
    ExecutorLaws.OwedBelowLimit(w, store, charge);
    VerdictIff(addresses, used, ask(addresses));
    if payer in addresses {
      var i :| 0 <= i < |addresses| && addresses[i] == payer;
      assert ask(addresses).values[i] == capacityOf(balances(payer) - feeOf(w.limit));
    }
  }
}
