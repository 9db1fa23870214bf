/** Hashes of the sparse Merkle tree of ledger/trie.go.

    The fully expanded tree has one leaf for every path of 256 bits.  `Expanded`
    is its hash, computed top down from an assignment of values to paths; the
    loops of the source compute the same value bottom up for a subtree that holds
    one register, and look it up in a table for a subtree that holds none. */
module Merkle {
  import opened Bytes
  import opened LedgerFormat

  const MAX_HEIGHT: nat := 256

  /** HashLeaf, HashInterNode and the hash of the default leaf, all uninterpreted. */
  datatype Hasher<!H> = Hasher(leaf: (Path, bytes) -> H, node: (H, H) -> H, empty: H)

  // ----- bits of a path, most significant first

  function ShiftRight(x: nat, k: nat): nat {
    if k == 0 then x else ShiftRight(x / 2, k - 1)
  }

  /** bitutils.ReadBit; false outside the path. */
  predicate Bit(p: Path, i: int) {
    0 <= i < MAX_HEIGHT && ShiftRight(p[i / 8] as nat, 7 - i % 8) % 2 == 1
  }

  ghost predicate HasPrefix(p: Path, prefix: seq<bool>) {
    |prefix| <= MAX_HEIGHT && forall i | 0 <= i < |prefix| :: Bit(p, i) == prefix[i]
  }

  lemma PrefixExtends(p: Path, prefix: seq<bool>, b: bool)
    requires |prefix| < MAX_HEIGHT
    ensures HasPrefix(p, prefix + [b]) <==> HasPrefix(p, prefix) && Bit(p, |prefix|) == b
  {
    if HasPrefix(p, prefix + [b]) {
      forall i | 0 <= i < |prefix| ensures Bit(p, i) == prefix[i] {
        assert (prefix + [b])[i] == prefix[i];
      }
      assert (prefix + [b])[|prefix|] == b;
    }
  }

  /** Numbers below 2^n are determined by their n low bits. */
  lemma {:induction false} NumbersByBits(x: nat, y: nat, n: nat)
    requires ShiftRight(x, n) == 0 && ShiftRight(y, n) == 0
    requires forall k | 0 <= k < n :: ShiftRight(x, k) % 2 == ShiftRight(y, k) % 2
    ensures x == y
  {
    if n != 0 {
      assert ShiftRight(x, 0) % 2 == ShiftRight(y, 0) % 2;
      forall k | 0 <= k < n - 1 ensures ShiftRight(x / 2, k) % 2 == ShiftRight(y / 2, k) % 2 {
        assert ShiftRight(x, k + 1) % 2 == ShiftRight(y, k + 1) % 2;
      }
      NumbersByBits(x / 2, y / 2, n - 1);
    }
  }

  lemma {:induction false} ShiftOut(x: nat, n: nat, bound: nat)
    requires x < bound && bound == Power(n)
    ensures ShiftRight(x, n) == 0
  {
    if n != 0 {
      ShiftOut(x / 2, n - 1, Power(n - 1));
    }
  }

  function Power(n: nat): nat {
    if n == 0 then 1 else 2 * Power(n - 1)
  }

  /** 256 bits determine the path. */
  lemma FullPrefixUnique(p: Path, q: Path, prefix: seq<bool>)
    requires |prefix| == MAX_HEIGHT && HasPrefix(p, prefix) && HasPrefix(q, prefix)
    ensures p == q
  {
    forall k | 0 <= k < PATH_LEN ensures p[k] == q[k] {
      var x, y := p[k] as nat, q[k] as nat;
      forall m | 0 <= m < 8 ensures ShiftRight(x, m) % 2 == ShiftRight(y, m) % 2 {
        var i := 8 * k + 7 - m;
        assert i / 8 == k && i % 8 == 7 - m;
        assert Bit(p, i) == prefix[i] == Bit(q, i);
      }
      assert Power(8) == 256;
      ShiftOut(x, 8, 256);
      ShiftOut(y, 8, 256);
      NumbersByBits(x, y, 8);
    }
  }

  // ----- paths as numbers

  lemma Doubled(c: nat, n: nat)
    requires n > 0
    ensures c * Power(n) == 2 * (c * Power(n - 1))
  {
  }

  lemma Halved(m: nat, y: nat)
    ensures (2 * m + y) / 2 == m + y / 2 && (2 * m + y) % 2 == y % 2
  {
  }

  /** Shifting right is division by a power of two. */
  lemma {:induction false} ShiftDivides(x: nat, k: nat) returns (rest: nat)
    ensures rest < Power(k) && x == ShiftRight(x, k) * Power(k) + rest
  {
    rest := 0;
    if k > 0 {
      rest := ShiftDivides(x / 2, k - 1);
      Doubled(ShiftRight(x / 2, k - 1), k);
      rest := 2 * rest + x % 2;
    }
  }

  lemma {:induction false} ShiftTwice(x: nat, j: nat, k: nat)
    ensures ShiftRight(x, j + k) == ShiftRight(ShiftRight(x, j), k)
  {
    if j > 0 {
      ShiftTwice(x / 2, j - 1, k);
    }
  }

  /** The last digits of a number do not reach its higher ones, nor they its. */
  lemma {:induction false} ShiftSplit(c: nat, y: nat, n: nat, e: nat)
    requires y < Power(n)
    ensures ShiftRight(c * Power(n) + y, n) == c
    ensures e < n ==> ShiftRight(c * Power(n) + y, e) % 2 == ShiftRight(y, e) % 2
  {
    if n > 0 {
      Doubled(c, n);
      Halved(c * Power(n - 1), y);
      ShiftSplit(c, y / 2, n - 1, if e > 0 then e - 1 else 0);
    }
  }

  lemma ShiftByte(c: nat, y: nat, e: nat)
    requires y < 256
    ensures ShiftRight(c * 256 + y, 8) == c
    ensures e < 8 ==> ShiftRight(c * 256 + y, e) % 2 == ShiftRight(y, e) % 2
  {
    assert Power(8) == 256;
    ShiftSplit(c, y, 8, e);
  }

  lemma {:induction false} BytesAsNumber(b: bytes, i: nat)
    requires i < 8 * |b|
    ensures ShiftRight(b[i / 8] as nat, 7 - i % 8) % 2 == ShiftRight(FromBE(b), 8 * |b| - 1 - i) % 2
  {
    var n := |b| - 1;
    var c, y := FromBE(b[..n]), b[n] as nat;
    if i / 8 == n {
      ShiftByte(c, y, 7 - i % 8);
    } else {
      ShiftByte(c, y, 0);
      ShiftTwice(FromBE(b), 8, 8 * n - 1 - i);
      BytesAsNumber(b[..n], i);
    }
  }

  /** Bit `i` of a path is the digit of weight 2^(255 - i) of the number it is. */
  lemma BitIsDigit(p: Path, i: nat) returns (high: nat, low: nat)
    requires i < MAX_HEIGHT
    ensures low < Power(MAX_HEIGHT - 1 - i)
    ensures FromBE(p) == (2 * high + if Bit(p, i) then 1 else 0) * Power(MAX_HEIGHT - 1 - i) + low
  {
    var e := MAX_HEIGHT - 1 - i;
    low := ShiftDivides(FromBE(p), e);
    BytesAsNumber(p, i);
    OneMore(ShiftRight(FromBE(p), e));
    high := ShiftRight(ShiftRight(FromBE(p), e), 1);
  }

  lemma {:induction false} AgreeingBits(p: Path, q: Path, i: nat)
    requires i <= MAX_HEIGHT && forall k | 0 <= k < i :: Bit(p, k) == Bit(q, k)
    ensures ShiftRight(FromBE(p), MAX_HEIGHT - i) == ShiftRight(FromBE(q), MAX_HEIGHT - i)
  {
    if i == 0 {
      PathBelow(p);
      PathBelow(q);
    } else {
      AgreeingBits(p, q, i - 1);
      BytesAsNumber(p, i - 1);
      BytesAsNumber(q, i - 1);
      assert Bit(p, i - 1) == Bit(q, i - 1);
      ShiftTwice(FromBE(p), MAX_HEIGHT - i, 1);
      ShiftTwice(FromBE(q), MAX_HEIGHT - i, 1);
      OneMore(ShiftRight(FromBE(p), MAX_HEIGHT - i));
      OneMore(ShiftRight(FromBE(q), MAX_HEIGHT - i));
    }
  }

  lemma OneMore(x: nat)
    ensures x == 2 * ShiftRight(x, 1) + x % 2
  {
    assert ShiftRight(x, 1) == ShiftRight(x / 2, 0);
  }

  lemma {:induction false} BelowShiftsOut(b: bytes)
    ensures ShiftRight(FromBE(b), 8 * |b|) == 0
  {
    if b != [] {
      var n := |b| - 1;
      BelowShiftsOut(b[..n]);
      ShiftByte(FromBE(b[..n]), b[n] as nat, 0);
      ShiftTwice(FromBE(b), 8, 8 * n);
    }
  }

  lemma PathBelow(p: Path)
    ensures ShiftRight(FromBE(p), MAX_HEIGHT) == 0
  {
    BelowShiftsOut(p);
  }

  lemma {:induction false} ShiftMonotone(x: nat, y: nat, k: nat)
    requires ShiftRight(x, k) < ShiftRight(y, k)
    ensures x < y
  {
    if k > 0 {
      ShiftMonotone(x / 2, y / 2, k - 1);
    }
  }

  /** Paths are ordered by the first bit in which they differ. */
  lemma FirstDifferenceOrders(p: Path, q: Path, i: nat)
    requires i < MAX_HEIGHT && Bit(p, i) != Bit(q, i) && forall k | 0 <= k < i :: Bit(p, k) == Bit(q, k)
    ensures Bit(q, i) <==> FromBE(p) < FromBE(q)
  {
    AgreeingBits(p, q, i);
    var e := MAX_HEIGHT - 1 - i;
    BytesAsNumber(p, i);
    BytesAsNumber(q, i);
    ShiftTwice(FromBE(p), e, 1);
    ShiftTwice(FromBE(q), e, 1);
    OneMore(ShiftRight(FromBE(p), e));
    OneMore(ShiftRight(FromBE(q), e));
    if Bit(q, i) {
      ShiftMonotone(FromBE(p), FromBE(q), e);
    } else {
      ShiftMonotone(FromBE(q), FromBE(p), e);
    }
  }

  // ----- the fully expanded tree

  ghost predicate AllocatedAt(regs: Path -> bytes, prefix: seq<bool>, p: Path) {
    HasPrefix(p, prefix) && regs(p) != []
  }

  ghost function Expanded<H>(hs: Hasher<H>, regs: Path -> bytes, prefix: seq<bool>): H
    requires |prefix| <= MAX_HEIGHT
    decreases MAX_HEIGHT - |prefix|
  {
    if |prefix| < MAX_HEIGHT then
      hs.node(Expanded(hs, regs, prefix + [false]), Expanded(hs, regs, prefix + [true]))
    else if exists p :: AllocatedAt(regs, prefix, p) then
      var p :| AllocatedAt(regs, prefix, p);
      hs.leaf(p, regs(p))
    else
      hs.empty
  }

  /** Only the registers under the prefix matter. */
  lemma {:induction false} ExpandedDepends<H>(hs: Hasher<H>, regs: Path -> bytes, regs': Path -> bytes, prefix: seq<bool>)
    requires |prefix| <= MAX_HEIGHT
    requires forall p | HasPrefix(p, prefix) :: regs(p) == regs'(p)
    ensures Expanded(hs, regs, prefix) == Expanded(hs, regs', prefix)
    decreases MAX_HEIGHT - |prefix|
  {
    if |prefix| < MAX_HEIGHT {
      forall p, b ensures HasPrefix(p, prefix + [b]) ==> HasPrefix(p, prefix) {
        PrefixExtends(p, prefix, b);
      }
      ExpandedDepends(hs, regs, regs', prefix + [false]);
      ExpandedDepends(hs, regs, regs', prefix + [true]);
    } else {
      forall p ensures AllocatedAt(regs, prefix, p) == AllocatedAt(regs', prefix, p) {}
      forall p, q | AllocatedAt(regs, prefix, p) && AllocatedAt(regs', prefix, q) ensures p == q {
        FullPrefixUnique(p, q, prefix);
      }
    }
  }

  /** Hashes that are the expression hashed. */
  datatype Term = Nothing | Value(path: Path, value: bytes) | Pair(left: Term, right: Term)

  const TERMS: Hasher<Term> := Hasher((p, v) => Value(p, v), (a, b) => Pair(a, b), Nothing)

  /** The registers in a hashed expression, from left to right. */
  function Fringe(t: Term): seq<(Path, bytes)> {
    match t
    case Nothing => []
    case Value(p, v) => [(p, v)]
    case Pair(l, r) => Fringe(l) + Fringe(r)
  }

  /** What is hashed for the expanded tree: every allocated register once, from left to
      right in the numeric order of their paths. */
  lemma {:induction false} LeavesInOrder(regs: Path -> bytes, prefix: seq<bool>)
    requires |prefix| <= MAX_HEIGHT
    ensures
      var f := Fringe(Expanded(TERMS, regs, prefix));
      (forall i, j | 0 <= i < j < |f| :: FromBE(f[i].0) < FromBE(f[j].0))
      && (forall p, v :: (p, v) in f <==> AllocatedAt(regs, prefix, p) && v == regs(p))
    decreases MAX_HEIGHT - |prefix|
  {
    if |prefix| < MAX_HEIGHT {
      LeavesInOrder(regs, prefix + [false]);
      LeavesInOrder(regs, prefix + [true]);
      var l, r := Fringe(Expanded(TERMS, regs, prefix + [false])), Fringe(Expanded(TERMS, regs, prefix + [true]));
      assert Fringe(Expanded(TERMS, regs, prefix)) == l + r;
      forall p, b ensures HasPrefix(p, prefix + [b]) <==> HasPrefix(p, prefix) && Bit(p, |prefix|) == b {
        PrefixExtends(p, prefix, b);
      }
      forall i, j | 0 <= i < |l| && 0 <= j < |r| ensures FromBE(l[i].0) < FromBE(r[j].0) {
        assert (l[i].0, l[i].1) in l && (r[j].0, r[j].1) in r;
        FirstDifferenceOrders(l[i].0, r[j].0, |prefix|);
      }
    } else {
      forall p, q | AllocatedAt(regs, prefix, p) && AllocatedAt(regs, prefix, q) ensures p == q {
        FullPrefixUnique(p, q, prefix);
      }
    }
  }

  // ----- empty subtrees

  function Default<H>(hs: Hasher<H>, height: nat): H {
    if height == 0 then hs.empty else hs.node(Default(hs, height - 1), Default(hs, height - 1))
  }

  /** A subtree without registers has the default hash of its height. */
  lemma {:induction false} EmptySubtree<H>(hs: Hasher<H>, regs: Path -> bytes, prefix: seq<bool>)
    requires |prefix| <= MAX_HEIGHT
    requires forall p :: !AllocatedAt(regs, prefix, p)
    ensures Expanded(hs, regs, prefix) == Default(hs, MAX_HEIGHT - |prefix|)
    decreases MAX_HEIGHT - |prefix|
  {
    if |prefix| < MAX_HEIGHT {
      forall p, b ensures !AllocatedAt(regs, prefix + [b], p) {
        PrefixExtends(p, prefix, b);
        assert !AllocatedAt(regs, prefix, p);
      }
      EmptySubtree(hs, regs, prefix + [false]);
      EmptySubtree(hs, regs, prefix + [true]);
    }
  }

  /** init: the table of default hashes. */
  method InitDefaultHashes<H(0)>(hs: Hasher<H>) returns (table: array<H>)
    ensures fresh(table) && table.Length == MAX_HEIGHT + 1
    ensures forall h | 0 <= h <= MAX_HEIGHT :: table[h] == Default(hs, h)
  {
    table := new H[MAX_HEIGHT + 1];
    table[0] := hs.empty;
    var i := 1;
    while i < MAX_HEIGHT + 1
      invariant 1 <= i <= MAX_HEIGHT + 1
      invariant forall h | 0 <= h < i :: table[h] == Default(hs, h)
    {
      table[i] := hs.node(table[i - 1], table[i - 1]);
      i := i + 1;
    }
  }

  // ----- subtrees with one register

  /** The hash at a height of the branch that leads to the path, all siblings empty. */
  function Branch<H>(hs: Hasher<H>, path: Path, leaf: H, height: nat): H
    requires height <= MAX_HEIGHT
  {
    if height == 0 then leaf
    else if Bit(path, MAX_HEIGHT - height) then hs.node(Default(hs, height - 1), Branch(hs, path, leaf, height - 1))
    else hs.node(Branch(hs, path, leaf, height - 1), Default(hs, height - 1))
  }

  /** The path is the only allocated one under the prefix. */
  ghost predicate OnlyAt(regs: Path -> bytes, prefix: seq<bool>, path: Path) {
    AllocatedAt(regs, prefix, path) && forall p | AllocatedAt(regs, prefix, p) :: p == path
  }

  lemma {:induction false} BranchIsExpanded<H>(hs: Hasher<H>, regs: Path -> bytes, prefix: seq<bool>, path: Path)
    requires |prefix| <= MAX_HEIGHT && OnlyAt(regs, prefix, path)
    ensures Expanded(hs, regs, prefix) == Branch(hs, path, hs.leaf(path, regs(path)), MAX_HEIGHT - |prefix|)
    decreases MAX_HEIGHT - |prefix|
  {
    if |prefix| < MAX_HEIGHT {
      var b := Bit(path, |prefix|);
      forall p, c ensures AllocatedAt(regs, prefix + [c], p) <==> p == path && c == b {
        PrefixExtends(p, prefix, c);
        assert AllocatedAt(regs, prefix, p) ==> p == path;
      }
      BranchIsExpanded(hs, regs, prefix + [b], path);
      EmptySubtree(hs, regs, prefix + [!b]);
    }
  }

  method ComputeCompactValueFromLeafHash<H>(hs: Hasher<H>, table: array<H>, path: Path, leafHash: H, nodeHeight: nat) returns (out: H)
    requires table.Length == MAX_HEIGHT + 1 && forall h | 0 <= h <= MAX_HEIGHT :: table[h] == Default(hs, h)
    requires nodeHeight <= MAX_HEIGHT
    ensures out == Branch(hs, path, leafHash, nodeHeight)
  {
    out := leafHash;
    var h := 1;
    while h <= nodeHeight
      invariant 1 <= h <= nodeHeight + 1
      invariant out == Branch(hs, path, leafHash, h - 1)
    {
      if Bit(path, MAX_HEIGHT - h) {
        out := hs.node(table[h - 1], out);
      } else {
        out := hs.node(out, table[h - 1]);
      }
      h := h + 1;
    }
  }

  /** The hash of a subtree of the given height that holds at most this register:
      it is the hash of the fully expanded subtree on the path's prefix, for any
      registers of which this is the only one there. */
  method ComputeCompactValue<H>(hs: Hasher<H>, table: array<H>, path: Path, value: bytes, nodeHeight: nat,
                                ghost regs: Path -> bytes, ghost prefix: seq<bool>) returns (out: H)
    requires table.Length == MAX_HEIGHT + 1 && forall h | 0 <= h <= MAX_HEIGHT :: table[h] == Default(hs, h)
    requires nodeHeight <= MAX_HEIGHT && |prefix| == MAX_HEIGHT - nodeHeight && HasPrefix(path, prefix)
    requires regs(path) == value && forall p | AllocatedAt(regs, prefix, p) :: p == path
    ensures out == Expanded(hs, regs, prefix)
    ensures value == [] ==> out == Default(hs, nodeHeight)
  {
    if |value| == 0 {
      EmptySubtree(hs, regs, prefix);
      return table[nodeHeight];
    }
    var leafHash := hs.leaf(path, value);
    out := ComputeCompactValueFromLeafHash(hs, table, path, leafHash, nodeHeight);
    BranchIsExpanded(hs, regs, prefix, path);
  }

  // ----- collision-freeness

  /** What IsDefaultNode takes for granted of the hash functions. */
  ghost predicate CollisionFree<H(!new)>(hs: Hasher<H>) {
    (forall a, b, c, d :: hs.node(a, b) == hs.node(c, d) ==> a == c && b == d)
    && (forall p, v, q, w :: hs.leaf(p, v) == hs.leaf(q, w) ==> p == q && v == w)
    && (forall p, v :: hs.leaf(p, v) != hs.empty)
  }

  /** Then the hash of a subtree determines the registers in it. */
  lemma {:induction false} ExpandedInjective<H(!new)>(hs: Hasher<H>, regs: Path -> bytes, regs': Path -> bytes, prefix: seq<bool>, p: Path)
    requires CollisionFree(hs) && HasPrefix(p, prefix)
    requires Expanded(hs, regs, prefix) == Expanded(hs, regs', prefix)
    ensures regs(p) == regs'(p)
    decreases MAX_HEIGHT - |prefix|
  {
    if |prefix| < MAX_HEIGHT {
      var b := Bit(p, |prefix|);
      PrefixExtends(p, prefix, b);
      ExpandedInjective(hs, regs, regs', prefix + [b], p);
    } else {
      forall q | HasPrefix(q, prefix) ensures q == p {
        FullPrefixUnique(p, q, prefix);
      }
      assert AllocatedAt(regs, prefix, p) == (regs(p) != []);
      assert AllocatedAt(regs', prefix, p) == (regs'(p) != []);
    }
  }
}
