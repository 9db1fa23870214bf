/** The copy-on-write trie of ledger/complete/mtrie: nodes with cached hashes,
    single-register lookup, and update with compact leaves and pruning.

    A trie stands for an assignment of values to all paths, the empty value for
    those it does not hold.  Two things are proved of it: an update changes that
    assignment as asked and nowhere else, and the cached root hash is the hash of
    the fully expanded tree of that assignment. */
module MTrie {
  import opened Bytes
  import opened LedgerFormat
  import opened Merkle

  /** A missing child, nil in the source, is None. */
  datatype Node<H> =
    | Leaf(height: nat, path: Path, value: bytes, hash: H)
    | Interim(height: nat, left: Option<Node<H>>, right: Option<Node<H>>, hash: H)

  type Trie<H> = Option<Node<H>>

  /** One register to be written. */
  datatype Write = Write(path: Path, value: bytes)

  // ----- lookup

  function Read<H>(n: Trie<H>, p: Path): bytes
    decreases n
  {
    match n
    case None => []
    case Some(Leaf(_, path, value, _)) => if path == p then value else []
    case Some(Interim(height, l, r, _)) => if Bit(p, MAX_HEIGHT - height) then Read(r, p) else Read(l, p)
  }

  /** readSinglePayload: follow the path until a leaf or nil. */
  method ReadSingle<H>(head: Trie<H>, p: Path, ghost prefix: seq<bool>, ghost hs: Hasher<H>) returns (value: bytes)
    requires WellFormed(hs, head, prefix)
    ensures value == Read(head, p)
  {
    if head.None? { return []; }
    var n := head;
    var depth := MAX_HEIGHT - head.value.height;
    ghost var at := prefix;
    while n.Some? && n.value.Interim?
      invariant WellFormed(hs, n, at) && Read(n, p) == Read(head, p)
      invariant n.Some? ==> depth == MAX_HEIGHT - n.value.height
      decreases n
    {
      if Bit(p, depth) {
        n, at := n.value.right, at + [true];
      } else {
        n, at := n.value.left, at + [false];
      }
      depth := depth + 1;
    }
    if n.Some? && n.value.path == p {
      return n.value.value;
    }
    return [];
  }

  // ----- nodes and their hashes

  /** The hash of a possibly missing child of the given height. */
  function HashOf<H>(hs: Hasher<H>, n: Trie<H>, height: nat): H {
    match n
    case None => Default(hs, height)
    case Some(node) => node.hash
  }

  /** What ComputeCompactValue computes. */
  function CompactHash<H>(hs: Hasher<H>, path: Path, value: bytes, height: nat): H
    requires height <= MAX_HEIGHT
  {
    if value == [] then Default(hs, height) else Branch(hs, path, hs.leaf(path, value), height)
  }

  function NewLeaf<H>(hs: Hasher<H>, path: Path, value: bytes, height: nat): Node<H>
    requires height <= MAX_HEIGHT
  {
    Leaf(height, path, value, CompactHash(hs, path, value, height))
  }

  function NewInterimNode<H>(hs: Hasher<H>, height: nat, l: Trie<H>, r: Trie<H>): Node<H>
    requires height > 0
  {
    Interim(height, l, r, hs.node(HashOf(hs, l, height - 1), HashOf(hs, r, height - 1)))
  }

  /** IsDefaultNode compares hashes; it does not look at the registers. */
  predicate IsDefaultNode<H(==)>(hs: Hasher<H>, n: Trie<H>) {
    n.None? || n.value.hash == Default(hs, n.value.height)
  }

  /** An interim node, or a leaf or nothing when its children leave it no more. */
  function NewInterimCompactifiedNode<H(==)>(hs: Hasher<H>, height: nat, l: Trie<H>, r: Trie<H>): Trie<H>
    requires height > 0
  {
    var l := if IsDefaultNode(hs, l) then None else l;
    var r := if IsDefaultNode(hs, r) then None else r;
    if l.None? && r.None? then None
    else if r.None? && l.value.Leaf? then
      Some(Leaf(height, l.value.path, l.value.value, hs.node(l.value.hash, Default(hs, l.value.height))))
    else if l.None? && r.value.Leaf? then
      Some(Leaf(height, r.value.path, r.value.value, hs.node(Default(hs, r.value.height), r.value.hash)))
    else Some(NewInterimNode(hs, height, l, r))
  }

  /** A trie for the paths that start with the prefix: heights and branches fit,
      leaves lie under the prefix, and every cached hash is the computed one. */
  ghost predicate WellFormed<H>(hs: Hasher<H>, n: Trie<H>, prefix: seq<bool>)
    decreases n
  {
    |prefix| <= MAX_HEIGHT &&
    match n
    case None => true
    case Some(Leaf(height, path, value, hash)) =>
      height == MAX_HEIGHT - |prefix| && HasPrefix(path, prefix) && hash == CompactHash(hs, path, value, height)
    case Some(Interim(height, l, r, hash)) =>
      height == MAX_HEIGHT - |prefix| && height > 0
      && (l.Some? || r.Some?)
      && WellFormed(hs, l, prefix + [false]) && WellFormed(hs, r, prefix + [true])
      && hash == hs.node(HashOf(hs, l, height - 1), HashOf(hs, r, height - 1))
  }

  // ----- the cached hash is the hash of the fully expanded tree

  lemma CompactIsExpanded<H>(hs: Hasher<H>, regs: Path -> bytes, prefix: seq<bool>, path: Path)
    requires HasPrefix(path, prefix) && forall p | AllocatedAt(regs, prefix, p) :: p == path
    ensures Expanded(hs, regs, prefix) == CompactHash(hs, path, regs(path), MAX_HEIGHT - |prefix|)
  {
    if regs(path) == [] {
      EmptySubtree(hs, regs, prefix);
    } else {
      BranchIsExpanded(hs, regs, prefix, path);
    }
  }

  lemma {:induction false} HashIsExpanded<H>(hs: Hasher<H>, n: Trie<H>, prefix: seq<bool>, regs: Path -> bytes)
    requires WellFormed(hs, n, prefix)
    requires forall p | HasPrefix(p, prefix) :: regs(p) == Read(n, p)
    ensures HashOf(hs, n, MAX_HEIGHT - |prefix|) == Expanded(hs, regs, prefix)
    decreases n
  {
    match n
    case None =>
      EmptySubtree(hs, regs, prefix);
    case Some(Leaf(_, path, _, _)) =>
      CompactIsExpanded(hs, regs, prefix, path);
    case Some(Interim(_, l, r, _)) =>
      forall p, b ensures HasPrefix(p, prefix + [b]) <==> HasPrefix(p, prefix) && Bit(p, |prefix|) == b {
        PrefixExtends(p, prefix, b);
      }
      HashIsExpanded(hs, l, prefix + [false], regs);
      HashIsExpanded(hs, r, prefix + [true], regs);
  }

  /** The registers a trie holds. */
  ghost function Registers<H>(n: Trie<H>): Path -> bytes {
    (p: Path) => Read(n, p)
  }

  /** So tries with the same registers have the same root hash, whatever sequence
      of updates built them and whether or not it pruned; and, unless the hash
      functions collide, only those do. */
  lemma RootHashIffSameRegisters<H(!new)>(hs: Hasher<H>, m: Trie<H>, n: Trie<H>)
    requires WellFormed(hs, m, []) && WellFormed(hs, n, [])
    ensures (forall p :: Read(m, p) == Read(n, p)) ==> HashOf(hs, m, MAX_HEIGHT) == HashOf(hs, n, MAX_HEIGHT)
    ensures CollisionFree(hs) && HashOf(hs, m, MAX_HEIGHT) == HashOf(hs, n, MAX_HEIGHT)
            ==> forall p :: Read(m, p) == Read(n, p)
  {
    HashIsExpanded(hs, m, [], Registers(m));
    HashIsExpanded(hs, n, [], Registers(n));
    if forall p :: Read(m, p) == Read(n, p) {
      ExpandedDepends(hs, Registers(m), Registers(n), []);
    }
    if CollisionFree(hs) && HashOf(hs, m, MAX_HEIGHT) == HashOf(hs, n, MAX_HEIGHT) {
      forall p ensures Read(m, p) == Read(n, p) {
        ExpandedInjective(hs, Registers(m), Registers(n), [], p);
      }
    }
  }

  // ----- update

  ghost predicate Distinct(ws: seq<Write>) {
    forall i, j | 0 <= i < j < |ws| :: ws[i].path != ws[j].path
  }

  predicate Writes(ws: seq<Write>, p: Path) {
    exists i | 0 <= i < |ws| :: ws[i].path == p
  }

  /** The writes whose path has the given bit, in order. */
  function Side(ws: seq<Write>, depth: nat, b: bool): seq<Write> {
    if ws == [] then []
    else if Bit(ws[0].path, depth) == b then [ws[0]] + Side(ws[1..], depth, b)
    else Side(ws[1..], depth, b)
  }

  /** What update may be called with at a node: distinct paths under the prefix,
      and a compact leaf carried down from above only where the trie has no node. */
  ghost predicate Updatable<H>(hs: Hasher<H>, n: Trie<H>, ws: seq<Write>, carried: Trie<H>, prefix: seq<bool>) {
    WellFormed(hs, n, prefix) && Distinct(ws)
    && (forall i | 0 <= i < |ws| :: HasPrefix(ws[i].path, prefix))
    && (carried.Some? ==> n.None? && carried.value.Leaf? && HasPrefix(carried.value.path, prefix) && !Writes(ws, carried.value.path))
  }

  /** The leaf to carry down: the one from above, or this node if it is a leaf that
      is not written. */
  function Carry<H>(n: Trie<H>, ws: seq<Write>, carried: Trie<H>): Trie<H> {
    if n.Some? && n.value.Leaf? && !Writes(ws, n.value.path) then n else carried
  }

  function CarryTo<H>(carried: Trie<H>, depth: nat, b: bool): Trie<H> {
    if carried.Some? && carried.value.Leaf? && Bit(carried.value.path, depth) == b then carried else None
  }

  function Child<H>(n: Trie<H>, b: bool): Trie<H> {
    match n
    case Some(Interim(_, l, r, _)) => if b then r else l
    case _ => None
  }

  /** No more recursion: nothing to write, a write to an empty subtree, or a write to
      the one leaf there is. */
  ghost predicate Stops<H>(n: Trie<H>, ws: seq<Write>, carried: Trie<H>) {
    ws == []
    || (|ws| == 1 && n.None? && carried.None?)
    || (|ws| == 1 && n.Some? && n.value.Leaf? && n.value.path == ws[0].path)
  }

  /** The new node, and by how much the number of allocated registers changes. */
  function Update<H(==)>(hs: Hasher<H>, n: Trie<H>, ws: seq<Write>, carried: Trie<H>, prune: bool, prefix: seq<bool>): (Trie<H>, int)
    requires Updatable(hs, n, ws, carried, prefix)
    decreases MAX_HEIGHT - |prefix|
  {
    var height := MAX_HEIGHT - |prefix|;
    if ws == [] then
      if carried.Some? then (Some(NewLeaf(hs, carried.value.path, carried.value.value, height)), 0) else (n, 0)
    else if |ws| == 1 && n.None? && carried.None? then
      (Some(NewLeaf(hs, ws[0].path, ws[0].value, height)), if ws[0].value == [] then 0 else 1)
    else if |ws| == 1 && n.Some? && n.value.Leaf? && n.value.path == ws[0].path then
      if n.value.value == ws[0].value then (n, 0) else
      (Some(NewLeaf(hs, ws[0].path, ws[0].value, height)),
       if ws[0].value == [] then -1 else if n.value.value == [] then 1 else 0)
    else
      StepDown(hs, n, ws, carried, prefix);
      var leaf := Carry(n, ws, carried);
      var (l, dl) := Update(hs, Child(n, false), Side(ws, |prefix|, false), CarryTo(leaf, |prefix|, false), prune, prefix + [false]);
      var (r, dr) := Update(hs, Child(n, true), Side(ws, |prefix|, true), CarryTo(leaf, |prefix|, true), prune, prefix + [true]);
      var d0 := if n.Some? && n.value.Leaf? && Writes(ws, n.value.path) && n.value.value != [] then -1 else 0;
      if n.Some? && n.value.Interim? && l == n.value.left && r == n.value.right then (n, 0)
      else if prune then (NewInterimCompactifiedNode(hs, height, l, r), d0 + dl + dr)
      else (Some(NewInterimNode(hs, height, l, r)), d0 + dl + dr)
  }

  lemma {:induction false} SideSpec(ws: seq<Write>, depth: nat, b: bool)
    ensures forall w :: w in Side(ws, depth, b) <==> w in ws && Bit(w.path, depth) == b
    ensures Distinct(ws) ==> Distinct(Side(ws, depth, b))
  {
    if ws != [] {
      SideSpec(ws[1..], depth, b);
      var rest := Side(ws[1..], depth, b);
      assert forall w :: w in ws <==> w == ws[0] || w in ws[1..];
      if Distinct(ws) {
        forall i | 0 <= i < |rest| ensures rest[i].path != ws[0].path {
          assert rest[i] in ws[1..];
        }
      }
    }
  }

  lemma WritesIffIn(ws: seq<Write>, p: Path)
    ensures Writes(ws, p) <==> exists w :: w in ws && w.path == p
  {
    if exists w :: w in ws && w.path == p {
      var w :| w in ws && w.path == p;
    }
  }

  lemma SideWrites(ws: seq<Write>, depth: nat, b: bool, p: Path)
    ensures Writes(Side(ws, depth, b), p) <==> Writes(ws, p) && Bit(p, depth) == b
  {
    SideSpec(ws, depth, b);
    WritesIffIn(ws, p);
    WritesIffIn(Side(ws, depth, b), p);
  }

  lemma FullDepthStops<H>(hs: Hasher<H>, n: Trie<H>, ws: seq<Write>, carried: Trie<H>, prefix: seq<bool>)
    requires Updatable(hs, n, ws, carried, prefix) && |prefix| == MAX_HEIGHT
    ensures Stops(n, ws, carried)
  {
    if |ws| > 1 {
      FullPrefixUnique(ws[0].path, ws[1].path, prefix);
      assert false;
    }
    if |ws| == 1 && carried.Some? {
      FullPrefixUnique(carried.value.path, ws[0].path, prefix);
      assert false;
    }
    if |ws| == 1 && n.Some? {
      FullPrefixUnique(n.value.path, ws[0].path, prefix);
    }
  }

  /** Below full depth a node that does not stop can be split. */
  lemma StepDown<H>(hs: Hasher<H>, n: Trie<H>, ws: seq<Write>, carried: Trie<H>, prefix: seq<bool>)
    requires Updatable(hs, n, ws, carried, prefix) && !Stops(n, ws, carried)
    ensures |prefix| < MAX_HEIGHT
    ensures forall b :: Updatable(hs, Child(n, b), Side(ws, |prefix|, b), CarryTo(Carry(n, ws, carried), |prefix|, b), prefix + [b])
  {
    if |prefix| == MAX_HEIGHT {
      FullDepthStops(hs, n, ws, carried, prefix);
    }
    forall b ensures Updatable(hs, Child(n, b), Side(ws, |prefix|, b), CarryTo(Carry(n, ws, carried), |prefix|, b), prefix + [b]) {
      var side := Side(ws, |prefix|, b);
      SideSpec(ws, |prefix|, b);
      forall i | 0 <= i < |side| ensures HasPrefix(side[i].path, prefix + [b]) {
        assert side[i] in side;
        PrefixExtends(side[i].path, prefix, b);
      }
      var leaf := Carry(n, ws, carried);
      if leaf.Some? {
        PrefixExtends(leaf.value.path, prefix, b);
        SideWrites(ws, |prefix|, b, leaf.value.path);
      }
    }
  }

  // ----- what an update does

  ghost function ValueWritten(ws: seq<Write>, p: Path): bytes
    requires Writes(ws, p)
  {
    var i :| 0 <= i < |ws| && ws[i].path == p;
    ws[i].value
  }

  lemma WrittenOnce(ws: seq<Write>, i: nat)
    requires Distinct(ws) && i < |ws|
    ensures Writes(ws, ws[i].path) && ValueWritten(ws, ws[i].path) == ws[i].value
  {
  }

  lemma SideValue(ws: seq<Write>, depth: nat, b: bool, p: Path)
    requires Distinct(ws) && Writes(Side(ws, depth, b), p)
    ensures Writes(ws, p) && ValueWritten(Side(ws, depth, b), p) == ValueWritten(ws, p)
  {
    SideSpec(ws, depth, b);
    var side := Side(ws, depth, b);
    var i :| 0 <= i < |side| && side[i].path == p;
    assert side[i] in ws;
    var j :| 0 <= j < |ws| && ws[j] == side[i];
    WrittenOnce(side, i);
    WrittenOnce(ws, j);
  }

  /** The value a register has after the writes. */
  ghost function After<H>(n: Trie<H>, ws: seq<Write>, carried: Trie<H>, p: Path): bytes {
    if Writes(ws, p) then ValueWritten(ws, p)
    else if carried.Some? && carried.value.Leaf? && carried.value.path == p then carried.value.value
    else Read(n, p)
  }

  /** The new trie holds exactly the registers asked for. */
  ghost predicate Updated<H>(hs: Hasher<H>, n: Trie<H>, ws: seq<Write>, carried: Trie<H>, prefix: seq<bool>, m: Trie<H>) {
    WellFormed(hs, m, prefix)
    && forall p | HasPrefix(p, prefix) :: Read(m, p) == After(n, ws, carried, p)
  }

  /** The number of allocated registers. */
  function Count<H>(n: Trie<H>): nat
    decreases n
  {
    match n
    case None => 0
    case Some(Leaf(_, _, value, _)) => if value == [] then 0 else 1
    case Some(Interim(_, l, r, _)) => Count(l) + Count(r)
  }

  lemma {:induction false} EmptyCount<H>(hs: Hasher<H>, n: Trie<H>, prefix: seq<bool>)
    requires WellFormed(hs, n, prefix) && forall p | HasPrefix(p, prefix) :: Read(n, p) == []
    ensures Count(n) == 0
    decreases n
  {
    match n
    case None =>
    case Some(Leaf(_, path, _, _)) =>
      assert Read(n, path) == [];
    case Some(Interim(_, l, r, _)) =>
      forall p, b | HasPrefix(p, prefix + [b]) ensures Read(if b then r else l, p) == [] {
        PrefixExtends(p, prefix, b);
        assert Read(n, p) == [];
      }
      EmptyCount(hs, l, prefix + [false]);
      EmptyCount(hs, r, prefix + [true]);
  }

  /** Without collisions IsDefaultNode is right: such a subtree holds no register. */
  lemma DefaultIsEmpty<H(!new)>(hs: Hasher<H>, n: Trie<H>, prefix: seq<bool>)
    requires CollisionFree(hs) && WellFormed(hs, n, prefix) && IsDefaultNode(hs, n)
    ensures Count(n) == 0 && forall p | HasPrefix(p, prefix) :: Read(n, p) == []
  {
    HashIsExpanded(hs, n, prefix, Registers(n));
    var none := (p: Path) => [];
    EmptySubtree(hs, none, prefix);
    forall p | HasPrefix(p, prefix) ensures Read(n, p) == [] {
      ExpandedInjective(hs, Registers(n), none, prefix, p);
    }
    EmptyCount(hs, n, prefix);
  }

  /** What a pair of children holds. */
  ghost predicate Joins<H>(l: Trie<H>, r: Trie<H>, prefix: seq<bool>, m: Trie<H>) {
    |prefix| < MAX_HEIGHT && Count(m) == Count(l) + Count(r)
    && forall p | HasPrefix(p, prefix) :: Read(m, p) == if Bit(p, |prefix|) then Read(r, p) else Read(l, p)
  }

  lemma InterimJoins<H>(hs: Hasher<H>, l: Trie<H>, r: Trie<H>, prefix: seq<bool>)
    requires |prefix| < MAX_HEIGHT && (l.Some? || r.Some?)
    requires WellFormed(hs, l, prefix + [false]) && WellFormed(hs, r, prefix + [true])
    ensures var m := Some(NewInterimNode(hs, MAX_HEIGHT - |prefix|, l, r));
            WellFormed(hs, m, prefix) && Joins(l, r, prefix, m)
  {
    hide CompactHash, HasPrefix, Default, HashOf, Bit;
  }

  lemma UnchangedJoins<H>(hs: Hasher<H>, n: Trie<H>, prefix: seq<bool>)
    requires WellFormed(hs, n, prefix) && n.Some? && n.value.Interim?
    ensures Joins(n.value.left, n.value.right, prefix, n)
  {
  }

  lemma CarriedOverNothing<H>(hs: Hasher<H>, n: Trie<H>, ws: seq<Write>, carried: Trie<H>, prefix: seq<bool>)
    requires Updatable(hs, n, ws, carried, prefix)
    ensures WellFormed(hs, n, prefix) && (carried.Some? ==> n.None? && carried.value.Leaf?)
  {
  }

  /** A leaf that is alone below a node may take the node's place. */
  lemma LiftLeaf<H>(hs: Hasher<H>, n: Node<H>, prefix: seq<bool>, b: bool)
    requires |prefix| < MAX_HEIGHT && WellFormed(hs, Some(n), prefix + [b]) && n.Leaf? && n.value != []
    ensures var d := Default(hs, n.height);
            var m := Some(Leaf(n.height + 1, n.path, n.value, if b then hs.node(d, n.hash) else hs.node(n.hash, d)));
            WellFormed(hs, m, prefix) && (if b then Joins(None, Some(n), prefix, m) else Joins(Some(n), None, prefix, m))
  {
    PrefixExtends(n.path, prefix, b);
  }

  /** A child that holds no register may be dropped. */
  lemma DropEmpty<H(!new)>(hs: Hasher<H>, l: Trie<H>, r: Trie<H>, prefix: seq<bool>, m: Trie<H>, l': Trie<H>, r': Trie<H>)
    requires CollisionFree(hs) && WellFormed(hs, l, prefix + [false]) && WellFormed(hs, r, prefix + [true])
    requires l' == (if IsDefaultNode(hs, l) then None else l) && r' == (if IsDefaultNode(hs, r) then None else r)
    requires Joins(l', r', prefix, m)
    ensures Joins(l, r, prefix, m)
  {
    if IsDefaultNode(hs, l) {
      DefaultIsEmpty(hs, l, prefix + [false]);
    }
    if IsDefaultNode(hs, r) {
      DefaultIsEmpty(hs, r, prefix + [true]);
    }
    forall p | HasPrefix(p, prefix) ensures Read(m, p) == if Bit(p, |prefix|) then Read(r, p) else Read(l, p) {
      PrefixExtends(p, prefix, Bit(p, |prefix|));
    }
  }

  /** Compactification keeps the registers. */
  lemma CompactifiedJoins<H(!new)>(hs: Hasher<H>, l: Trie<H>, r: Trie<H>, prefix: seq<bool>)
    requires CollisionFree(hs) && |prefix| < MAX_HEIGHT
    requires WellFormed(hs, l, prefix + [false]) && WellFormed(hs, r, prefix + [true])
    ensures var m := NewInterimCompactifiedNode(hs, MAX_HEIGHT - |prefix|, l, r);
            WellFormed(hs, m, prefix) && Joins(l, r, prefix, m)
  {
    var m := NewInterimCompactifiedNode(hs, MAX_HEIGHT - |prefix|, l, r);
    var l' := if IsDefaultNode(hs, l) then None else l;
    var r' := if IsDefaultNode(hs, r) then None else r;
    if l'.None? && r'.None? {
      assert Joins(l', r', prefix, m);
    } else if r'.None? && l'.value.Leaf? {
      LiftLeaf(hs, l'.value, prefix, false);
    } else if l'.None? && r'.value.Leaf? {
      LiftLeaf(hs, r'.value, prefix, true);
    } else {
      InterimJoins(hs, l', r', prefix);
    }
    DropEmpty(hs, l, r, prefix, m, l', r');
  }

  lemma AfterSplits<H>(hs: Hasher<H>, n: Trie<H>, ws: seq<Write>, carried: Trie<H>, prefix: seq<bool>, p: Path)
    requires Updatable(hs, n, ws, carried, prefix) && HasPrefix(p, prefix) && |prefix| < MAX_HEIGHT
    ensures var b := Bit(p, |prefix|);
            After(n, ws, carried, p) ==
            After(Child(n, b), Side(ws, |prefix|, b), CarryTo(Carry(n, ws, carried), |prefix|, b), p)
  {
    hide Side, Writes, ValueWritten, HasPrefix, Bit, CompactHash, Default, Distinct;
    var b := Bit(p, |prefix|);
    SideWrites(ws, |prefix|, b, p);
    if Writes(ws, p) {
      SideValue(ws, |prefix|, b, p);
    }
  }

  ghost function Held<H>(carried: Trie<H>): nat {
    if carried.Some? then Count(carried) else 0
  }

  /** The two halves of an update make up the whole. */
  lemma UpdateJoins<H>(hs: Hasher<H>, n: Trie<H>, ws: seq<Write>, carried: Trie<H>, prefix: seq<bool>, l: Trie<H>, r: Trie<H>, m: Trie<H>)
    requires Updatable(hs, n, ws, carried, prefix)
    requires WellFormed(hs, m, prefix) && Joins(l, r, prefix, m)
    requires var leaf := Carry(n, ws, carried);
             Updated(hs, Child(n, false), Side(ws, |prefix|, false), CarryTo(leaf, |prefix|, false), prefix + [false], l)
             && Updated(hs, Child(n, true), Side(ws, |prefix|, true), CarryTo(leaf, |prefix|, true), prefix + [true], r)
    ensures Updated(hs, n, ws, carried, prefix, m)
  {
    forall p | HasPrefix(p, prefix) ensures Read(m, p) == After(n, ws, carried, p) {
      PrefixExtends(p, prefix, Bit(p, |prefix|));
      AfterSplits(hs, n, ws, carried, prefix, p);
    }
  }

  lemma UpdateStopsCorrect<H>(hs: Hasher<H>, n: Trie<H>, ws: seq<Write>, carried: Trie<H>, prune: bool, prefix: seq<bool>)
    requires Updatable(hs, n, ws, carried, prefix) && Stops(n, ws, carried)
    ensures var (m, delta) := Update(hs, n, ws, carried, prune, prefix);
            Updated(hs, n, ws, carried, prefix, m)
            && Count(m) == Count(n) + Held(carried) + delta
            && (!prune && ws != [] ==> m.Some?)
  {
    if ws != [] {
      WrittenOnce(ws, 0);
    }
  }

  /** The main result: update writes what it is asked to and nothing else, keeps every
      cached hash right, and reports the change in the number of registers. */
  lemma {:induction false} UpdateCorrect<H(!new)>(hs: Hasher<H>, n: Trie<H>, ws: seq<Write>, carried: Trie<H>, prune: bool, prefix: seq<bool>)
    requires Updatable(hs, n, ws, carried, prefix)
    requires prune ==> CollisionFree(hs)
    ensures var (m, delta) := Update(hs, n, ws, carried, prune, prefix);
            Updated(hs, n, ws, carried, prefix, m)
            && Count(m) == Count(n) + Held(carried) + delta
            && (!prune && ws != [] ==> m.Some?)
    decreases MAX_HEIGHT - |prefix|
  {
    hide Read, After, HasPrefix, Side, Writes, Distinct, WellFormed, Updatable, CollisionFree;
    hide CompactHash, Branch, Default, NewLeaf, NewInterimNode, NewInterimCompactifiedNode, Count, Bit, Updated, Update;
    if !Stops(n, ws, carried) {
      StepDown(hs, n, ws, carried, prefix);
      var leaf := Carry(n, ws, carried);
      UpdateCorrect(hs, Child(n, false), Side(ws, |prefix|, false), CarryTo(leaf, |prefix|, false), prune, prefix + [false]);
      UpdateCorrect(hs, Child(n, true), Side(ws, |prefix|, true), CarryTo(leaf, |prefix|, true), prune, prefix + [true]);
      UpdateSplits(hs, n, ws, carried, prune, prefix);
    } else {
      UpdateStopsCorrect(hs, n, ws, carried, prune, prefix);
    }
  }

  /** What one half of an update must have done. */
  ghost predicate HalfDone<H>(hs: Hasher<H>, n: Trie<H>, ws: seq<Write>, carried: Trie<H>, prune: bool, prefix: seq<bool>) {
    Updatable(hs, n, ws, carried, prefix)
    && var (m, delta) := Update(hs, n, ws, carried, prune, prefix);
       Updated(hs, n, ws, carried, prefix, m) && Count(m) == Count(n) + Held(carried) + delta && (!prune && ws != [] ==> m.Some?)
  }

  lemma UpdateSplits<H(!new)>(hs: Hasher<H>, n: Trie<H>, ws: seq<Write>, carried: Trie<H>, prune: bool, prefix: seq<bool>)
    requires Updatable(hs, n, ws, carried, prefix) && !Stops(n, ws, carried) && |prefix| < MAX_HEIGHT
    requires prune ==> CollisionFree(hs)
    requires HalfDone(hs, Child(n, false), Side(ws, |prefix|, false), CarryTo(Carry(n, ws, carried), |prefix|, false), prune, prefix + [false])
    requires HalfDone(hs, Child(n, true), Side(ws, |prefix|, true), CarryTo(Carry(n, ws, carried), |prefix|, true), prune, prefix + [true])
    ensures HalfDone(hs, n, ws, carried, prune, prefix)
  {
    hide Read, After, HasPrefix, Side, Writes, Distinct, WellFormed, Updatable, CollisionFree;
    hide CompactHash, Branch, Default, NewLeaf, NewInterimNode, NewInterimCompactifiedNode, Bit;
    CarriedOverNothing(hs, n, ws, carried, prefix);
    var leaf := Carry(n, ws, carried);
    var (l, _) := Update(hs, Child(n, false), Side(ws, |prefix|, false), CarryTo(leaf, |prefix|, false), prune, prefix + [false]);
    var (r, _) := Update(hs, Child(n, true), Side(ws, |prefix|, true), CarryTo(leaf, |prefix|, true), prune, prefix + [true]);
    if n.Some? && n.value.Interim? && l == n.value.left && r == n.value.right {
      UnchangedJoins(hs, n, prefix);
    } else if prune {
      CompactifiedJoins(hs, l, r, prefix);
    } else {
      SidesCover(ws, |prefix|);
      InterimJoins(hs, l, r, prefix);
    }
    UpdateJoins(hs, n, ws, carried, prefix, l, r, Update(hs, n, ws, carried, prune, prefix).0);
  }

  lemma SidesCover(ws: seq<Write>, depth: nat)
    requires ws != []
    ensures Side(ws, depth, false) != [] || Side(ws, depth, true) != []
  {
    var b := Bit(ws[0].path, depth);
    SideSpec(ws, depth, b);
    assert ws[0] in Side(ws, depth, b);
  }

  // ----- whole histories

  /** One call of NewTrieWithUpdatedRegisters. */
  datatype Batch = Batch(writes: seq<Write>, prune: bool)

  ghost predicate AllDistinct(batches: seq<Batch>) {
    forall b | b in batches :: Distinct(b.writes)
  }

  /** The trie after a sequence of updates, from the empty trie. */
  ghost function Build<H(!new)>(hs: Hasher<H>, batches: seq<Batch>): (n: Trie<H>)
    requires CollisionFree(hs) && AllDistinct(batches)
    ensures WellFormed(hs, n, [])
  {
    if batches == [] then None else
    var last := batches[|batches| - 1];
    var n := Build(hs, batches[..|batches| - 1]);
    UpdateCorrect(hs, n, last.writes, None, last.prune, []);
    Update(hs, n, last.writes, None, last.prune, []).0
  }

  /** The last value written to a path. */
  ghost function LastWritten(batches: seq<Batch>, p: Path): bytes {
    if batches == [] then [] else
    var last := batches[|batches| - 1];
    if Writes(last.writes, p) then ValueWritten(last.writes, p)
    else LastWritten(batches[..|batches| - 1], p)
  }

  ghost function LastValues(batches: seq<Batch>): Path -> bytes {
    (p: Path) => LastWritten(batches, p)
  }

  lemma {:induction false} BuildHoldsLastWritten<H(!new)>(hs: Hasher<H>, batches: seq<Batch>, p: Path)
    requires CollisionFree(hs) && AllDistinct(batches)
    ensures Read(Build(hs, batches), p) == LastWritten(batches, p)
  {
    if batches != [] {
      var last := batches[|batches| - 1];
      var before := batches[..|batches| - 1];
      BuildHoldsLastWritten(hs, before, p);
      UpdateCorrect(hs, Build(hs, before), last.writes, None, last.prune, []);
      assert HasPrefix(p, []);
    }
  }

  /** The root hash after any history is the hash of the fully expanded tree of the
      last values written. */
  lemma RootHashOfHistory<H(!new)>(hs: Hasher<H>, batches: seq<Batch>)
    requires CollisionFree(hs) && AllDistinct(batches)
    ensures HashOf(hs, Build(hs, batches), MAX_HEIGHT) == Expanded(hs, LastValues(batches), [])
  {
    var n := Build(hs, batches);
    forall p ensures LastValues(batches)(p) == Read(n, p) {
      BuildHoldsLastWritten(hs, batches, p);
    }
    hide Build;
    HashIsExpanded(hs, n, [], LastValues(batches));
  }

  ghost predicate SameOutcome(batches: seq<Batch>, other: seq<Batch>) {
    forall p :: LastWritten(batches, p) == LastWritten(other, p)
  }

  lemma SameOutcomeValues(batches: seq<Batch>, other: seq<Batch>)
    ensures SameOutcome(batches, other) <==> forall p :: LastValues(batches)(p) == LastValues(other)(p)
  {
    if forall p :: LastValues(batches)(p) == LastValues(other)(p) {
      forall p ensures LastWritten(batches, p) == LastWritten(other, p) {
        assert LastValues(batches)(p) == LastValues(other)(p);
      }
    }
  }

  /** So two histories end in the same root hash exactly when they leave the same
      values, however they group, order and prune. */
  lemma HistoriesAgree<H(!new)>(hs: Hasher<H>, batches: seq<Batch>, other: seq<Batch>)
    requires CollisionFree(hs) && AllDistinct(batches) && AllDistinct(other)
    ensures HashOf(hs, Build(hs, batches), MAX_HEIGHT) == HashOf(hs, Build(hs, other), MAX_HEIGHT)
       <==> SameOutcome(batches, other)
  {
    hide *;
    RootHashOfHistory(hs, batches);
    RootHashOfHistory(hs, other);
    SameValuesSameHash(hs, LastValues(batches), LastValues(other));
    SameOutcomeValues(batches, other);
  }

  lemma SameValuesSameHash<H(!new)>(hs: Hasher<H>, v: Path -> bytes, w: Path -> bytes)
    requires CollisionFree(hs)
    ensures Expanded(hs, v, []) == Expanded(hs, w, []) <==> forall p :: v(p) == w(p)
  {
    if Expanded(hs, v, []) == Expanded(hs, w, []) {
      forall p ensures v(p) == w(p) {
        ExpandedInjective(hs, v, w, [], p);
      }
    }
    if forall p :: v(p) == w(p) {
      ExpandedDepends(hs, v, w, []);
    }
  }

  // ----- the number of registers

  /** The registers that hold a value. */
  ghost function Allocated<H>(n: Trie<H>): set<Path>
    decreases n
  {
    match n
    case None => {}
    case Some(Leaf(_, path, value, _)) => if value == [] then {} else {path}
    case Some(Interim(_, l, r, _)) => Allocated(l) + Allocated(r)
  }

  lemma {:induction false} AllocatedIs<H>(hs: Hasher<H>, n: Trie<H>, prefix: seq<bool>)
    requires WellFormed(hs, n, prefix)
    ensures |Allocated(n)| == Count(n)
    ensures forall p :: p in Allocated(n) <==> HasPrefix(p, prefix) && Read(n, p) != []
    decreases n
  {
    hide HasPrefix, Bit, CompactHash, Default;
    match n
    case Some(Interim(_, l, r, _)) =>
      AllocatedIs(hs, l, prefix + [false]);
      AllocatedIs(hs, r, prefix + [true]);
      forall p ensures p in Allocated(n) <==> HasPrefix(p, prefix) && Read(n, p) != [] {
        PrefixExtends(p, prefix, false);
        PrefixExtends(p, prefix, true);
      }
      assert Allocated(l) * Allocated(r) == {} by {
        forall p | p in Allocated(l) && p in Allocated(r) ensures false {
          PrefixExtends(p, prefix, false);
          PrefixExtends(p, prefix, true);
        }
      }
    case _ =>
  }

  /** The count a trie carries: that of its parent changed by what update reports. */
  ghost function RegCount<H(!new)>(hs: Hasher<H>, batches: seq<Batch>): int
    requires CollisionFree(hs) && AllDistinct(batches)
  {
    if batches == [] then 0 else
    var last := batches[|batches| - 1];
    RegCount(hs, batches[..|batches| - 1]) + Update(hs, Build(hs, batches[..|batches| - 1]), last.writes, None, last.prune, []).1
  }

  lemma {:induction false} RegCountStep<H(!new)>(hs: Hasher<H>, batches: seq<Batch>)
    requires CollisionFree(hs) && AllDistinct(batches)
    ensures RegCount(hs, batches) == Count(Build(hs, batches))
  {
    hide Update, CollisionFree, WellFormed;
    if batches != [] {
      var last := batches[|batches| - 1];
      var before := batches[..|batches| - 1];
      RegCountStep(hs, before);
      UpdateCorrect(hs, Build(hs, before), last.writes, None, last.prune, []);
    }
  }

  /** After any history it is the number of paths whose last value is not empty. */
  lemma RegCountIs<H(!new)>(hs: Hasher<H>, batches: seq<Batch>, held: set<Path>)
    requires CollisionFree(hs) && AllDistinct(batches)
    requires forall p :: p in held <==> LastWritten(batches, p) != []
    ensures RegCount(hs, batches) == |held|
  {
    hide CollisionFree, AllDistinct, Build, RegCount, Read, LastWritten, WellFormed;
    var n := Build(hs, batches);
    RegCountStep(hs, batches);
    AllocatedIs(hs, n, []);
    forall p ensures p in Allocated(n) <==> p in held {
      BuildHoldsLastWritten(hs, batches, p);
      assert HasPrefix(p, []);
    }
    assert Allocated(n) == held;
  }
}
