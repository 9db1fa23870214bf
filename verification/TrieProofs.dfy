/** Merkle proofs: how mtrie/trie.go builds one from a trie and how
    ledger/common/proof verifies one against a root hash. */
module TrieProofs {
  import opened Bytes
  import opened LedgerFormat
  import opened Merkle
  import opened MTrie

  /** `flags` says at which depths the sibling has a non-default hash, and
      `interims` lists those hashes from the root down. */
  datatype Proof<H> = Proof(path: Path, value: bytes, inclusion: bool, steps: uint8, flags: seq<bool>, interims: seq<H>)

  type Siblings<H> = seq<Option<H>>

  function CountSome<H>(sibs: Siblings<H>): nat {
    if sibs == [] then 0 else (if sibs[0].Some? then 1 else 0) + CountSome(sibs[1..])
  }

  function Values<H>(sibs: Siblings<H>): (vs: seq<H>)
    ensures |vs| == CountSome(sibs)
  {
    if sibs == [] then []
    else if sibs[0].Some? then [sibs[0].value] + Values(sibs[1..])
    else Values(sibs[1..])
  }

  // ----- verification

  /** The hash at a depth of the path, given the one at the bottom and the siblings
      in between; a sibling that is not given is an empty subtree. */
  function Ascend<H>(hs: Hasher<H>, path: Path, sibs: Siblings<H>, depth: nat, bottom: H): H
    requires depth + |sibs| <= MAX_HEIGHT
  {
    if sibs == [] then bottom else
    var below := Ascend(hs, path, sibs[1..], depth + 1, bottom);
    var sibling := if sibs[0].Some? then sibs[0].value else Default(hs, MAX_HEIGHT - depth - 1);
    if Bit(path, depth) then hs.node(sibling, below) else hs.node(below, sibling)
  }

  /** The siblings of a proof from a depth downwards, None when it has too few hashes. */
  function SiblingsFrom<H>(p: Proof<H>, depth: nat): (r: Option<Siblings<H>>)
    requires depth <= p.steps as nat <= |p.flags|
    ensures r.Some? ==> |r.value| == p.steps as nat - depth
    decreases p.steps as nat - depth
  {
    if depth == p.steps as nat then Some([]) else
    var rest :- SiblingsFrom(p, depth + 1);
    if !p.flags[depth] then Some([None] + rest) else
    var i := |p.interims| - 1 - CountSome(rest);
    if i < 0 then None else Some([Some(p.interims[i])] + rest)
  }

  predicate Verifies<H(==)>(hs: Hasher<H>, p: Proof<H>, root: H)
    requires p.steps as nat <= |p.flags|
  {
    match SiblingsFrom(p, 0)
    case None => false
    case Some(sibs) =>
      Ascend(hs, p.path, sibs, 0, CompactHash(hs, p.path, p.value, MAX_HEIGHT - p.steps as nat)) == root
  }

  /** Hashing upwards with an index that runs down the list of interims.  The source
      panics if there is no flag for a step. */
  method VerifyTrieProof<H(==)>(hs: Hasher<H>, p: Proof<H>, expected: H) returns (ok: bool)
    requires p.steps as nat <= |p.flags|
    ensures ok == Verifies(hs, p, expected)
  {
    hide CompactHash, Default, Bit;
    var leafHeight := MAX_HEIGHT - p.steps as nat;
    var proofIndex := |p.interims| - 1;
    var computed := CompactHash(hs, p.path, p.value, leafHeight);
    ghost var bottom := computed;
    var h := leafHeight + 1;
    while h <= MAX_HEIGHT
      invariant leafHeight + 1 <= h <= MAX_HEIGHT + 1
      invariant SiblingsFrom(p, MAX_HEIGHT + 1 - h).Some?
      invariant var sibs := SiblingsFrom(p, MAX_HEIGHT + 1 - h).value;
                proofIndex == |p.interims| - 1 - CountSome(sibs)
                && computed == Ascend(hs, p.path, sibs, MAX_HEIGHT + 1 - h, bottom)
    {
      var siblingHash;
      if p.flags[MAX_HEIGHT - h] {
        if proofIndex < 0 {
          TooFew(p, MAX_HEIGHT - h);
          return false;
        }
        siblingHash := p.interims[proofIndex];
        proofIndex := proofIndex - 1;
      } else {
        siblingHash := Default(hs, h - 1);
      }
      if Bit(p.path, MAX_HEIGHT - h) {
        computed := hs.node(siblingHash, computed);
      } else {
        computed := hs.node(computed, siblingHash);
      }
      ghost var rest := SiblingsFrom(p, MAX_HEIGHT + 1 - h).value;
      ghost var sibs := SiblingsFrom(p, MAX_HEIGHT - h).value;
      assert sibs[1..] == rest;
      h := h + 1;
    }
    return computed == expected;
  }

  lemma {:induction false} TooFew<H>(p: Proof<H>, depth: nat)
    requires depth <= p.steps as nat <= |p.flags| && SiblingsFrom(p, depth).None?
    ensures SiblingsFrom(p, 0).None?
  {
    if depth != 0 {
      TooFew(p, depth - 1);
    }
  }

  lemma {:induction false} SurplusSiblings<H>(p: Proof<H>, extra: seq<H>, depth: nat)
    requires depth <= p.steps as nat <= |p.flags| && SiblingsFrom(p, depth).Some?
    ensures SiblingsFrom(p.(interims := extra + p.interims), depth) == SiblingsFrom(p, depth)
    decreases p.steps as nat - depth
  {
    if depth < p.steps as nat {
      SurplusSiblings(p, extra, depth + 1);
    }
  }

  /** Not all interims need be used: if there are enough, more of them in front change
      nothing.  If there are too few, the proof is rejected. */
  lemma SurplusInterimsIgnored<H>(hs: Hasher<H>, p: Proof<H>, extra: seq<H>, root: H)
    requires p.steps as nat <= |p.flags|
    ensures SiblingsFrom(p, 0).Some? ==> Verifies(hs, p.(interims := extra + p.interims), root) == Verifies(hs, p, root)
    ensures SiblingsFrom(p, 0).None? ==> !Verifies(hs, p, root)
  {
    if SiblingsFrom(p, 0).Some? {
      SurplusSiblings(p, extra, 0);
    }
  }

  // ----- a verified proof is true

  lemma {:induction false} AscendDetermines<H(!new)>(hs: Hasher<H>, regs: Path -> bytes, path: Path, value: bytes, sibs: Siblings<H>, prefix: seq<bool>)
    requires CollisionFree(hs) && |prefix| + |sibs| <= MAX_HEIGHT && HasPrefix(path, prefix)
    requires Ascend(hs, path, sibs, |prefix|, CompactHash(hs, path, value, MAX_HEIGHT - |prefix| - |sibs|)) == Expanded(hs, regs, prefix)
    ensures regs(path) == value
    decreases |sibs|
  {
    if sibs == [] {
      var single := (p: Path) => if p == path then value else [];
      CompactIsExpanded(hs, single, prefix, path);
      ExpandedInjective(hs, regs, single, prefix, path);
    } else {
      var b := Bit(path, |prefix|);
      PrefixExtends(path, prefix, b);
      AscendDetermines(hs, regs, path, value, sibs[1..], prefix + [b]);
    }
  }

  /** Soundness: a proof of any shape that verifies against the root hash of some
      registers states the value that the register at its path has. */
  lemma VerifiedValueIsTrue<H(!new)>(hs: Hasher<H>, regs: Path -> bytes, p: Proof<H>)
    requires CollisionFree(hs) && p.steps as nat <= |p.flags|
    requires Verifies(hs, p, Expanded(hs, regs, []))
    ensures regs(p.path) == p.value
  {
    AscendDetermines(hs, regs, p.path, p.value, SiblingsFrom(p, 0).value, []);
  }

  // ----- proofs of a trie

  /** The way down to a path: the hashes to its side and the node where it ends. */
  function Walk<H(==)>(hs: Hasher<H>, n: Trie<H>, path: Path): (Siblings<H>, Trie<H>)
    decreases n
  {
    match n
    case Some(Interim(height, l, r, _)) =>
      var b := Bit(path, MAX_HEIGHT - height);
      var sibling := if b then l else r;
      var (sibs, end) := Walk(hs, if b then r else l, path);
      ([if IsDefaultNode(hs, sibling) then None else Some(sibling.value.hash)] + sibs, end)
    case _ => ([], n)
  }

  /** The path of a new proof. */
  const ZERO_PATH: Path := seq(PATH_LEN, _ => 0)

  /** The way to the path ends in its own leaf. */
  predicate Included<H(==)>(hs: Hasher<H>, n: Trie<H>, path: Path) {
    var end := Walk(hs, n, path).1;
    end.Some? && end.value.Leaf? && end.value.path == path
  }

  /** The proof for one path.  Path and payload are filled in only at its own leaf, so a
      proof of absence keeps the zero path of a new proof; the 8-bit step counter wraps. */
  function Prove<H(==)>(hs: Hasher<H>, n: Trie<H>, path: Path): Proof<H> {
    var (sibs, end) := Walk(hs, n, path);
    var flags := seq(MAX_HEIGHT, i requires 0 <= i => i < |sibs| && sibs[i].Some?);
    var steps := (|sibs| % 0x100) as uint8;
    if Included(hs, n, path) then Proof(path, end.value.value, true, steps, flags, Values(sibs))
    else Proof(ZERO_PATH, [], false, steps, flags, Values(sibs))
  }

  /** The registers that have a leaf. */
  ghost function LeafPaths<H>(n: Trie<H>): set<Path>
    decreases n
  {
    match n
    case None => {}
    case Some(Leaf(_, path, _, _)) => {path}
    case Some(Interim(_, l, r, _)) => LeafPaths(l) + LeafPaths(r)
  }

  lemma {:induction false} LeavesHavePrefix<H>(hs: Hasher<H>, n: Trie<H>, prefix: seq<bool>, path: Path)
    requires WellFormed(hs, n, prefix) && path in LeafPaths(n)
    ensures HasPrefix(path, prefix)
    decreases n
  {
    hide HasPrefix, CompactHash, Bit;
    if n.Some? && n.value.Interim? {
      var b := path in LeafPaths(n.value.right);
      LeavesHavePrefix(hs, if b then n.value.right else n.value.left, prefix + [b], path);
      PrefixExtends(path, prefix, b);
    }
  }

  lemma {:induction false} IncludedIff<H>(hs: Hasher<H>, n: Trie<H>, prefix: seq<bool>, path: Path)
    requires WellFormed(hs, n, prefix) && HasPrefix(path, prefix)
    ensures Included(hs, n, path) <==> path in LeafPaths(n)
    ensures Read(n, path) != [] ==> path in LeafPaths(n)
    decreases n
  {
    hide HasPrefix, CompactHash, Bit;
    if n.Some? && n.value.Interim? {
      var b := Bit(path, |prefix|);
      PrefixExtends(path, prefix, b);
      PrefixExtends(path, prefix, !b);
      IncludedIff(hs, if b then n.value.right else n.value.left, prefix + [b], path);
      if path in LeafPaths(if b then n.value.left else n.value.right) {
        LeavesHavePrefix(hs, if b then n.value.left else n.value.right, prefix + [!b], path);
      }
    }
  }

  /** A proof claims inclusion exactly if the register has a leaf, as every register with
      a value does. */
  lemma InclusionIff<H>(hs: Hasher<H>, n: Trie<H>, path: Path)
    requires WellFormed(hs, n, [])
    ensures Prove(hs, n, path).inclusion <==> path in LeafPaths(n)
    ensures Read(n, path) != [] ==> Prove(hs, n, path).inclusion
  {
    IncludedIff(hs, n, [], path);
  }

  lemma {:induction false} WalkEnds<H>(hs: Hasher<H>, n: Trie<H>, prefix: seq<bool>, path: Path)
    requires WellFormed(hs, n, prefix) && HasPrefix(path, prefix)
    ensures var (sibs, end) := Walk(hs, n, path);
            |prefix| + |sibs| <= MAX_HEIGHT && Read(n, path) == Read(end, path)
            && (end.Some? ==> end.value.Leaf? && end.value.height == MAX_HEIGHT - |prefix| - |sibs|
                              && end.value.hash == CompactHash(hs, end.value.path, end.value.value, end.value.height))
    decreases n
  {
    hide CompactHash, HasPrefix;
    match n
    case Some(Interim(height, l, r, _)) =>
      var b := Bit(path, |prefix|);
      PrefixExtends(path, prefix, b);
      WalkEnds(hs, if b then r else l, prefix + [b], path);
    case _ =>
  }

  /** What a proof says of a sibling determines the sibling's hash. */
  lemma SiblingHash<H>(hs: Hasher<H>, sibling: Trie<H>, prefix: seq<bool>)
    requires WellFormed(hs, sibling, prefix)
    ensures HashOf(hs, sibling, MAX_HEIGHT - |prefix|)
         == if IsDefaultNode(hs, sibling) then Default(hs, MAX_HEIGHT - |prefix|) else sibling.value.hash
  {
  }

  /** The siblings of the way down rebuild the root hash from the hash at its end. */
  lemma {:induction false} WalkAscends<H>(hs: Hasher<H>, n: Trie<H>, prefix: seq<bool>, path: Path)
    requires WellFormed(hs, n, prefix) && HasPrefix(path, prefix)
    ensures var (sibs, end) := Walk(hs, n, path);
            |prefix| + |sibs| <= MAX_HEIGHT
            && HashOf(hs, n, MAX_HEIGHT - |prefix|) == Ascend(hs, path, sibs, |prefix|, HashOf(hs, end, MAX_HEIGHT - |prefix| - |sibs|))
    decreases n
  {
    hide CompactHash, HasPrefix, Default, IsDefaultNode, Bit;
    WalkEnds(hs, n, prefix, path);
    match n
    case Some(Interim(height, l, r, _)) =>
      var b := Bit(path, |prefix|);
      PrefixExtends(path, prefix, b);
      WalkAscends(hs, if b then r else l, prefix + [b], path);
      SiblingHash(hs, if b then l else r, prefix + [!b]);
      var (sibs, _) := Walk(hs, n, path);
      var below := Walk(hs, if b then r else l, path).0;
      assert sibs[1..] == below;
    case _ =>
  }

  lemma {:induction false} ValuesSplit<H>(sibs: Siblings<H>, d: nat)
    requires d <= |sibs|
    ensures Values(sibs) == Values(sibs[..d]) + Values(sibs[d..])
  {
    if d != 0 {
      ValuesSplit(sibs[1..], d - 1);
      assert sibs[..d][1..] == sibs[1..][..d - 1] && sibs[1..][d - 1..] == sibs[d..];
    }
  }

  /** A proof that was built reads back as the siblings it was built from. */
  lemma {:induction false} ProofReadsBack<H>(p: Proof<H>, sibs: Siblings<H>, d: nat)
    requires |sibs| == p.steps as nat <= |p.flags| && d <= |sibs|
    requires p.interims == Values(sibs) && forall i | 0 <= i < |sibs| :: p.flags[i] == sibs[i].Some?
    ensures SiblingsFrom(p, d) == Some(sibs[d..])
    decreases |sibs| - d
  {
    if d < |sibs| {
      ProofReadsBack(p, sibs, d + 1);
      ValuesSplit(sibs, d);
      assert sibs[d..][1..] == sibs[d + 1..] && sibs[d..] == [sibs[d]] + sibs[d + 1..];
    }
  }

  /** A proof states the register's value, and an inclusion proof with fewer than the
      256 steps that wrap verifies. */
  lemma ProofVerifies<H>(hs: Hasher<H>, n: Trie<H>, path: Path)
    requires WellFormed(hs, n, [])
    ensures Prove(hs, n, path).value == Read(n, path)
    ensures Included(hs, n, path) && |Walk(hs, n, path).0| < MAX_HEIGHT
            ==> Verifies(hs, Prove(hs, n, path), HashOf(hs, n, MAX_HEIGHT))
  {
    hide SiblingsFrom, Values, CountSome, Default, Branch, Bit;
    WalkEnds(hs, n, [], path);
    if |Walk(hs, n, path).0| < MAX_HEIGHT {
      ShortProof(hs, n, path);
      WalkAscends(hs, n, [], path);
    }
  }

  /** A proof of fewer than 256 steps is checked with the siblings of the way down. */
  lemma ShortProof<H>(hs: Hasher<H>, n: Trie<H>, path: Path)
    requires WellFormed(hs, n, []) && |Walk(hs, n, path).0| < MAX_HEIGHT
    ensures SiblingsFrom(Prove(hs, n, path), 0) == Some(Walk(hs, n, path).0)
  {
    var sibs := Walk(hs, n, path).0;
    ProofReadsBack(Prove(hs, n, path), sibs, 0);
    assert sibs[0..] == sibs;
  }

  // ----- exactly when a trie's own proof verifies

  lemma {:induction false} BranchNotDefault<H(!new)>(hs: Hasher<H>, path: Path, value: bytes, height: nat)
    requires CollisionFree(hs) && height <= MAX_HEIGHT
    ensures Branch(hs, path, hs.leaf(path, value), height) != Default(hs, height)
  {
    if height != 0 {
      BranchNotDefault(hs, path, value, height - 1);
    }
  }

  ghost predicate OnlyRegister<H>(n: Trie<H>, path: Path) {
    forall q | q != path :: Read(n, q) == []
  }

  /** At 256 steps the counter is 0, and the proof is checked as if the trie held
      nothing but its register. */
  lemma WrappedProof<H(!new)>(hs: Hasher<H>, n: Trie<H>, path: Path)
    requires CollisionFree(hs) && WellFormed(hs, n, []) && |Walk(hs, n, path).0| == MAX_HEIGHT
    ensures Verifies(hs, Prove(hs, n, path), HashOf(hs, n, MAX_HEIGHT)) <==> OnlyRegister(n, path)
  {
    ProofVerifies(hs, n, path);
    var single := (p: Path) => if p == path then Read(n, path) else [];
    CompactIsExpanded(hs, single, [], path);
    HashIsExpanded(hs, n, [], Registers(n));
    SameValuesSameHash(hs, Registers(n), single);
    if forall p :: Registers(n)(p) == single(p) {
      forall q | q != path ensures Read(n, q) == [] {
        assert Registers(n)(q) == single(q);
      }
    }
  }

  lemma {:induction false} ZeroShifted(k: nat)
    ensures ShiftRight(0, k) == 0
  {
    if k > 0 {
      ZeroShifted(k - 1);
    }
  }

  lemma ZeroBit(i: nat)
    ensures !Bit(ZERO_PATH, i)
  {
    if i < MAX_HEIGHT {
      ZeroShifted(7 - i % 8);
    }
  }

  /** Leaf hashes contain their path, so subtrees in different places have the same hash
      only if both are empty. */
  lemma {:induction false} ApartMeansEmpty<H(!new)>(hs: Hasher<H>, regs: Path -> bytes, a: seq<bool>, b: seq<bool>)
    requires CollisionFree(hs) && |a| == |b| <= MAX_HEIGHT && a != b
    requires Expanded(hs, regs, a) == Expanded(hs, regs, b)
    ensures Expanded(hs, regs, a) == Default(hs, MAX_HEIGHT - |a|)
    decreases MAX_HEIGHT - |a|
  {
    if |a| < MAX_HEIGHT {
      forall x ensures a + [x] != b + [x] {
        assert (a + [x])[..|a|] == a && (b + [x])[..|b|] == b;
      }
      ApartMeansEmpty(hs, regs, a + [false], b + [false]);
      ApartMeansEmpty(hs, regs, a + [true], b + [true]);
    } else {
      forall p | AllocatedAt(regs, a, p) ensures !AllocatedAt(regs, b, p) {
        assert a == b <== forall i | 0 <= i < |a| :: a[i] == b[i];
      }
    }
  }

  /** The walk through a subtree without registers passes only empty siblings. */
  lemma {:induction false} EmptyWalk<H(!new)>(hs: Hasher<H>, n: Trie<H>, prefix: seq<bool>, path: Path)
    requires CollisionFree(hs) && WellFormed(hs, n, prefix) && HasPrefix(path, prefix)
    requires HashOf(hs, n, MAX_HEIGHT - |prefix|) == Default(hs, MAX_HEIGHT - |prefix|)
    ensures forall i | 0 <= i < |Walk(hs, n, path).0| :: Walk(hs, n, path).0[i].None?
    ensures EndsClean(hs, n, path)
    decreases n
  {
    match n
    case Some(Interim(height, l, r, _)) =>
      var b := Bit(path, |prefix|);
      PrefixExtends(path, prefix, b);
      EmptyWalk(hs, if b then r else l, prefix + [b], path);
    case Some(Leaf(height, q, value, _)) =>
      if value != [] {
        BranchNotDefault(hs, q, value, height);
      }
    case None =>
  }

  lemma {:induction false} AscendEmpty<H>(hs: Hasher<H>, path: Path, sibs: Siblings<H>, depth: nat)
    requires depth + |sibs| <= MAX_HEIGHT && forall i | 0 <= i < |sibs| :: sibs[i].None?
    ensures Ascend(hs, path, sibs, depth, Default(hs, MAX_HEIGHT - depth - |sibs|)) == Default(hs, MAX_HEIGHT - depth)
  {
    if sibs != [] {
      AscendEmpty(hs, path, sibs[1..], depth + 1);
    }
  }

  /** The way to the path ends in nothing or in a leaf without a value. */
  ghost predicate EndsClean<H>(hs: Hasher<H>, n: Trie<H>, path: Path) {
    var end := Walk(hs, n, path).1;
    end.Some? && end.value.Leaf? ==> end.value.value == []
  }

  /** Taking the zero path instead makes no difference: left turns are its own, and
      where the path turns right there is nothing. */
  ghost predicate AsIfZero<H>(hs: Hasher<H>, n: Trie<H>, path: Path)
    decreases n
  {
    match n
    case Some(Interim(height, l, r, hash)) =>
      if Bit(path, MAX_HEIGHT - height) then hash == Default(hs, height) else AsIfZero(hs, l, path)
    case Some(Leaf(_, _, value, _)) => value == []
    case None => true
  }

  lemma {:induction false} ZeroAscends<H(!new)>(hs: Hasher<H>, n: Trie<H>, prefix: seq<bool>, path: Path)
    requires CollisionFree(hs) && WellFormed(hs, n, prefix) && HasPrefix(path, prefix)
    ensures var sibs := Walk(hs, n, path).0;
            |prefix| + |sibs| <= MAX_HEIGHT
            && (Ascend(hs, ZERO_PATH, sibs, |prefix|, Default(hs, MAX_HEIGHT - |prefix| - |sibs|)) == HashOf(hs, n, MAX_HEIGHT - |prefix|)
                <==> AsIfZero(hs, n, path))
    decreases n
  {
    hide Walk, Ascend, HasPrefix, Bit, CompactHash, Default, CollisionFree;
    if n.None? || n.value.Leaf? {
      ZeroEnds(hs, n, prefix, path);
    } else if Bit(path, |prefix|) {
      ZeroTurnsRight(hs, n, prefix, path);
    } else {
      PrefixExtends(path, prefix, false);
      ZeroAscends(hs, n.value.left, prefix + [false], path);
      ZeroTurnsLeft(hs, n, prefix, path, Default(hs, Gap(hs, n, prefix, path)));
    }
  }

  lemma ZeroEnds<H(!new)>(hs: Hasher<H>, n: Trie<H>, prefix: seq<bool>, path: Path)
    requires CollisionFree(hs) && WellFormed(hs, n, prefix) && (n.None? || n.value.Leaf?)
    ensures Walk(hs, n, path).0 == [] && Ascend(hs, ZERO_PATH, Walk(hs, n, path).0, |prefix|, Default(hs, MAX_HEIGHT - |prefix|)) == Default(hs, MAX_HEIGHT - |prefix|)
    ensures HashOf(hs, n, MAX_HEIGHT - |prefix|) == Default(hs, MAX_HEIGHT - |prefix|) <==> AsIfZero(hs, n, path)
  {
    if n.Some? && n.value.value != [] {
      BranchNotDefault(hs, n.value.path, n.value.value, n.value.height);
    }
  }

  lemma NodeInjective<H(!new)>(hs: Hasher<H>, a: H, b: H, c: H, d: H)
    requires CollisionFree(hs)
    ensures hs.node(a, b) == hs.node(c, d) <==> a == c && b == d
  {
  }

  /** One step of checking a proof of absence: it takes every sibling for a right one. */
  lemma ZeroStep<H>(hs: Hasher<H>, n: Trie<H>, prefix: seq<bool>, path: Path, bottom: H)
    requires WellFormed(hs, n, prefix) && HasPrefix(path, prefix) && n.Some? && n.value.Interim?
    ensures
      var b, h, hash := Bit(path, |prefix|), n.value.height, n.value.hash;
      var next, other := if b then n.value.right else n.value.left, if b then n.value.left else n.value.right;
      var sibs, below := Walk(hs, n, path).0, Walk(hs, next, path).0;
      WellFormed(hs, next, prefix + [b]) && HasPrefix(path, prefix + [b])
      && |sibs| == |below| + 1 && |prefix| + |sibs| <= MAX_HEIGHT && h == MAX_HEIGHT - |prefix|
      && hash == hs.node(HashOf(hs, n.value.left, h - 1), HashOf(hs, n.value.right, h - 1))
      && Ascend(hs, ZERO_PATH, sibs, |prefix|, bottom)
         == hs.node(Ascend(hs, ZERO_PATH, below, |prefix| + 1, bottom), HashOf(hs, other, h - 1))
  {
    hide CompactHash, HasPrefix, IsDefaultNode, Default, Ascend, Bit;
    var b := Bit(path, |prefix|);
    WalkEnds(hs, n, prefix, path);
    PrefixExtends(path, prefix, b);
    SiblingHash(hs, if b then n.value.left else n.value.right, prefix + [!b]);
    ZeroAscendStep(hs, Walk(hs, n, path).0, |prefix|, bottom);
    assert Walk(hs, n, path).0[1..] == Walk(hs, if b then n.value.right else n.value.left, path).0;
  }

  lemma ZeroAscendStep<H>(hs: Hasher<H>, sibs: Siblings<H>, depth: nat, bottom: H)
    requires sibs != [] && depth + |sibs| <= MAX_HEIGHT
    ensures Ascend(hs, ZERO_PATH, sibs, depth, bottom)
         == hs.node(Ascend(hs, ZERO_PATH, sibs[1..], depth + 1, bottom),
                    if sibs[0].Some? then sibs[0].value else Default(hs, MAX_HEIGHT - depth - 1))
  {
    ZeroBit(depth);
  }

  /** A left turn leaves the question to the left child. */
  lemma ZeroTurnsLeft<H(!new)>(hs: Hasher<H>, n: Trie<H>, prefix: seq<bool>, path: Path, bottom: H)
    requires CollisionFree(hs) && WellFormed(hs, n, prefix) && HasPrefix(path, prefix)
    requires n.Some? && n.value.Interim? && !Bit(path, |prefix|)
    ensures
      var sibs, below := Walk(hs, n, path).0, Walk(hs, n.value.left, path).0;
      |sibs| == |below| + 1 && |prefix| + |sibs| <= MAX_HEIGHT && n.value.height == MAX_HEIGHT - |prefix|
      && (Ascend(hs, ZERO_PATH, sibs, |prefix|, bottom) == n.value.hash
          <==> Ascend(hs, ZERO_PATH, below, |prefix| + 1, bottom) == HashOf(hs, n.value.left, n.value.height - 1))
  {
    hide Walk, Ascend, HasPrefix, Bit, CompactHash, WellFormed, CollisionFree, HashOf;
    ZeroStep(hs, n, prefix, path, bottom);
    var l, r, h := n.value.left, n.value.right, n.value.height;
    NodeInjective(hs, Ascend(hs, ZERO_PATH, Walk(hs, l, path).0, |prefix| + 1, bottom), HashOf(hs, r, h - 1),
      HashOf(hs, l, h - 1), HashOf(hs, r, h - 1));
  }

  /** A right turn is a match only if nothing is there. */
  lemma ZeroTurnsRight<H(!new)>(hs: Hasher<H>, n: Trie<H>, prefix: seq<bool>, path: Path)
    requires CollisionFree(hs) && WellFormed(hs, n, prefix) && HasPrefix(path, prefix)
    requires n.Some? && n.value.Interim? && Bit(path, |prefix|)
    ensures
      var sibs, h := Walk(hs, n, path).0, MAX_HEIGHT - |prefix|;
      |prefix| + |sibs| <= MAX_HEIGHT && n.value.height == h
      && (Ascend(hs, ZERO_PATH, sibs, |prefix|, Default(hs, h - |sibs|)) == n.value.hash <==> n.value.hash == Default(hs, h))
  {
    hide Walk, Ascend, HasPrefix, Bit, CompactHash, WellFormed, CollisionFree, HashOf;
    var sibs, bottom := Walk(hs, n, path).0, Default(hs, Gap(hs, n, prefix, path));
    ZeroStep(hs, n, prefix, path, bottom);
    var l, r, h := n.value.left, n.value.right, n.value.height;
    var below, left, right := Walk(hs, r, path).0, HashOf(hs, l, h - 1), HashOf(hs, r, h - 1);
    var v := Ascend(hs, ZERO_PATH, below, |prefix| + 1, bottom);
    var d := Default(hs, h - 1);
    NodeInjective(hs, v, left, left, right);
    NodeInjective(hs, left, right, d, d);
    if n.value.hash == Default(hs, h) {
      EmptyWalk(hs, r, prefix + [true], path);
      AscendEmpty(hs, ZERO_PATH, below, |prefix| + 1);
    }
    if left == right {
      SameHalves(hs, n, prefix);
    }
  }

  /** The height at which the walk ends. */
  ghost function Gap<H>(hs: Hasher<H>, n: Trie<H>, prefix: seq<bool>, path: Path): nat
    requires WellFormed(hs, n, prefix) && HasPrefix(path, prefix)
  {
    WalkEnds(hs, n, prefix, path);
    MAX_HEIGHT - |prefix| - |Walk(hs, n, path).0|
  }

  lemma SameHalves<H(!new)>(hs: Hasher<H>, n: Trie<H>, prefix: seq<bool>)
    requires CollisionFree(hs) && WellFormed(hs, n, prefix) && n.Some? && n.value.Interim?
    requires HashOf(hs, n.value.left, n.value.height - 1) == HashOf(hs, n.value.right, n.value.height - 1)
    ensures n.value.hash == Default(hs, n.value.height)
  {
    var regs := Registers(n);
    forall p, b ensures HasPrefix(p, prefix + [b]) <==> HasPrefix(p, prefix) && Bit(p, |prefix|) == b {
      PrefixExtends(p, prefix, b);
    }
    HashIsExpanded(hs, n.value.left, prefix + [false], regs);
    HashIsExpanded(hs, n.value.right, prefix + [true], regs);
    assert (prefix + [false])[|prefix|] != (prefix + [true])[|prefix|];
    ApartMeansEmpty(hs, regs, prefix + [false], prefix + [true]);
  }

  /** No register lies under the first `d` bits of the path. */
  ghost predicate EmptyBelow<H>(n: Trie<H>, path: Path, d: nat) {
    forall q | AgreeTo(q, path, d) :: Read(n, q) == []
  }

  ghost predicate AgreeTo(q: Path, path: Path, d: nat) {
    forall i | 0 <= i < d :: Bit(q, i) == Bit(path, i)
  }

  /** Wherever the way to the path turns right, the subtree it turns in is empty, and it
      ends in no value. */
  ghost predicate AbsenceShows<H>(hs: Hasher<H>, n: Trie<H>, path: Path) {
    EndsClean(hs, n, path) && forall d | 0 <= d < |Walk(hs, n, path).0| && Bit(path, d) :: EmptyBelow(n, path, d)
  }

  lemma EmptyIff<H(!new)>(hs: Hasher<H>, n: Trie<H>, prefix: seq<bool>)
    requires CollisionFree(hs) && WellFormed(hs, n, prefix)
    ensures HashOf(hs, n, MAX_HEIGHT - |prefix|) == Default(hs, MAX_HEIGHT - |prefix|)
       <==> forall q | HasPrefix(q, prefix) :: Read(n, q) == []
  {
    HashIsExpanded(hs, n, prefix, Registers(n));
    if forall q | HasPrefix(q, prefix) :: Read(n, q) == [] {
      EmptySubtree(hs, Registers(n), prefix);
    }
    if HashOf(hs, n, MAX_HEIGHT - |prefix|) == Default(hs, MAX_HEIGHT - |prefix|) {
      DefaultIsEmpty(hs, n, prefix);
    }
  }

  /** The part of the condition that concerns the walk below a prefix. */
  ghost predicate RightsEmpty<H>(hs: Hasher<H>, n: Trie<H>, prefix: seq<bool>, path: Path) {
    forall d | |prefix| <= d < |prefix| + |Walk(hs, n, path).0| && Bit(path, d) ::
      forall q | HasPrefix(q, prefix) && AgreeTo(q, path, d) :: Read(n, q) == []
  }

  lemma {:induction false} AsIfZeroIff<H(!new)>(hs: Hasher<H>, n: Trie<H>, prefix: seq<bool>, path: Path)
    requires CollisionFree(hs) && WellFormed(hs, n, prefix) && HasPrefix(path, prefix)
    ensures AsIfZero(hs, n, path) <==> EndsClean(hs, n, path) && RightsEmpty(hs, n, prefix, path)
    decreases n
  {
    hide CompactHash, IsDefaultNode;
    WalkEnds(hs, n, prefix, path);
    match n
    case None =>
    case Some(Leaf(_, _, _, _)) =>
    case Some(Interim(height, l, r, hash)) =>
      var b := Bit(path, |prefix|);
      PrefixExtends(path, prefix, b);
      if b {
        EmptyIff(hs, n, prefix);
        if AsIfZero(hs, n, path) {
          EmptyWalk(hs, n, prefix, path);
        }
        if RightsEmpty(hs, n, prefix, path) {
          forall q | HasPrefix(q, prefix) ensures Read(n, q) == [] {
            assert AgreeTo(q, path, |prefix|);
          }
        }
      } else {
        AsIfZeroIff(hs, l, prefix + [false], path);
        LeftRights(hs, n, prefix, path);
      }
  }

  lemma LeftRights<H>(hs: Hasher<H>, n: Trie<H>, prefix: seq<bool>, path: Path)
    requires WellFormed(hs, n, prefix) && HasPrefix(path, prefix) && n.Some? && n.value.Interim? && !Bit(path, |prefix|)
    ensures RightsEmpty(hs, n, prefix, path) <==> RightsEmpty(hs, n.value.left, prefix + [false], path)
  {
    hide CompactHash, IsDefaultNode, WellFormed;
    assert |prefix| < MAX_HEIGHT && n.value.height == MAX_HEIGHT - |prefix| by { InterimHeight(hs, n, prefix); }
    var l := n.value.left;
    forall q, d | d > |prefix| && AgreeTo(q, path, d)
      ensures (HasPrefix(q, prefix) <==> HasPrefix(q, prefix + [false])) && Read(n, q) == Read(l, q)
    {
      assert Bit(q, |prefix|) == Bit(path, |prefix|);
      PrefixExtends(q, prefix, false);
    }
  }

  lemma InterimHeight<H>(hs: Hasher<H>, n: Trie<H>, prefix: seq<bool>)
    requires WellFormed(hs, n, prefix) && n.Some? && n.value.Interim?
    ensures |prefix| < MAX_HEIGHT && n.value.height == MAX_HEIGHT - |prefix|
  {
  }

  /** The exact condition.  An inclusion proof verifies below 256 steps; a proof of
      absence, checked along the zero path, only where that path shows the same; and
      with 256 steps either is checked as if nothing but its register were there. */
  lemma ProofVerifiesIff<H(!new)>(hs: Hasher<H>, n: Trie<H>, path: Path)
    requires CollisionFree(hs) && WellFormed(hs, n, [])
    ensures Verifies(hs, Prove(hs, n, path), HashOf(hs, n, MAX_HEIGHT)) <==>
      if |Walk(hs, n, path).0| == MAX_HEIGHT then OnlyRegister(n, path)
      else Included(hs, n, path) || AbsenceShows(hs, n, path)
  {
    hide Values, CountSome, Expanded, Bit, Default, Ascend, SiblingsFrom;
    WalkEnds(hs, n, [], path);
    if |Walk(hs, n, path).0| == MAX_HEIGHT {
      WrappedProof(hs, n, path);
    } else if Included(hs, n, path) {
      ProofVerifies(hs, n, path);
    } else {
      ShortProof(hs, n, path);
      ZeroAscends(hs, n, [], path);
      AsIfZeroIff(hs, n, [], path);
      AbsenceIsRightsEmpty(hs, n, path);
    }
  }

  lemma AbsenceIsRightsEmpty<H>(hs: Hasher<H>, n: Trie<H>, path: Path)
    ensures AbsenceShows(hs, n, path) <==> EndsClean(hs, n, path) && RightsEmpty(hs, n, [], path)
  {
    assert forall q :: HasPrefix(q, []);
    if RightsEmpty(hs, n, [], path) {
      forall d | 0 <= d < |Walk(hs, n, path).0| && Bit(path, d) ensures EmptyBelow(n, path, d) {
      }
    }
    if AbsenceShows(hs, n, path) {
      forall d | 0 <= d < |Walk(hs, n, path).0| && Bit(path, d)
        ensures forall q | HasPrefix(q, []) && AgreeTo(q, path, d) :: Read(n, q) == []
      {
        assert EmptyBelow(n, path, d);
      }
    }
  }

  /** So every proof of absence fails whose path turns right at the root of a trie that
      holds anything. */
  lemma RightTurnDefeatsAbsence<H(!new)>(hs: Hasher<H>, n: Trie<H>, path: Path, held: Path)
    requires CollisionFree(hs) && WellFormed(hs, n, []) && n.Some? && n.value.Interim?
    requires Bit(path, 0) && !Included(hs, n, path) && Read(n, held) != []
    ensures !Verifies(hs, Prove(hs, n, path), HashOf(hs, n, MAX_HEIGHT))
  {
    ProofVerifiesIff(hs, n, path);
    WalkEnds(hs, n, [], path);
    if |Walk(hs, n, path).0| == MAX_HEIGHT {
      if held == path {
        NotIncludedReadsEmpty(hs, n, path);
      }
    } else {
      assert AgreeTo(held, path, 0);
    }
  }

  lemma NotIncludedReadsEmpty<H>(hs: Hasher<H>, n: Trie<H>, path: Path)
    requires WellFormed(hs, n, []) && !Included(hs, n, path)
    ensures Read(n, path) == []
  {
    ProofVerifies(hs, n, path);
  }

  /** The smallest such trie: one register at the zero path, under the root. */
  lemma AbsenceProofCanFail<H(!new)>(hs: Hasher<H>, value: bytes, path: Path)
    requires CollisionFree(hs) && value != [] && Bit(path, 0)
    ensures var n := Some(NewInterimNode(hs, MAX_HEIGHT, Some(NewLeaf(hs, ZERO_PATH, value, MAX_HEIGHT - 1)), None));
            WellFormed(hs, n, []) && Read(n, path) == [] && |Walk(hs, n, path).0| == 1 && Walk(hs, n, path).1 == None
            && !Verifies(hs, Prove(hs, n, path), HashOf(hs, n, MAX_HEIGHT))
  {
    var leaf := NewLeaf(hs, ZERO_PATH, value, MAX_HEIGHT - 1);
    var n := Some(NewInterimNode(hs, MAX_HEIGHT, Some(leaf), None));
    ZeroBit(0);
    PrefixExtends(ZERO_PATH, [], false);
    assert [] + [false] == [false] && [] + [true] == [true];
    assert WellFormed(hs, Some(leaf), [false]);
    var none: Trie<H> := None;
    assert Walk(hs, none, path) == ([], none);
    RightTurnDefeatsAbsence(hs, n, path, ZERO_PATH);
  }

  ghost predicate Neighbours(p: Path, q: Path) {
    p != q && forall i | 0 <= i < MAX_HEIGHT - 1 :: Bit(p, i) == Bit(q, i)
  }

  lemma {:induction false} NeighboursWalkTogether<H>(hs: Hasher<H>, n: Trie<H>, prefix: seq<bool>, p: Path, q: Path)
    requires WellFormed(hs, n, prefix) && HasPrefix(p, prefix) && Neighbours(p, q)
    requires |prefix| + |Walk(hs, n, p).0| < MAX_HEIGHT
    ensures Walk(hs, n, q).1 == Walk(hs, n, p).1 && Read(n, q) == Read(Walk(hs, n, p).1, q)
    decreases n
  {
    match n
    case Some(Interim(_, l, r, _)) =>
      var b := Bit(p, |prefix|);
      PrefixExtends(p, prefix, b);
      assert Bit(q, |prefix|) == b;
      NeighboursWalkTogether(hs, if b then r else l, prefix + [b], p, q);
    case _ =>
  }

  /** So it fails for every trie that holds two registers whose paths differ in the
      last bit only: neither of their proofs verifies. */
  lemma NeighboursDefeatProofs<H(!new)>(hs: Hasher<H>, n: Trie<H>, p: Path, q: Path)
    requires CollisionFree(hs) && WellFormed(hs, n, []) && Neighbours(p, q)
    requires Read(n, p) != [] && Read(n, q) != []
    ensures !Verifies(hs, Prove(hs, n, p), HashOf(hs, n, MAX_HEIGHT))
  {
    WalkEnds(hs, n, [], p);
    if |Walk(hs, n, p).0| < MAX_HEIGHT {
      NeighboursWalkTogether(hs, n, [], p, q);
    }
    ProofVerifiesIff(hs, n, p);
  }

  // ----- proofs of absence

  /** Without pruning, an update that recurses makes a node of the two halves. */
  lemma UpdateShape<H>(hs: Hasher<H>, n: Trie<H>, ws: seq<Write>, carried: Trie<H>, prefix: seq<bool>)
    requires Updatable(hs, n, ws, carried, prefix) && !Stops(n, ws, carried)
    ensures |prefix| < MAX_HEIGHT
    ensures forall b :: Updatable(hs, Child(n, b), Side(ws, |prefix|, b), CarryTo(Carry(n, ws, carried), |prefix|, b), prefix + [b])
    ensures var m := Update(hs, n, ws, carried, false, prefix).0;
            var leaf := Carry(n, ws, carried);
            m.Some? && m.value.Interim? && m.value.height == MAX_HEIGHT - |prefix|
            && m.value.left == Update(hs, Child(n, false), Side(ws, |prefix|, false), CarryTo(leaf, |prefix|, false), false, prefix + [false]).0
            && m.value.right == Update(hs, Child(n, true), Side(ws, |prefix|, true), CarryTo(leaf, |prefix|, true), false, prefix + [true]).0
  {
    StepDown(hs, n, ws, carried, prefix);
    hide HasPrefix, Side, Writes, Distinct, CompactHash, Branch, Default, NewLeaf;
  }

  lemma StopHasLeaf<H>(hs: Hasher<H>, n: Trie<H>, ws: seq<Write>, carried: Trie<H>, prefix: seq<bool>, p: Path)
    requires Updatable(hs, n, ws, carried, prefix) && Writes(ws, p) && Stops(n, ws, carried)
    ensures var end := Walk(hs, Update(hs, n, ws, carried, false, prefix).0, p).1;
            end.Some? && end.value.Leaf? && end.value.path == p
  {
    hide HasPrefix, CompactHash, Branch, Default, Bit, WellFormed, Distinct;
  }

  lemma WalkDown<H>(hs: Hasher<H>, m: Trie<H>, prefix: seq<bool>, p: Path)
    requires m.Some? && m.value.Interim? && m.value.height == MAX_HEIGHT - |prefix|
    ensures Walk(hs, m, p).1 == Walk(hs, if Bit(p, |prefix|) then m.value.right else m.value.left, p).1
  {
    hide Bit, Default, IsDefaultNode;
  }

  /** Writing to a path without pruning gives it a leaf of its own. */
  lemma {:induction false} WrittenHasLeaf<H>(hs: Hasher<H>, n: Trie<H>, ws: seq<Write>, carried: Trie<H>, prefix: seq<bool>, p: Path)
    requires Updatable(hs, n, ws, carried, prefix) && Writes(ws, p) && HasPrefix(p, prefix)
    ensures var end := Walk(hs, Update(hs, n, ws, carried, false, prefix).0, p).1;
            end.Some? && end.value.Leaf? && end.value.path == p
    decreases MAX_HEIGHT - |prefix|
  {
    hide Update, Updatable, Side, Writes, HasPrefix, IsDefaultNode, Carry, CarryTo, Child, Stops, Walk, Bit;
    if Stops(n, ws, carried) {
      StopHasLeaf(hs, n, ws, carried, prefix, p);
    } else {
      UpdateShape(hs, n, ws, carried, prefix);
      var b := Bit(p, |prefix|);
      PrefixExtends(p, prefix, b);
      SideWrites(ws, |prefix|, b, p);
      WrittenHasLeaf(hs, Child(n, b), Side(ws, |prefix|, b), CarryTo(Carry(n, ws, carried), |prefix|, b), prefix + [b], p);
      WalkDown(hs, Update(hs, n, ws, carried, false, prefix).0, prefix, p);
    }
  }

  /** How the forest proves registers: it writes the empty value, without pruning, to
      the requested paths that have none, which leaves the root hash as it was, and
      then proves every path in the trie that results. */
  lemma ForestProofs<H(!new)>(hs: Hasher<H>, n: Trie<H>, absent: seq<Write>, p: Path)
    requires Updatable(hs, n, absent, None, [])
    requires forall i | 0 <= i < |absent| :: absent[i].value == [] && Read(n, absent[i].path) == []
    requires Writes(absent, p) || Read(n, p) != []
    ensures var m := Update(hs, n, absent, None, false, []).0;
            HashOf(hs, m, MAX_HEIGHT) == HashOf(hs, n, MAX_HEIGHT)
            && Prove(hs, m, p).value == Read(n, p)
            && (|Walk(hs, m, p).0| < MAX_HEIGHT ==> Verifies(hs, Prove(hs, m, p), HashOf(hs, n, MAX_HEIGHT)))
  {
    hide Update, Walk, SiblingsFrom, Ascend, Expanded, Values;
    var m := Update(hs, n, absent, None, false, []).0;
    UpdateCorrect(hs, n, absent, None, false, []);
    forall q ensures Read(m, q) == Read(n, q) {
      assert HasPrefix(q, []);
    }
    HashIsExpanded(hs, n, [], Registers(n));
    HashIsExpanded(hs, m, [], Registers(n));
    WalkEnds(hs, m, [], p);
    if Writes(absent, p) {
      WrittenHasLeaf(hs, n, absent, None, [], p);
    }
    ProofVerifies(hs, m, p);
  }
}
