/** Tries that were always updated with pruning: there is exactly one for the registers
    it holds, whatever was written on the way. */
module PrunedTries {
  import opened Bytes
  import opened LedgerFormat
  import opened Merkle
  import opened MTrie

  /** Leaves hold a value, and no interim node could be a leaf or nothing instead. */
  ghost predicate Pruned<H>(n: Trie<H>)
    decreases n
  {
    match n
    case None => true
    case Some(Leaf(_, _, value, _)) => value != []
    case Some(Interim(_, l, r, _)) =>
      Pruned(l) && Pruned(r) && (l.Some? || r.Some?)
      && (l.None? ==> r.value.Interim?) && (r.None? ==> l.value.Interim?)
  }

  /** The one exception, which only the root can be: a leaf without a value. */
  ghost predicate EmptyLeaf<H>(n: Trie<H>) {
    n.Some? && n.value.Leaf? && n.value.value == []
  }

  ghost predicate PrunedOrEmpty<H>(n: Trie<H>) {
    Pruned(n) || EmptyLeaf(n)
  }

  lemma EmptyLeafIsDefault<H>(hs: Hasher<H>, n: Trie<H>, prefix: seq<bool>)
    requires WellFormed(hs, n, prefix) && EmptyLeaf(n)
    ensures IsDefaultNode(hs, n)
  {
  }

  lemma CompactifiedIsPruned<H>(hs: Hasher<H>, l: Trie<H>, r: Trie<H>, prefix: seq<bool>)
    requires |prefix| < MAX_HEIGHT && WellFormed(hs, l, prefix + [false]) && WellFormed(hs, r, prefix + [true])
    requires PrunedOrEmpty(l) && PrunedOrEmpty(r)
    ensures Pruned(NewInterimCompactifiedNode(hs, MAX_HEIGHT - |prefix|, l, r))
  {
    hide WellFormed, Default, IsDefaultNode;
    if EmptyLeaf(l) {
      EmptyLeafIsDefault(hs, l, prefix + [false]);
    }
    if EmptyLeaf(r) {
      EmptyLeafIsDefault(hs, r, prefix + [true]);
    }
  }

  lemma CarriedPruned<H>(n: Trie<H>, ws: seq<Write>, carried: Trie<H>, depth: nat, b: bool)
    requires PrunedOrEmpty(n) && PrunedOrEmpty(carried)
    ensures PrunedOrEmpty(Child(n, b)) && PrunedOrEmpty(CarryTo(Carry(n, ws, carried), depth, b))
  {
    hide Bit, Writes;
  }

  /** Updating with pruning keeps a trie pruned. */
  lemma {:induction false} UpdatePrunes<H(!new)>(hs: Hasher<H>, n: Trie<H>, ws: seq<Write>, carried: Trie<H>, prefix: seq<bool>)
    requires Updatable(hs, n, ws, carried, prefix) && CollisionFree(hs) && PrunedOrEmpty(n) && PrunedOrEmpty(carried)
    ensures PrunedOrEmpty(Update(hs, n, ws, carried, true, prefix).0)
    decreases MAX_HEIGHT - |prefix|
  {
    hide HasPrefix, Side, Writes, Distinct, WellFormed, Updatable, CollisionFree, CompactHash, Branch, Default;
    hide NewInterimNode, NewInterimCompactifiedNode, Bit, Updated;
    if !Stops(n, ws, carried) {
      StepDown(hs, n, ws, carried, prefix);
      var leaf := Carry(n, ws, carried);
      var lw, lc := Side(ws, |prefix|, false), CarryTo(leaf, |prefix|, false);
      var rw, rc := Side(ws, |prefix|, true), CarryTo(leaf, |prefix|, true);
      CarriedPruned(n, ws, carried, |prefix|, false);
      CarriedPruned(n, ws, carried, |prefix|, true);
      UpdatePrunes(hs, Child(n, false), lw, lc, prefix + [false]);
      UpdatePrunes(hs, Child(n, true), rw, rc, prefix + [true]);
      UpdateWellFormed(hs, Child(n, false), lw, lc, prefix + [false]);
      UpdateWellFormed(hs, Child(n, true), rw, rc, prefix + [true]);
      var l := Update(hs, Child(n, false), lw, lc, true, prefix + [false]).0;
      var r := Update(hs, Child(n, true), rw, rc, true, prefix + [true]).0;
      CompactifiedIsPruned(hs, l, r, prefix);
    }
  }

  lemma UpdateWellFormed<H(!new)>(hs: Hasher<H>, n: Trie<H>, ws: seq<Write>, carried: Trie<H>, prefix: seq<bool>)
    requires Updatable(hs, n, ws, carried, prefix) && CollisionFree(hs)
    ensures WellFormed(hs, Update(hs, n, ws, carried, true, prefix).0, prefix)
  {
    hide HasPrefix, Side, Writes, Distinct, WellFormed, Updatable, CollisionFree, Update;
    UpdateCorrect(hs, n, ws, carried, true, prefix);
  }

  // ----- uniqueness

  /** A pruned trie holds something, and an interim node at least two registers. */
  lemma {:induction false} PrunedHolds<H>(hs: Hasher<H>, n: Trie<H>, prefix: seq<bool>) returns (p: Path, q: Path)
    requires WellFormed(hs, n, prefix) && Pruned(n) && n.Some?
    ensures HasPrefix(p, prefix) && Read(n, p) != []
    ensures n.value.Interim? ==> HasPrefix(q, prefix) && Read(n, q) != [] && p != q
    decreases n
  {
    hide HasPrefix, CompactHash, Default, Bit;
    match n.value
    case Leaf(_, path, _, _) =>
      p, q := path, path;
    case Interim(_, l, r, _) =>
      if l.Some? && r.Some? {
        var x, _ := PrunedHolds(hs, l, prefix + [false]);
        var y, _ := PrunedHolds(hs, r, prefix + [true]);
        PrefixExtends(x, prefix, false);
        PrefixExtends(y, prefix, true);
        p, q := x, y;
      } else {
        var b := l.None?;
        p, q := PrunedHolds(hs, if b then r else l, prefix + [b]);
        PrefixExtends(p, prefix, b);
        PrefixExtends(q, prefix, b);
      }
  }

  ghost predicate SameUnder<H>(n: Trie<H>, m: Trie<H>, prefix: seq<bool>) {
    forall p | HasPrefix(p, prefix) :: Read(n, p) == Read(m, p)
  }

  lemma SameChildren<H>(hs: Hasher<H>, n: Trie<H>, m: Trie<H>, prefix: seq<bool>, b: bool)
    requires WellFormed(hs, n, prefix) && WellFormed(hs, m, prefix) && SameUnder(n, m, prefix)
    requires n.Some? && m.Some? && n.value.Interim? && m.value.Interim?
    ensures SameUnder(Child(n, b), Child(m, b), prefix + [b])
  {
    hide HasPrefix, CompactHash, Default, Bit;
    forall p | HasPrefix(p, prefix + [b]) ensures Read(Child(n, b), p) == Read(Child(m, b), p) {
      PrefixExtends(p, prefix, b);
      assert Read(n, p) == Read(m, p);
    }
  }

  lemma OneLeaf<H>(n: Trie<H>, p: Path)
    requires n.Some? && n.value.Leaf?
    ensures Read(n, p) != [] ==> p == n.value.path
  {
  }

  /** Same shape at the top, if the same registers are held. */
  lemma SameTop<H>(hs: Hasher<H>, n: Trie<H>, m: Trie<H>, prefix: seq<bool>)
    requires WellFormed(hs, n, prefix) && WellFormed(hs, m, prefix) && Pruned(n) && Pruned(m) && SameUnder(n, m, prefix)
    ensures n.Some? ==> m.Some? && (n.value.Interim? ==> m.value.Interim?)
    ensures n.Some? && n.value.Leaf? && m.Some? && m.value.Leaf? ==> n == m
  {
    hide HasPrefix, CompactHash, Default, Bit, Pruned;
    if n.Some? {
      var p, q := PrunedHolds(hs, n, prefix);
      assert Read(n, p) == Read(m, p);
      assert n.value.Interim? ==> Read(n, q) == Read(m, q);
      if m.Some? && m.value.Leaf? {
        OneLeaf(m, p);
        OneLeaf(m, q);
      }
    }
  }

  /** Two pruned tries with the same registers are the same, node by node. */
  lemma {:induction false} PrunedUnique<H>(hs: Hasher<H>, n: Trie<H>, m: Trie<H>, prefix: seq<bool>)
    requires WellFormed(hs, n, prefix) && WellFormed(hs, m, prefix) && Pruned(n) && Pruned(m) && SameUnder(n, m, prefix)
    ensures n == m
    decreases n
  {
    hide HasPrefix, CompactHash, Default, Bit, SameUnder;
    SameTop(hs, n, m, prefix);
    assert SameUnder(m, n, prefix) by {
      Symmetric(n, m, prefix);
    }
    SameTop(hs, m, n, prefix);
    if n.Some? && n.value.Interim? {
      SameChildren(hs, n, m, prefix, false);
      SameChildren(hs, n, m, prefix, true);
      PrunedUnique(hs, n.value.left, m.value.left, prefix + [false]);
      PrunedUnique(hs, n.value.right, m.value.right, prefix + [true]);
    }
  }

  lemma Symmetric<H>(n: Trie<H>, m: Trie<H>, prefix: seq<bool>)
    requires SameUnder(n, m, prefix)
    ensures SameUnder(m, n, prefix)
  {
    hide HasPrefix, Read;
  }

  // ----- histories

  ghost predicate AllPrune(batches: seq<Batch>) {
    forall i | 0 <= i < |batches| :: batches[i].prune
  }

  lemma {:induction false} BuildIsPruned<H(!new)>(hs: Hasher<H>, batches: seq<Batch>)
    requires CollisionFree(hs) && AllDistinct(batches) && AllPrune(batches)
    ensures PrunedOrEmpty(Build(hs, batches))
  {
    hide CollisionFree, Update, Pruned;
    if batches == [] {
      assert Pruned<H>(None) by {
        NothingPruned<H>();
      }
    } else {
      var n := |batches| - 1;
      BuildIsPruned(hs, batches[..n]);
      NothingPruned<H>();
      UpdatePrunes(hs, Build(hs, batches[..n]), batches[n].writes, None, []);
    }
  }

  lemma NothingPruned<H>()
    ensures Pruned<H>(None)
  {
  }

  /** A root without registers may be a leaf that was emptied. */
  function Trimmed<H>(n: Trie<H>): Trie<H> {
    if n.Some? && n.value.Leaf? && n.value.value == [] then None else n
  }

  /** Histories that always prune end in the same trie exactly if they leave the same
      values, and in it every leaf holds a value. */
  lemma PrunedHistoriesAgree<H(!new)>(hs: Hasher<H>, batches: seq<Batch>, other: seq<Batch>)
    requires CollisionFree(hs) && AllDistinct(batches) && AllDistinct(other) && AllPrune(batches) && AllPrune(other)
    ensures Pruned(Trimmed(Build(hs, batches)))
    ensures Trimmed(Build(hs, batches)) == Trimmed(Build(hs, other)) <==> SameOutcome(batches, other)
  {
    hide CollisionFree, AllDistinct, AllPrune, Build, Pruned, WellFormed, Read, LastWritten;
    var n, m := Build(hs, batches), Build(hs, other);
    BuildIsPruned(hs, batches);
    BuildIsPruned(hs, other);
    TrimmedIs(hs, n);
    TrimmedIs(hs, m);
    forall p
      ensures Read(Trimmed(n), p) == LastWritten(batches, p) && Read(Trimmed(m), p) == LastWritten(other, p)
    {
      BuildHoldsLastWritten(hs, batches, p);
      BuildHoldsLastWritten(hs, other, p);
    }
    if SameOutcome(batches, other) {
      PrunedUnique(hs, Trimmed(n), Trimmed(m), []);
    }
  }

  lemma TrimmedIs<H>(hs: Hasher<H>, n: Trie<H>)
    requires WellFormed(hs, n, []) && PrunedOrEmpty(n)
    ensures WellFormed(hs, Trimmed(n), []) && Pruned(Trimmed(n)) && forall p :: Read(Trimmed(n), p) == Read(n, p)
  {
    hide HasPrefix, CompactHash, Bit;
  }
}
