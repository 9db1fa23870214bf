/** The two building blocks of the ledger format: a length-prefixed blob, and a
    list of items each stored in such a blob.

    Three facts are proved about each block.  A written block reads back, leaving
    what followed it.  A successful read is local: more input behind it changes
    only the rest.  A successful read is canonical: the bytes consumed are the
    ones the writer produces for the value returned. */
module Framing {
  import opened Bytes

  // ----- blobs

  function Sized(b: bytes, w: nat): bytes {
    ToBE(|b|, w) + b
  }

  function ReadSized(s: bytes, w: nat): Option<(bytes, bytes)> {
    var (n, rest) :- ReadUint(s, w);
    ReadSlice(rest, n)
  }

  lemma SizedRoundTrip(b: bytes, w: nat, t: bytes)
    requires |b| < Pow256(w)
    ensures ReadSized(Sized(b, w) + t, w) == Some((b, t))
  {
    assert Sized(b, w) + t == ToBE(|b|, w) + (b + t);
    ReadUintOfWritten(|b|, w, b + t);
    ReadSliceOfConcat(b, t);
  }

  lemma SizedLocal(s: bytes, w: nat, t: bytes)
    requires ReadSized(s, w).Some?
    ensures var (b, r) := ReadSized(s, w).value; ReadSized(s + t, w) == Some((b, r + t))
  {
    UintLocal(s, w, t);
    var (n, r) := ReadUint(s, w).value;
    SliceLocal(r, n, t);
  }

  lemma UintLocal(s: bytes, w: nat, t: bytes)
    requires ReadUint(s, w).Some?
    ensures var (n, r) := ReadUint(s, w).value; ReadUint(s + t, w) == Some((n, r + t))
  {
    assert (s + t)[..w] == s[..w] && (s + t)[w..] == s[w..] + t;
  }

  lemma SliceLocal(s: bytes, n: nat, t: bytes)
    requires ReadSlice(s, n).Some?
    ensures var (b, r) := ReadSlice(s, n).value; ReadSlice(s + t, n) == Some((b, r + t))
  {
    assert (s + t)[..n] == s[..n] && (s + t)[n..] == s[n..] + t;
  }

  lemma SizedCanonical(s: bytes, w: nat)
    requires ReadSized(s, w).Some?
    ensures var (b, r) := ReadSized(s, w).value; |b| < Pow256(w) && s == Sized(b, w) + r
  {
    ReadUintInRange(s, w);
    var (n, rest) := ReadUint(s, w).value;
    var (b, r) := ReadSlice(rest, n).value;
    assert rest == b + r;
  }

  // ----- lists of blobs

  function Items<T>(w: nat, write: T -> bytes, xs: seq<T>): bytes {
    if xs == [] then [] else Sized(write(xs[0]), w) + Items(w, write, xs[1..])
  }

  /** Reads `n` blobs and turns each into a value; a blob that is no value fails. */
  function ReadItems<T>(w: nat, read: bytes -> Option<T>, n: nat, s: bytes): Option<(seq<T>, bytes)> {
    if n == 0 then Some(([], s)) else
    var (b, rest) :- ReadSized(s, w);
    var x :- read(b);
    var (xs, rest') :- ReadItems(w, read, n - 1, rest);
    Some(([x] + xs, rest'))
  }

  lemma {:induction false} ItemsRoundTrip<T>(w: nat, write: T -> bytes, read: bytes -> Option<T>, xs: seq<T>, t: bytes)
    requires forall x | x in xs :: read(write(x)) == Some(x) && |write(x)| < Pow256(w)
    ensures ReadItems(w, read, |xs|, Items(w, write, xs) + t) == Some((xs, t))
  {
    if xs == [] {
      assert [] + t == t;
    } else {
      var s := Items(w, write, xs[1..]) + t;
      assert Items(w, write, xs) + t == Sized(write(xs[0]), w) + s;
      SizedRoundTrip(write(xs[0]), w, s);
      ItemsRoundTrip(w, write, read, xs[1..], t);
      assert [xs[0]] + xs[1..] == xs;
    }
  }

  lemma {:induction false} ItemsLocal<T>(w: nat, read: bytes -> Option<T>, n: nat, s: bytes, t: bytes)
    requires ReadItems(w, read, n, s).Some?
    ensures var (xs, r) := ReadItems(w, read, n, s).value;
            ReadItems(w, read, n, s + t) == Some((xs, r + t))
  {
    if n != 0 {
      SizedLocal(s, w, t);
      ItemsLocal(w, read, n - 1, ReadSized(s, w).value.1, t);
    }
  }

  lemma {:induction false} ItemsCanonical<T>(w: nat, write: T -> bytes, read: bytes -> Option<T>, n: nat, s: bytes)
    requires forall b :: read(b).Some? ==> write(read(b).value) == b
    requires ReadItems(w, read, n, s).Some?
    ensures var (xs, r) := ReadItems(w, read, n, s).value;
            s == Items(w, write, xs) + r && forall x | x in xs :: |write(x)| < Pow256(w)
  {
    if n != 0 {
      SizedCanonical(s, w);
      var (b, rest) := ReadSized(s, w).value;
      ItemsCanonical(w, write, read, n - 1, rest);
      var (xs, r) := ReadItems(w, read, n - 1, rest).value;
      var x := read(b).value;
      assert ([x] + xs)[1..] == xs;
      assert s == Sized(b, w) + (Items(w, write, xs) + r);
    }
  }

  /** Every item read has any property that reading a short enough blob guarantees. */
  lemma {:induction false} ItemsAll<T>(w: nat, read: bytes -> Option<T>, n: nat, s: bytes, q: T -> bool)
    requires forall b :: |b| < Pow256(w) && read(b).Some? ==> q(read(b).value)
    requires ReadItems(w, read, n, s).Some?
    ensures var xs := ReadItems(w, read, n, s).value.0;
            |xs| == n && forall x | x in xs :: q(x)
  {
    if n != 0 {
      SizedCanonical(s, w);
      ItemsAll(w, read, n - 1, ReadSized(s, w).value.1, q);
    }
  }

  // ----- what a loop over items has still to do

  /** The outcome of a loop that has `done` items and the outcome of the rest of it. */
  function Resume<T>(done: seq<T>, o: Option<(seq<T>, bytes)>): (res: Option<(seq<T>, bytes)>)
    ensures done == [] ==> res == o
    ensures o.Some? && o.value.0 == [] ==> res == Some((done, o.value.1))
  {
    var (xs, r) :- o;
    assert [] + xs == xs && done + [] == done;
    Some((done + xs, r))
  }

  /** One round of a loop over items. */
  lemma ResumeStep<T>(w: nat, read: bytes -> Option<T>, n: nat, s: bytes, done: seq<T>)
    requires n > 0 && ReadSized(s, w).Some? && read(ReadSized(s, w).value.0).Some?
    ensures var (b, rest) := ReadSized(s, w).value;
            Resume(done, ReadItems(w, read, n, s)) == Resume(done + [read(b).value], ReadItems(w, read, n - 1, rest))
  {
    var (b, rest) := ReadSized(s, w).value;
    if ReadItems(w, read, n - 1, rest).Some? {
      var xs := ReadItems(w, read, n - 1, rest).value.0;
      assert done + ([read(b).value] + xs) == done + [read(b).value] + xs;
    }
  }

  lemma ItemsSnoc<T>(w: nat, write: T -> bytes, xs: seq<T>, x: T)
    ensures Items(w, write, xs + [x]) == Items(w, write, xs) + Sized(write(x), w)
  {
    if xs == [] {
      assert [x][1..] == [];
    } else {
      ItemsSnoc(w, write, xs[1..], x);
      assert (xs + [x])[1..] == xs[1..] + [x];
    }
  }
}
