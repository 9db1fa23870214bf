/** Byte strings, big-endian integers and the readers of ledger/common/utils. */
module Bytes {

  newtype byte = x: int | 0 <= x < 256

  type bytes = seq<byte>

  datatype Option<+T> = None | Some(value: T) {
    predicate IsFailure() { None? }

    function PropagateFailure<U>(): Option<U>
      requires None?
    {
      None
    }

    function Extract(): T
      requires Some?
    {
      value
    }
  }

  // ----- fixed-width big-endian integers

  function Pow256(w: nat): (p: nat)
    ensures p > 0
  {
    if w == 0 then 1 else 256 * Pow256(w - 1)
  }

  /** The low `w` bytes of `n`, most significant first: Go's truncating
      conversion to an unsigned integer followed by a big-endian write. */
  function ToBE(n: nat, w: nat): (b: bytes)
    ensures |b| == w
  {
    if w == 0 then [] else ToBE(n / 256, w - 1) + [(n % 256) as byte]
  }

  function FromBE(b: bytes): nat {
    if b == [] then 0 else FromBE(b[..|b| - 1]) * 256 + b[|b| - 1] as nat
  }

  lemma {:induction false} FromToBE(n: nat, w: nat)
    requires n < Pow256(w)
    ensures FromBE(ToBE(n, w)) == n
  {
    if w != 0 {
      FromToBE(n / 256, w - 1);
      assert ToBE(n, w)[..w - 1] == ToBE(n / 256, w - 1);
    }
  }

  lemma {:induction false} ToFromBE(b: bytes)
    ensures FromBE(b) < Pow256(|b|)
    ensures ToBE(FromBE(b), |b|) == b
  {
    if b != [] {
      var c := b[..|b| - 1];
      ToFromBE(c);
      var n := FromBE(b);
      assert n / 256 == FromBE(c) && n % 256 == b[|b| - 1] as nat;
      assert b == c + [b[|b| - 1]];
    }
  }

  /** The widths the format uses. */
  lemma Widths()
    ensures Pow256(1) == 0x100 && Pow256(2) == 0x1_0000
    ensures Pow256(4) == 0x1_0000_0000 && Pow256(8) == 0x1_0000_0000_0000_0000
  {
    assert Pow256(1) == 256 * Pow256(0);
    assert Pow256(2) == 256 * Pow256(1);
    assert Pow256(3) == 256 * Pow256(2);
    assert Pow256(4) == 256 * Pow256(3);
    assert Pow256(5) == 256 * Pow256(4);
    assert Pow256(6) == 256 * Pow256(5);
    assert Pow256(7) == 256 * Pow256(6);
    assert Pow256(8) == 256 * Pow256(7);
  }

  // ----- readers: each fails on short input and otherwise returns the rest

  function ReadSlice(input: bytes, size: nat): Option<(bytes, bytes)> {
    if |input| < size then None else Some((input[..size], input[size..]))
  }

  /** A big-endian unsigned integer of `w` bytes. */
  function ReadUint(input: bytes, w: nat): Option<(nat, bytes)> {
    if |input| < w then None else Some((FromBE(input[..w]), input[w..]))
  }

  lemma ReadSliceOfConcat(a: bytes, t: bytes)
    ensures ReadSlice(a + t, |a|) == Some((a, t))
  {
    assert (a + t)[..|a|] == a && (a + t)[|a|..] == t;
  }

  lemma ReadUintOfWritten(n: nat, w: nat, t: bytes)
    requires n < Pow256(w)
    ensures ReadUint(ToBE(n, w) + t, w) == Some((n, t))
  {
    FromToBE(n, w);
    assert (ToBE(n, w) + t)[..w] == ToBE(n, w) && (ToBE(n, w) + t)[w..] == t;
  }

  /** Whatever is read is in range, and writing it back gives the bytes read. */
  lemma ReadUintInRange(s: bytes, w: nat)
    requires |s| >= w
    ensures FromBE(s[..w]) < Pow256(w)
    ensures s == ToBE(FromBE(s[..w]), w) + s[w..]
  {
    ToFromBE(s[..w]);
  }
}
