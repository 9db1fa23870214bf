/** The encoders and decoders of ledger/trie_encoder.go as the source writes them:
    loops that grow a buffer, and loops that advance `rest` and fill a list.
    Each is proved to compute the function of module LedgerFormat. */
module LedgerCodec {
  import opened Bytes
  import opened Framing
  import opened LedgerFormat
  import opened LedgerLaws

  /** A length of `w` bytes and then the data. */
  method AppendSized(buffer: bytes, b: bytes, w: nat) returns (out: bytes)
    ensures out == buffer + Sized(b, w)
  {
    out := buffer + ToBE(|b|, w);
    out := out + b;
  }

  /** One round of an encoder's loop over items: `out` holds the first `i` of them,
      and `e` is the encoding of the next. */
  method AppendItem<T>(ghost buffer: bytes, w: nat, ghost write: T -> bytes, ghost xs: seq<T>, ghost i: nat, out: bytes, e: bytes)
    returns (next: bytes)
    requires i < |xs| && out == buffer + Items(w, write, xs[..i]) && e == write(xs[i])
    ensures next == buffer + Items(w, write, xs[..i + 1])
  {
    next := AppendSized(out, e, w);
    ItemsSnoc(w, write, xs[..i], xs[i]);
    assert xs[..i + 1] == xs[..i] + [xs[i]];
  }

  method NextBlob(inp: bytes, w: nat) returns (r: Option<(bytes, bytes)>)
    ensures r == ReadSized(inp, w)
  {
    var size := ReadUint(inp, w);
    if size.None? { return None; }
    return ReadSlice(size.value.1, size.value.0);
  }

  // ----- keys

  method AppendKey(buffer: bytes, k: Key) returns (out: bytes)
    ensures out == buffer + KeyBytes(k)
  {
    out := buffer + ToBE(|k.parts|, 2);
    for i := 0 to |k.parts|
      invariant out == buffer + ToBE(|k.parts|, 2) + Items(4, PartBytes, k.parts[..i])
    {
      var kp := k.parts[i];
      out := out + ToBE(2 + |kp.value|, 4);
      out := out + ToBE(kp.typ as nat, 2);
      out := out + kp.value;
      ItemsSnoc(4, PartBytes, k.parts[..i], kp);
      assert k.parts[..i + 1] == k.parts[..i] + [kp];
    }
    assert k.parts[..|k.parts|] == k.parts;
  }

  method EncodedKeyLength(k: Key) returns (size: nat)
    ensures size == |KeyBytes(k)|
  {
    size := 2 + 4 * |k.parts|;
    for i := 0 to |k.parts|
      invariant size + PartsLength(k.parts[i..]) == KeyLength(k) + 4 * (|k.parts| - i)
    {
      size := size + 2 + |k.parts[i].value|;
      assert k.parts[i..][1..] == k.parts[i + 1..];
    }
    KeyLengthExact(k);
  }

  method DecodeKeyPart(inp: bytes) returns (r: Option<(KeyPart, bytes)>)
    ensures r == match ReadSized(inp, 4)
                 case None => None
                 case Some((b, rest)) => if ToPart(b).None? then None else Some((ToPart(b).value, rest))
  {
    var slice := NextBlob(inp, 4);
    if slice.None? { return None; }
    var kp := ToPart(slice.value.0);
    if kp.None? { return None; }
    return Some((kp.value, slice.value.1));
  }

  method DecodeKey(inp: bytes) returns (r: Option<Key>)
    ensures r == DecodedKey(inp)
  {
    var count := ReadUint(inp, 2);
    if count.None? { return None; }
    var (n, rest) := count.value;
    var parts: seq<KeyPart> := [];
    for i := 0 to n
      invariant ReadItems(4, ToPart, n, count.value.1) == Resume(parts, ReadItems(4, ToPart, n - i, rest))
    {
      var part := DecodeKeyPart(rest);
      if part.None? { return None; }
      ResumeStep(4, ToPart, n - i, rest, parts);
      parts, rest := parts + [part.value.0], part.value.1;
    }
    return Some(Key(parts));
  }

  /** Stops at the first part of the type, without looking at the parts behind it. */
  method DecodeKeyPartValueByType(inp: bytes, typ: uint16) returns (r: Lookup)
    ensures r == LookupByType(inp, typ)
    ensures DecodedKey(inp).Some? ==> r == FirstOfType(DecodedKey(inp).value.parts, typ)
  {
    LookupAgrees(inp, typ);
    var count := ReadUint(inp, 2);
    if count.None? { return Malformed; }
    var (n, rest) := count.value;
    for i := 0 to n
      invariant LookupByType(inp, typ) == LookupParts(n - i, rest, typ)
    {
      var part := DecodeKeyPart(rest);
      if part.None? { return Malformed; }
      if part.value.0.typ == typ { return Found(part.value.0.value); }
      rest := part.value.1;
    }
    return NotFound;
  }

  // ----- payloads

  method EncodePayload(version: nat, p: Payload) returns (out: bytes)
    ensures out == PayloadBytes(version, p)
  {
    out := AppendSized([], p.encKey, 4);
    if version == 0 {
      out := AppendSized(out, p.value, 8);
    } else {
      out := AppendSized(out, p.value, 4);
    }
  }

  method DecodePayload(version: nat, inp: bytes) returns (r: Option<Payload>)
    ensures r == DecodedPayload(version, inp)
  {
    var key := NextBlob(inp, 4);
    if key.None? { return None; }
    var valueSize := if version == 0 then ReadUint(key.value.1, 8) else ReadUint(key.value.1, 4);
    if valueSize.None? { return None; }
    var value := ReadSlice(valueSize.value.1, valueSize.value.0);
    if value.None? { return None; }
    return Some(Payload(key.value.0, value.value.0));
  }

  // ----- trie updates

  lemma ConcatSnoc(paths: seq<Path>, p: Path)
    ensures Concat(paths + [p]) == Concat(paths) + p
  {
    if paths == [] {
      assert [p][1..] == [];
    } else {
      ConcatSnoc(paths[1..], p);
      assert (paths + [p])[1..] == paths[1..] + [p];
    }
  }

  method AppendPaths(buffer: bytes, paths: seq<Path>) returns (out: bytes)
    ensures out == buffer + Concat(paths)
  {
    out := buffer;
    for i := 0 to |paths|
      invariant out == buffer + Concat(paths[..i])
    {
      out := out + paths[i];
      ConcatSnoc(paths[..i], paths[i]);
      assert paths[..i + 1] == paths[..i] + [paths[i]];
    }
    assert paths[..|paths|] == paths;
  }

  method AppendPayloads(buffer: bytes, payloads: seq<Payload>) returns (out: bytes)
    ensures out == buffer + Items(4, PayloadWriter(0), payloads)
  {
    out := buffer;
    for i := 0 to |payloads|
      invariant out == buffer + Items(4, PayloadWriter(0), payloads[..i])
    {
      var encPl := EncodePayload(0, payloads[i]);
      out := AppendItem(buffer, 4, PayloadWriter(0), payloads, i, out, encPl);
    }
    assert payloads[..|payloads|] == payloads;
  }

  method EncodeTrieUpdate(u: TrieUpdate) returns (out: bytes)
    ensures out == UpdateBytes(u)
  {
    out := AppendSized([], u.root, 2);
    out := out + ToBE(|u.paths|, 4);
    if |u.paths| == 0 { return; }
    out := out + ToBE(PATH_LEN, 2);
    out := AppendPaths(out, u.paths);
    out := AppendPayloads(out, u.payloads);
  }

  method DecodeTrieUpdate(inp: bytes) returns (r: Option<TrieUpdate>)
    ensures r == DecodedUpdate(inp)
  {
    hide FromBE, ParsePayload;
    var rootBytes := NextBlob(inp, 2);
    if rootBytes.None? { return None; }
    var root := ToHash(rootBytes.value.0);
    if root.None? { return None; }
    var count := ReadUint(rootBytes.value.1, 4);
    if count.None? { return None; }
    var n := count.value.0;
    var pathSize := ReadUint(count.value.1, 2);
    if pathSize.None? { return None; }
    var (size, rest) := pathSize.value;
    var paths: seq<Path> := [];
    for i := 0 to n
      invariant ReadPaths(n, size, pathSize.value.1) == Resume(paths, ReadPaths(n - i, size, rest))
    {
      var slice := ReadSlice(rest, size);
      if slice.None? { return None; }
      var path := ToHash(slice.value.0);
      if path.None? { return None; }
      PathsStep(n - i, size, rest, paths);
      paths, rest := paths + [path.value], slice.value.1;
    }
    ghost var s4 := rest;
    var payloads: seq<Payload> := [];
    for i := 0 to n
      invariant ReadItems(4, PayloadReader(0), n, s4) == Resume(payloads, ReadItems(4, PayloadReader(0), n - i, rest))
    {
      var slice := NextBlob(rest, 4);
      if slice.None? { return None; }
      var payload := DecodePayload(0, slice.value.0);
      if payload.None? { return None; }
      ResumeStep(4, PayloadReader(0), n - i, rest, payloads);
      payloads, rest := payloads + [payload.value], slice.value.1;
    }
    return Some(TrieUpdate(root.value, paths, payloads));
  }

  lemma PathsStep(n: nat, size: nat, s: bytes, done: seq<Path>)
    requires n > 0 && ReadSlice(s, size).Some? && ToHash(ReadSlice(s, size).value.0).Some?
    ensures var (b, rest) := ReadSlice(s, size).value;
            Resume(done, ReadPaths(n, size, s)) == Resume(done + [ToHash(b).value], ReadPaths(n - 1, size, rest))
  {
    var (b, rest) := ReadSlice(s, size).value;
    if ReadPaths(n - 1, size, rest).Some? {
      var ps := ReadPaths(n - 1, size, rest).value.0;
      assert done + ([ToHash(b).value] + ps) == done + [ToHash(b).value] + ps;
    }
  }

  // ----- proofs: what the two kinds share

  method EncodeHead(h: ProofHead) returns (out: bytes)
    ensures out == HeadBytes(h)
  {
    out := if h.inclusion then [0x80] else [0];
    out := out + [h.steps as byte];
    out := AppendSized(out, h.flags, 1);
    out := AppendSized(out, h.path, 2);
  }

  method DecodeHead(inp: bytes) returns (r: Option<(ProofHead, bytes)>)
    ensures r == ParseHead(inp)
  {
    var inclusion := ReadSlice(inp, 1);
    if inclusion.None? { return None; }
    var steps := ReadSlice(inclusion.value.1, 1);
    if steps.None? { return None; }
    var flags := NextBlob(steps.value.1, 1);
    if flags.None? { return None; }
    var pathBytes := NextBlob(flags.value.1, 2);
    if pathBytes.None? { return None; }
    var path := ToHash(pathBytes.value.0);
    if path.None? { return None; }
    var head := ProofHead(inclusion.value.0[0] / 0x80 == 1, steps.value.0[0] as uint8, flags.value.0, path.value);
    return Some((head, pathBytes.value.1));
  }

  method AppendInterims(buffer: bytes, interims: seq<Hash>) returns (out: bytes)
    ensures out == buffer + InterimsBytes(interims)
  {
    out := buffer + ToBE(|interims|, 1);
    for i := 0 to |interims|
      invariant out == buffer + ToBE(|interims|, 1) + Items(2, HashBytes, interims[..i])
    {
      out := AppendItem(buffer + ToBE(|interims|, 1), 2, HashBytes, interims, i, out, interims[i]);
    }
    assert interims[..|interims|] == interims;
  }

  method DecodeInterims(inp: bytes) returns (r: Option<(seq<Hash>, bytes)>)
    ensures r == ParseInterims(inp)
  {
    var count := ReadUint(inp, 1);
    if count.None? { return None; }
    var (n, rest) := count.value;
    var interims: seq<Hash> := [];
    for i := 0 to n
      invariant ReadItems(2, ToHash, n, count.value.1) == Resume(interims, ReadItems(2, ToHash, n - i, rest))
    {
      var slice := NextBlob(rest, 2);
      if slice.None? { return None; }
      var interim := ToHash(slice.value.0);
      if interim.None? { return None; }
      ResumeStep(2, ToHash, n - i, rest, interims);
      interims, rest := interims + [interim.value], slice.value.1;
    }
    return Some((interims, rest));
  }

  // ----- payload-bearing proofs

  method EncodeTrieProof(p: TrieProof) returns (out: bytes)
    ensures out == ProofBytes(p)
  {
    out := EncodeHead(p.head);
    var encPayload := EncodePayload(0, p.payload);
    out := AppendSized(out, encPayload, 8);
    out := AppendInterims(out, p.interims);
  }

  method DecodeTrieProof(inp: bytes) returns (r: Option<TrieProof>)
    ensures r == DecodedProof(inp)
  {
    var head := DecodeHead(inp);
    if head.None? { return None; }
    var slice := NextBlob(head.value.1, 8);
    if slice.None? { return None; }
    var payload := DecodePayload(0, slice.value.0);
    if payload.None? { return None; }
    var interims := DecodeInterims(slice.value.1);
    if interims.None? { return None; }
    return Some(TrieProof(head.value.0, payload.value, interims.value.0));
  }

  method EncodeTrieBatchProof(proofs: seq<TrieProof>) returns (out: bytes)
    ensures out == BatchBytes(ProofBytes, proofs)
  {
    out := ToBE(|proofs|, 4);
    for i := 0 to |proofs|
      invariant out == ToBE(|proofs|, 4) + Items(8, ProofBytes, proofs[..i])
    {
      var encP := EncodeTrieProof(proofs[i]);
      out := AppendItem(ToBE(|proofs|, 4), 8, ProofBytes, proofs, i, out, encP);
    }
    assert proofs[..|proofs|] == proofs;
  }

  method DecodeTrieBatchProof(inp: bytes) returns (r: Option<seq<TrieProof>>)
    ensures r == DecodedBatch(inp)
  {
    hide DecodedProof;
    var count := ReadUint(inp, 4);
    if count.None? { return None; }
    var (n, rest) := count.value;
    var proofs: seq<TrieProof> := [];
    for i := 0 to n
      invariant ReadItems(8, DecodedProof, n, count.value.1) == Resume(proofs, ReadItems(8, DecodedProof, n - i, rest))
    {
      var slice := NextBlob(rest, 8);
      if slice.None? { return None; }
      var proof := DecodeTrieProof(slice.value.0);
      if proof.None? { return None; }
      ResumeStep(8, DecodedProof, n - i, rest, proofs);
      proofs, rest := proofs + [proof.value], slice.value.1;
    }
    return Some(proofs);
  }

  // ----- payloadless proofs

  method EncodePayloadlessTrieProof(p: PayloadlessProof) returns (out: bytes)
    ensures out == PayloadlessBytes(p)
  {
    out := EncodeHead(p.head);
    match p.leafHash
    case Some(h) =>
      out := out + [1];
      out := out + h;
      assert out == HeadBytes(p.head) + LeafBytes(p.leafHash);
      out := AppendInterims(out, p.interims);
    case None =>
      out := out + [0];
      out := AppendInterims(out, p.interims);
  }

  method DecodePayloadlessTrieProof(inp: bytes) returns (r: Option<PayloadlessProof>)
    ensures r == DecodedPayloadless(inp)
  {
    var head := DecodeHead(inp);
    if head.None? { return None; }
    var present := ReadSlice(head.value.1, 1);
    if present.None? { return None; }
    var rest := present.value.1;
    var leaf: Option<Hash> := None;
    if present.value.0[0] == 1 {
      var slice := ReadSlice(rest, PATH_LEN);
      if slice.None? { return None; }
      leaf := ToHash(slice.value.0);
      rest := slice.value.1;
    }
    var interims := DecodeInterims(rest);
    if interims.None? { return None; }
    return Some(PayloadlessProof(head.value.0, leaf, interims.value.0));
  }

  method EncodePayloadlessTrieBatchProof(proofs: seq<PayloadlessProof>) returns (out: bytes)
    ensures out == BatchBytes(PayloadlessBytes, proofs)
  {
    out := ToBE(|proofs|, 4);
    for i := 0 to |proofs|
      invariant out == ToBE(|proofs|, 4) + Items(8, PayloadlessBytes, proofs[..i])
    {
      var encP := EncodePayloadlessTrieProof(proofs[i]);
      out := AppendItem(ToBE(|proofs|, 4), 8, PayloadlessBytes, proofs, i, out, encP);
    }
    assert proofs[..|proofs|] == proofs;
  }

  method DecodePayloadlessTrieBatchProof(inp: bytes) returns (r: Option<seq<PayloadlessProof>>)
    ensures r == DecodedPayloadlessBatch(inp)
  {
    hide DecodedPayloadless;
    var count := ReadUint(inp, 4);
    if count.None? { return None; }
    var (n, rest) := count.value;
    var proofs: seq<PayloadlessProof> := [];
    for i := 0 to n
      invariant ReadItems(8, DecodedPayloadless, n, count.value.1) == Resume(proofs, ReadItems(8, DecodedPayloadless, n - i, rest))
    {
      var slice := NextBlob(rest, 8);
      if slice.None? { return None; }
      var proof := DecodePayloadlessTrieProof(slice.value.0);
      if proof.None? { return None; }
      ResumeStep(8, DecodedPayloadless, n - i, rest, proofs);
      proofs, rest := proofs + [proof.value], slice.value.1;
    }
    if rest != [] { return None; }
    return Some(proofs);
  }
}
