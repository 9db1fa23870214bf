/** The ledger format byte by byte, with every width and tag as a number. */
module LedgerLayout {
  import opened Bytes
  import opened Framing
  import opened LedgerFormat

  // ----- integers

  function Low(n: nat): byte {
    (n % 256) as byte
  }

  function U16(n: nat): bytes {
    [Low(n / 0x100), Low(n)]
  }

  function U32(n: nat): bytes {
    U16(n / 0x1_0000) + U16(n)
  }

  function U64(n: nat): bytes {
    U32(n / 0x1_0000_0000) + U32(n)
  }

  lemma Bytes1(n: nat)
    ensures ToBE(n, 1) == [Low(n)]
  {
    assert ToBE(n / 256, 0) == [];
  }

  lemma Bytes2(n: nat)
    ensures ToBE(n, 2) == U16(n)
  {
    Bytes1(n / 256);
  }

  lemma LastTwo(n: nat, w: nat)
    ensures ToBE(n, w + 2) == ToBE(n / 0x1_0000, w) + U16(n)
  {
    assert n / 256 / 256 == n / 0x1_0000;
    assert ToBE(n, w + 2) == ToBE(n / 256 / 256, w) + [Low(n / 256)] + [Low(n)];
  }

  lemma LastFour(n: nat, w: nat)
    ensures ToBE(n, w + 4) == ToBE(n / 0x1_0000_0000, w) + U32(n)
  {
    hide ToBE, U16;
    LastTwo(n, w + 2);
    LastTwo(n / 0x1_0000, w);
    assert n / 0x1_0000 / 0x1_0000 == n / 0x1_0000_0000;
  }

  lemma Integers(n: nat)
    ensures ToBE(n, 1) == [Low(n)] && ToBE(n, 2) == U16(n) && ToBE(n, 4) == U32(n) && ToBE(n, 8) == U64(n)
  {
    hide U16, U32;
    Bytes1(n);
    Bytes2(n);
    LastFour(n, 4);
    LastFour(n, 0);
    LastFour(n / 0x1_0000_0000, 0);
  }

  // ----- keys and payloads

  function PartsLayout(parts: seq<KeyPart>): bytes {
    if parts == [] then []
    else U32(2 + |parts[0].value|) + U16(parts[0].typ as nat) + parts[0].value + PartsLayout(parts[1..])
  }

  lemma {:induction false} PartsAre(parts: seq<KeyPart>)
    ensures Items(4, PartBytes, parts) == PartsLayout(parts)
  {
    hide ToBE, U16, U32;
    if parts != [] {
      PartsAre(parts[1..]);
      Integers(parts[0].typ as nat);
      Integers(2 + |parts[0].value|);
    }
  }

  /** A key is the number of its parts in 2 bytes, and for each part its length in 4, its
      type in 2 and its value. */
  lemma KeyLayout(k: Key)
    ensures KeyBytes(k) == U16(|k.parts|) + PartsLayout(k.parts)
  {
    hide U16, PartsLayout, ToBE;
    Integers(|k.parts|);
    PartsAre(k.parts);
  }

  function OldPayload(p: Payload): bytes {
    U32(|p.encKey|) + p.encKey + U64(|p.value|) + p.value
  }

  function NewPayload(p: Payload): bytes {
    U32(|p.encKey|) + p.encKey + U32(|p.value|) + p.value
  }

  /** A payload is its key with a length in 4 bytes and its value with one in 8 bytes in
      version 0, and in 4 bytes in version 1. */
  lemma PayloadLayout(p: Payload)
    ensures PayloadBytes(0, p) == OldPayload(p)
    ensures PayloadBytes(1, p) == NewPayload(p)
    ensures TopPayloadBytes(Some(p)) == [0, 1, 6] + NewPayload(p)
  {
    hide U32, U64, ToBE;
    Integers(|p.encKey|);
    Integers(|p.value|);
    Headers();
  }

  /** The tags of all entities: a version in 2 bytes and a type in one. */
  lemma Headers()
    ensures Header(PAYLOAD_VERSION, TYPE_KEY) == [0, 1, 3] && Header(PAYLOAD_VERSION, TYPE_PAYLOAD) == [0, 1, 6]
    ensures Header(ENTITY_VERSION, TYPE_PROOF) == [0, 0, 7] && Header(ENTITY_VERSION, TYPE_BATCH_PROOF) == [0, 0, 8]
    ensures Header(ENTITY_VERSION, TYPE_TRIE_UPDATE) == [0, 0, 11]
    ensures Header(ENTITY_VERSION, TYPE_PAYLOADLESS_PROOF) == [0, 0, 12]
    ensures Header(ENTITY_VERSION, TYPE_PAYLOADLESS_BATCH_PROOF) == [0, 0, 13]
  {
    hide ToBE;
    Bytes2(0);
    Bytes2(1);
  }

  // ----- trie updates

  function PathsLayout(paths: seq<Path>): bytes {
    if paths == [] then [] else paths[0] + PathsLayout(paths[1..])
  }

  function PayloadsLayout(payloads: seq<Payload>): bytes {
    if payloads == [] then []
    else U32(|OldPayload(payloads[0])|) + OldPayload(payloads[0]) + PayloadsLayout(payloads[1..])
  }

  lemma {:induction false} PathsAre(paths: seq<Path>)
    ensures Concat(paths) == PathsLayout(paths)
  {
    if paths != [] {
      PathsAre(paths[1..]);
    }
  }

  lemma {:induction false} PayloadsAre(payloads: seq<Payload>)
    ensures Items(4, PayloadWriter(0), payloads) == PayloadsLayout(payloads)
  {
    hide ToBE, U32, OldPayload, PayloadBytes;
    if payloads != [] {
      PayloadsAre(payloads[1..]);
      PayloadLayout(payloads[0]);
      Integers(|OldPayload(payloads[0])|);
    }
  }

  /** An update is its root hash behind a length, the number of paths in 4 bytes, and, if
      there are any, their size, the paths and the payloads of version 0 behind their
      lengths. */
  lemma UpdateLayout(u: TrieUpdate)
    ensures UpdateBytes(u) == [0, 32] + u.root + U32(|u.paths|)
      + if u.paths == [] then [] else [0, 32] + PathsLayout(u.paths) + PayloadsLayout(u.payloads)
  {
    hide ToBE, U32, PathsLayout, PayloadsLayout, Concat;
    Integers(32);
    Integers(|u.paths|);
    PathsAre(u.paths);
    PayloadsAre(u.payloads);
  }

  // ----- proofs

  function HeadLayout(h: ProofHead): bytes {
    [if h.inclusion then 128 else 0, h.steps as byte, Low(|h.flags|)] + h.flags + [0, 32] + h.path
  }

  lemma HeadIs(h: ProofHead)
    ensures HeadBytes(h) == HeadLayout(h)
  {
    hide ToBE;
    Integers(|h.flags|);
    Integers(32);
    var tag: byte := if h.inclusion then 128 else 0;
    assert [tag] + ([h.steps as byte] + ([Low(|h.flags|)] + h.flags)) == [tag, h.steps as byte, Low(|h.flags|)] + h.flags;
  }

  function HashesLayout(hashes: seq<Hash>): bytes {
    if hashes == [] then [] else [0, 32] + hashes[0] + HashesLayout(hashes[1..])
  }

  lemma {:induction false} HashesAre(hashes: seq<Hash>)
    ensures Items(2, HashBytes, hashes) == HashesLayout(hashes)
  {
    hide ToBE;
    if hashes != [] {
      HashesAre(hashes[1..]);
      Integers(32);
    }
  }

  function ProofLayout(p: TrieProof): bytes {
    HeadLayout(p.head) + U64(|OldPayload(p.payload)|) + OldPayload(p.payload) + [Low(|p.interims|)] + HashesLayout(p.interims)
  }

  /** A proof is its inclusion flag, steps, flags and path, its payload of version 0 behind
      a length in 8 bytes, and the number of interim hashes and those hashes. */
  lemma ProofIs(p: TrieProof)
    ensures ProofBytes(p) == ProofLayout(p)
  {
    hide ToBE, U64, OldPayload, HeadLayout, HeadBytes, HashesLayout, PayloadBytes, Low;
    HeadIs(p.head);
    PayloadLayout(p.payload);
    Integers(|OldPayload(p.payload)|);
    Integers(|p.interims|);
    HashesAre(p.interims);
  }

  function PayloadlessLayout(p: PayloadlessProof): bytes {
    HeadLayout(p.head) + (if p.leafHash.Some? then [1] + p.leafHash.value else [0]) + [Low(|p.interims|)] + HashesLayout(p.interims)
  }

  /** A payloadless proof has a presence byte and the leaf's hash in place of the payload. */
  lemma PayloadlessIs(p: PayloadlessProof)
    ensures PayloadlessBytes(p) == PayloadlessLayout(p)
  {
    hide ToBE, HeadLayout, HeadBytes, HashesLayout, Low;
    HeadIs(p.head);
    Integers(|p.interims|);
    HashesAre(p.interims);
  }

  function ProofsLayout(proofs: seq<TrieProof>): bytes {
    if proofs == [] then [] else U64(|ProofLayout(proofs[0])|) + ProofLayout(proofs[0]) + ProofsLayout(proofs[1..])
  }

  lemma {:induction false} ProofsAre(proofs: seq<TrieProof>)
    ensures Items(8, ProofBytes, proofs) == ProofsLayout(proofs)
  {
    hide ToBE, U64, ProofLayout, ProofBytes;
    if proofs != [] {
      ProofsAre(proofs[1..]);
      ProofIs(proofs[0]);
      Integers(|ProofLayout(proofs[0])|);
    }
  }

  function PayloadlessesLayout(proofs: seq<PayloadlessProof>): bytes {
    if proofs == [] then []
    else U64(|PayloadlessLayout(proofs[0])|) + PayloadlessLayout(proofs[0]) + PayloadlessesLayout(proofs[1..])
  }

  lemma {:induction false} PayloadlessesAre(proofs: seq<PayloadlessProof>)
    ensures Items(8, PayloadlessBytes, proofs) == PayloadlessesLayout(proofs)
  {
    hide ToBE, U64, PayloadlessLayout, PayloadlessBytes;
    if proofs != [] {
      PayloadlessesAre(proofs[1..]);
      PayloadlessIs(proofs[0]);
      Integers(|PayloadlessLayout(proofs[0])|);
    }
  }

  /** A batch is the number of proofs in 4 bytes and each proof behind its length in 8. */
  lemma BatchLayout(proofs: seq<TrieProof>, payloadless: seq<PayloadlessProof>)
    ensures BatchBytes(ProofBytes, proofs) == U32(|proofs|) + ProofsLayout(proofs)
    ensures BatchBytes(PayloadlessBytes, payloadless) == U32(|payloadless|) + PayloadlessesLayout(payloadless)
  {
    hide ToBE, U32, ProofsLayout, PayloadlessesLayout;
    Integers(|proofs|);
    Integers(|payloadless|);
    ProofsAre(proofs);
    PayloadlessesAre(payloadless);
  }
}
