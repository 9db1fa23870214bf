/** The binary format of ledger/trie_encoder.go as functions: what each encoder
    writes and what each decoder accepts.  The loops that compute them are in
    module LedgerCodec, the laws of the format in module LedgerLaws.

    A parser returns the value and the input left behind it; the decoders of the
    source that ignore trailing bytes drop that rest. */
module LedgerFormat {
  import opened Bytes
  import opened Framing

  newtype uint8 = x: int | 0 <= x < 0x100
  newtype uint16 = x: int | 0 <= x < 0x1_0000

  const PATH_LEN: nat := 32

  type Hash = b: bytes | |b| == PATH_LEN witness seq(PATH_LEN, _ => 0)
  type Path = Hash

  // nil and empty byte slices are one value here, as they are for the codec.
  datatype KeyPart = KeyPart(typ: uint16, value: bytes)
  datatype Key = Key(parts: seq<KeyPart>)
  datatype Payload = Payload(encKey: bytes, value: bytes)
  datatype TrieUpdate = TrieUpdate(root: Hash, paths: seq<Path>, payloads: seq<Payload>)

  /** The part that payload-bearing and payloadless proofs share. */
  datatype ProofHead = ProofHead(inclusion: bool, steps: uint8, flags: bytes, path: Path)
  datatype TrieProof = TrieProof(head: ProofHead, payload: Payload, interims: seq<Hash>)
  datatype PayloadlessProof = PayloadlessProof(head: ProofHead, leafHash: Option<Hash>, interims: seq<Hash>)

  function ToHash(b: bytes): Option<Hash> {
    if |b| == PATH_LEN then Some(b) else None
  }

  function HashBytes(h: Hash): bytes { h }

  // ----- entity header: version and type

  const PAYLOAD_VERSION: nat := 1

  /** The version of trie updates and of all proofs; keys have that of payloads. */
  const ENTITY_VERSION: nat := 0

  const TYPE_KEY: uint8 := 3
  const TYPE_PAYLOAD: uint8 := 6
  const TYPE_PROOF: uint8 := 7
  const TYPE_BATCH_PROOF: uint8 := 8
  const TYPE_TRIE_UPDATE: uint8 := 11
  const TYPE_PAYLOADLESS_PROOF: uint8 := 12
  const TYPE_PAYLOADLESS_BATCH_PROOF: uint8 := 13
  const TYPE_UNSUPPORTED: uint8 := 14

  function Header(version: nat, typ: uint8): bytes {
    ToBE(version, 2) + [typ as byte]
  }

  function CheckVersion(s: bytes, maxVersion: nat): Option<(nat, bytes)> {
    var (version, rest) :- ReadUint(s, 2);
    if version > maxVersion then None else Some((version, rest))
  }

  function CheckType(s: bytes, expected: uint8): Option<bytes> {
    var (t, rest) :- ReadUint(s, 1);
    if t >= TYPE_UNSUPPORTED as nat || t != expected as nat then None else Some(rest)
  }

  /** The version and the body of an entity of the expected type. */
  function CheckHeader(s: bytes, maxVersion: nat, expected: uint8): Option<(nat, bytes)> {
    var (version, rest) :- CheckVersion(s, maxVersion);
    var body :- CheckType(rest, expected);
    Some((version, body))
  }

  /** The top-level decoders: header, then the body. */
  function DecodedTop<T>(maxVersion: nat, typ: uint8, decode: bytes -> Option<T>, s: bytes): Option<T> {
    var (_, body) :- CheckHeader(s, maxVersion, typ);
    decode(body)
  }

  // ----- keys

  function PartBytes(kp: KeyPart): bytes {
    ToBE(kp.typ as nat, 2) + kp.value
  }

  function ToPart(b: bytes): Option<KeyPart> {
    var (typ, value) :- ReadUint(b, 2);
    ReadUintInRange(b, 2);
    Widths();
    Some(KeyPart(typ as uint16, value))
  }

  function KeyBytes(k: Key): bytes {
    ToBE(|k.parts|, 2) + Items(4, PartBytes, k.parts)
  }

  function ParseKey(s: bytes): Option<(Key, bytes)> {
    var (n, rest) :- ReadUint(s, 2);
    var (parts, r) :- ReadItems(4, ToPart, n, rest);
    Some((Key(parts), r))
  }

  function DecodedKey(s: bytes): Option<Key> {
    var (k, _) :- ParseKey(s);
    Some(k)
  }

  /** What the early-exit lookup of a part by type returns. */
  datatype Lookup = Found(value: bytes) | NotFound | Malformed

  function LookupParts(n: nat, s: bytes, typ: uint16): Lookup {
    if n == 0 then NotFound else
    match ReadSized(s, 4)
    case None => Malformed
    case Some((b, rest)) =>
      match ToPart(b)
      case None => Malformed
      case Some(kp) => if kp.typ == typ then Found(kp.value) else LookupParts(n - 1, rest, typ)
  }

  function LookupByType(s: bytes, typ: uint16): Lookup {
    match ReadUint(s, 2)
    case None => Malformed
    case Some((n, rest)) => LookupParts(n, rest, typ)
  }

  /** The reference: scan the fully decoded key. */
  function FirstOfType(parts: seq<KeyPart>, typ: uint16): Lookup {
    if parts == [] then NotFound
    else if parts[0].typ == typ then Found(parts[0].value)
    else FirstOfType(parts[1..], typ)
  }

  /** encodedKeyLength: a count, and for every part its size, type and value. */
  function KeyLength(k: Key): nat {
    2 + PartsLength(k.parts)
  }

  function PartsLength(parts: seq<KeyPart>): nat {
    if parts == [] then 0 else 4 + 2 + |parts[0].value| + PartsLength(parts[1..])
  }

  // ----- payloads; version 0 has an 8-byte value length, later ones 4 bytes

  function ValueWidth(version: nat): nat {
    if version == 0 then 8 else 4
  }

  function PayloadBytes(version: nat, p: Payload): bytes {
    Sized(p.encKey, 4) + Sized(p.value, ValueWidth(version))
  }

  function ParsePayload(version: nat, s: bytes): Option<(Payload, bytes)> {
    var (encKey, rest) :- ReadSized(s, 4);
    var (value, r) :- ReadSized(rest, ValueWidth(version));
    Some((Payload(encKey, value), r))
  }

  function DecodedPayload(version: nat, s: bytes): Option<Payload> {
    var (p, _) :- ParsePayload(version, s);
    Some(p)
  }

  /** Payload.Key: an empty or undecodable encoded key stands for the empty key. */
  function PayloadKey(p: Payload): Key {
    if p.encKey == [] then Key([]) else
    match DecodedKey(p.encKey)
    case None => Key([])
    case Some(k) => k
  }

  /** encodedPayloadLength, which re-derives the key instead of using its bytes. */
  function PayloadLength(version: nat, p: Payload): nat {
    4 + KeyLength(PayloadKey(p)) + ValueWidth(version) + |p.value|
  }

  /** The format of the top-level payload functions, where nil is the empty string. */
  function TopPayloadBytes(p: Option<Payload>): bytes {
    match p
    case None => []
    case Some(pl) => Header(PAYLOAD_VERSION, TYPE_PAYLOAD) + PayloadBytes(PAYLOAD_VERSION, pl)
  }

  function DecodedTopPayload(s: bytes): Option<Option<Payload>> {
    if s == [] then Some(None) else
    var (version, rest) :- CheckHeader(s, PAYLOAD_VERSION, TYPE_PAYLOAD);
    var p :- DecodedPayload(version, rest);
    Some(Some(p))
  }

  /** Likewise for trie updates. */
  function TopUpdateBytes(u: Option<TrieUpdate>): bytes {
    match u
    case None => []
    case Some(v) => Header(ENTITY_VERSION, TYPE_TRIE_UPDATE) + UpdateBytes(v)
  }

  function DecodedTopUpdate(s: bytes): Option<Option<TrieUpdate>> {
    if s == [] then Some(None) else
    var u :- DecodedTop(ENTITY_VERSION, TYPE_TRIE_UPDATE, DecodedUpdate, s);
    Some(Some(u))
  }

  // ----- trie updates, with payloads in version 0

  function Concat(paths: seq<Path>): bytes {
    if paths == [] then [] else paths[0] + Concat(paths[1..])
  }

  function ReadPaths(n: nat, size: nat, s: bytes): Option<(seq<Path>, bytes)> {
    if n == 0 then Some(([], s)) else
    var (b, rest) :- ReadSlice(s, size);
    var path :- ToHash(b);
    var (paths, r) :- ReadPaths(n - 1, size, rest);
    Some(([path] + paths, r))
  }

  function PayloadWriter(version: nat): Payload -> bytes {
    p => PayloadBytes(version, p)
  }

  function PayloadReader(version: nat): bytes -> Option<Payload> {
    b => DecodedPayload(version, b)
  }

  function UpdateBytes(u: TrieUpdate): bytes {
    var head := Sized(u.root, 2) + ToBE(|u.paths|, 4);
    if u.paths == [] then head else
    head + (ToBE(PATH_LEN, 2) + (Concat(u.paths) + Items(4, PayloadWriter(0), u.payloads)))
  }

  function ParseUpdate(s: bytes): Option<(TrieUpdate, bytes)> {
    var (rootBytes, s1) :- ReadSized(s, 2);
    var root :- ToHash(rootBytes);
    var (n, s2) :- ReadUint(s1, 4);
    var (size, s3) :- ReadUint(s2, 2);
    var (paths, s4) :- ReadPaths(n, size, s3);
    var (payloads, s5) :- ReadItems(4, PayloadReader(0), n, s4);
    Some((TrieUpdate(root, paths, payloads), s5))
  }

  function DecodedUpdate(s: bytes): Option<TrieUpdate> {
    var (u, _) :- ParseUpdate(s);
    Some(u)
  }

  // ----- proofs

  function InclusionByte(inclusion: bool): byte {
    if inclusion then 0x80 else 0
  }

  function HeadBytes(h: ProofHead): bytes {
    [InclusionByte(h.inclusion)] + ([h.steps as byte] + (Sized(h.flags, 1) + Sized(h.path, 2)))
  }

  function ParseHead(s: bytes): Option<(ProofHead, bytes)> {
    var (b, s1) :- ReadSlice(s, 1);
    var (steps, s2) :- ReadSlice(s1, 1);
    var (flags, s3) :- ReadSized(s2, 1);
    var (pathBytes, s4) :- ReadSized(s3, 2);
    var path :- ToHash(pathBytes);
    Some((ProofHead(b[0] / 0x80 == 1, steps[0] as uint8, flags, path), s4))
  }

  function InterimsBytes(interims: seq<Hash>): bytes {
    ToBE(|interims|, 1) + Items(2, HashBytes, interims)
  }

  function ParseInterims(s: bytes): Option<(seq<Hash>, bytes)> {
    var (n, rest) :- ReadUint(s, 1);
    ReadItems(2, ToHash, n, rest)
  }

  function ProofBytes(p: TrieProof): bytes {
    HeadBytes(p.head) + (Sized(PayloadBytes(0, p.payload), 8) + InterimsBytes(p.interims))
  }

  function ParseProof(s: bytes): Option<(TrieProof, bytes)> {
    var (head, s1) :- ParseHead(s);
    var (b, s2) :- ReadSized(s1, 8);
    var payload :- DecodedPayload(0, b);
    var (interims, s3) :- ParseInterims(s2);
    Some((TrieProof(head, payload, interims), s3))
  }

  function DecodedProof(s: bytes): Option<TrieProof> {
    var (p, _) :- ParseProof(s);
    Some(p)
  }

  function LeafBytes(leaf: Option<Hash>): bytes {
    match leaf
    case None => [0]
    case Some(h) => [1] + h
  }

  /** Any presence byte other than 1 means that there is no leaf hash. */
  function ParseLeaf(s: bytes): Option<(Option<Hash>, bytes)> {
    var (present, rest) :- ReadSlice(s, 1);
    if present[0] != 1 then Some((None, rest)) else
    var (b, r) :- ReadSlice(rest, PATH_LEN);
    var h :- ToHash(b);
    Some((Some(h), r))
  }

  function PayloadlessBytes(p: PayloadlessProof): bytes {
    HeadBytes(p.head) + (LeafBytes(p.leafHash) + InterimsBytes(p.interims))
  }

  function ParsePayloadless(s: bytes): Option<(PayloadlessProof, bytes)> {
    var (head, s1) :- ParseHead(s);
    var (leaf, s2) :- ParseLeaf(s1);
    var (interims, s3) :- ParseInterims(s2);
    Some((PayloadlessProof(head, leaf, interims), s3))
  }

  function DecodedPayloadless(s: bytes): Option<PayloadlessProof> {
    var (p, _) :- ParsePayloadless(s);
    Some(p)
  }

  // ----- batches

  function BatchBytes<P>(write: P -> bytes, proofs: seq<P>): bytes {
    ToBE(|proofs|, 4) + Items(8, write, proofs)
  }

  function ParseBatch<P>(read: bytes -> Option<P>, s: bytes): Option<(seq<P>, bytes)> {
    var (n, rest) :- ReadUint(s, 4);
    ReadItems(8, read, n, rest)
  }

  /** The ordinary batch decoder ignores what follows the last proof. */
  function DecodedBatch(s: bytes): Option<seq<TrieProof>> {
    var (proofs, _) :- ParseBatch(DecodedProof, s);
    Some(proofs)
  }

  /** The payloadless batch decoder requires the input to end there. */
  function DecodedPayloadlessBatch(s: bytes): Option<seq<PayloadlessProof>> {
    var (proofs, rest) :- ParseBatch(DecodedPayloadless, s);
    if rest == [] then Some(proofs) else None
  }
}
