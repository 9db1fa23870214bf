/** Laws of the ledger format: round trips with their exact conditions, rejection
    of truncated input, and what happens to trailing bytes. */
module LedgerLaws {
  import opened Bytes
  import opened Framing
  import opened LedgerFormat

  // ----- header

  /** A body under a header is decoded exactly when the version is supported and
      the type is the expected one. */
  lemma HeaderRoundTrip<T>(version: nat, typ: uint8, maxVersion: nat, expected: uint8, decode: bytes -> Option<T>, body: bytes)
    requires version < 0x1_0000 && expected < TYPE_UNSUPPORTED
    ensures DecodedTop(maxVersion, expected, decode, Header(version, typ) + body)
         == if version <= maxVersion && typ == expected then decode(body) else None
  {
    Widths();
    assert Header(version, typ) + body == ToBE(version, 2) + ([typ as byte] + body);
    ReadUintOfWritten(version, 2, [typ as byte] + body);
    assert ToBE(typ as nat, 1) == [typ as byte] by {
      assert ToBE(typ as nat, 1) == ToBE(typ as nat / 256, 0) + [(typ as nat % 256) as byte];
    }
    ReadUintOfWritten(typ as nat, 1, body);
  }

  // ----- keys

  ghost predicate KeyInRange(k: Key) {
    |k.parts| < 0x1_0000 && forall kp | kp in k.parts :: 2 + |kp.value| < 0x1_0000_0000
  }

  lemma PartRoundTrip(kp: KeyPart)
    ensures ToPart(PartBytes(kp)) == Some(kp)
  {
    Widths();
    ReadUintOfWritten(kp.typ as nat, 2, kp.value);
  }

  lemma PartCanonical(b: bytes)
    requires ToPart(b).Some?
    ensures PartBytes(ToPart(b).value) == b
  {
    ReadUintInRange(b, 2);
  }

  lemma KeyRoundTrip(k: Key, t: bytes)
    requires KeyInRange(k)
    ensures ParseKey(KeyBytes(k) + t) == Some((k, t))
  {
    Widths();
    var items := Items(4, PartBytes, k.parts);
    assert KeyBytes(k) + t == ToBE(|k.parts|, 2) + (items + t);
    ReadUintOfWritten(|k.parts|, 2, items + t);
    forall kp | kp in k.parts ensures ToPart(PartBytes(kp)) == Some(kp) {
      PartRoundTrip(kp);
    }
    ItemsRoundTrip(4, PartBytes, ToPart, k.parts, t);
  }

  lemma ParsedKeyCanonical(s: bytes)
    requires ParseKey(s).Some?
    ensures var (k, r) := ParseKey(s).value; KeyInRange(k) && s == KeyBytes(k) + r
  {
    Widths();
    ReadUintInRange(s, 2);
    var (n, rest) := ReadUint(s, 2).value;
    forall b | ToPart(b).Some? ensures PartBytes(ToPart(b).value) == b {
      PartCanonical(b);
    }
    ItemsCanonical(4, PartBytes, ToPart, n, rest);
    ItemsAll(4, ToPart, n, rest, (kp: KeyPart) => true);
    var (k, r) := ParseKey(s).value;
    forall kp | kp in k.parts ensures 2 + |kp.value| < 0x1_0000_0000 {
      assert |PartBytes(kp)| < Pow256(4);
    }
  }

  /** decodeKey accepts exactly the encodings of in-range keys, each followed by
      any bytes at all, and returns the key that was encoded. */
  lemma KeyCanonical(s: bytes, k: Key, r: bytes)
    ensures ParseKey(s) == Some((k, r)) <==> KeyInRange(k) && s == KeyBytes(k) + r
  {
    if ParseKey(s) == Some((k, r)) {
      ParsedKeyCanonical(s);
    }
    if KeyInRange(k) && s == KeyBytes(k) + r {
      KeyRoundTrip(k, r);
    }
  }

  lemma KeyRoundTripIff(k: Key)
    ensures DecodedKey(KeyBytes(k)) == Some(k) <==> KeyInRange(k)
  {
    var s := KeyBytes(k);
    assert s + [] == s;
    if KeyInRange(k) {
      KeyRoundTrip(k, []);
    }
    if DecodedKey(s) == Some(k) {
      KeyCanonical(s, k, ParseKey(s).value.1);
    }
  }

  lemma KeyLocal(s: bytes, t: bytes)
    requires ParseKey(s).Some?
    ensures var (k, r) := ParseKey(s).value; ParseKey(s + t) == Some((k, r + t))
  {
    UintLocal(s, 2, t);
    var (n, rest) := ReadUint(s, 2).value;
    ItemsLocal(4, ToPart, n, rest, t);
  }

  lemma KeyPrefixRejected(k: Key, p: bytes)
    requires KeyInRange(k) && p < KeyBytes(k)
    ensures DecodedKey(p) == None
  {
    var e := KeyBytes(k);
    if ParseKey(p).Some? {
      KeyLocal(p, e[|p|..]);
      assert p + e[|p|..] == e == e + [];
      KeyRoundTrip(k, []);
      assert false;
    }
  }

  lemma {:induction false} KeyLengthExact(k: Key)
    ensures |KeyBytes(k)| == KeyLength(k)
    decreases |k.parts|
  {
    if k.parts != [] {
      KeyLengthExact(Key(k.parts[1..]));
    }
  }

  // ----- lookup of a key part by type

  lemma {:induction false} LookupPartsAgrees(n: nat, s: bytes, typ: uint16)
    ensures match ReadItems(4, ToPart, n, s)
            case Some((parts, _)) => LookupParts(n, s, typ) == FirstOfType(parts, typ)
            case None => LookupParts(n, s, typ) != NotFound
  {
    if n != 0 && ReadSized(s, 4).Some? {
      var (b, rest) := ReadSized(s, 4).value;
      if ToPart(b).Some? {
        LookupPartsAgrees(n - 1, rest, typ);
        if ReadItems(4, ToPart, n - 1, rest).Some? {
          var parts := ReadItems(4, ToPart, n - 1, rest).value.0;
          assert ([ToPart(b).value] + parts)[1..] == parts;
        }
      }
    }
  }

  /** On every input that decodeKey accepts the early-exit lookup returns the
      first part of that type of the decoded key, and otherwise it never claims
      that there is none. */
  lemma LookupAgrees(s: bytes, typ: uint16)
    ensures match DecodedKey(s)
            case Some(k) => LookupByType(s, typ) == FirstOfType(k.parts, typ)
            case None => LookupByType(s, typ) != NotFound
  {
    if ReadUint(s, 2).Some? {
      var (n, rest) := ReadUint(s, 2).value;
      LookupPartsAgrees(n, rest, typ);
    }
  }

  /** The lookup may succeed on input that decodeKey rejects: here the second of
      two announced parts is missing. */
  lemma LookupBeforeError(kp: KeyPart)
    requires 2 + |kp.value| < 0x1_0000_0000
    ensures var s := ToBE(2, 2) + Sized(PartBytes(kp), 4);
            DecodedKey(s) == None && LookupByType(s, kp.typ) == Found(kp.value)
  {
    Widths();
    var b := PartBytes(kp);
    ReadUintOfWritten(2, 2, Sized(b, 4));
    assert Sized(b, 4) + [] == Sized(b, 4);
    SizedRoundTrip(b, 4, []);
    PartRoundTrip(kp);
    assert ReadItems(4, ToPart, 1, []) == None;
  }

  // ----- payloads

  ghost predicate PayloadInRange(version: nat, p: Payload) {
    |p.encKey| < 0x1_0000_0000 && |p.value| < Pow256(ValueWidth(version))
  }

  lemma PayloadRoundTrip(version: nat, p: Payload, t: bytes)
    requires PayloadInRange(version, p)
    ensures ParsePayload(version, PayloadBytes(version, p) + t) == Some((p, t))
  {
    Widths();
    var w := ValueWidth(version);
    assert PayloadBytes(version, p) + t == Sized(p.encKey, 4) + (Sized(p.value, w) + t);
    SizedRoundTrip(p.encKey, 4, Sized(p.value, w) + t);
    SizedRoundTrip(p.value, w, t);
  }

  /** decodePayload accepts exactly the encodings of in-range payloads, each
      followed by any bytes. */
  lemma PayloadCanonical(version: nat, s: bytes, p: Payload, r: bytes)
    ensures ParsePayload(version, s) == Some((p, r))
       <==> PayloadInRange(version, p) && s == PayloadBytes(version, p) + r
  {
    Widths();
    if ParsePayload(version, s) == Some((p, r)) {
      SizedCanonical(s, 4);
      var (_, rest) := ReadSized(s, 4).value;
      SizedCanonical(rest, ValueWidth(version));
    }
    if PayloadInRange(version, p) && s == PayloadBytes(version, p) + r {
      PayloadRoundTrip(version, p, r);
    }
  }

  lemma PayloadRoundTripIff(version: nat, p: Payload)
    ensures DecodedPayload(version, PayloadBytes(version, p)) == Some(p) <==> PayloadInRange(version, p)
  {
    var s := PayloadBytes(version, p);
    assert s + [] == s;
    if PayloadInRange(version, p) {
      PayloadRoundTrip(version, p, []);
    }
    if DecodedPayload(version, s) == Some(p) {
      PayloadCanonical(version, s, p, ParsePayload(version, s).value.1);
    }
  }

  lemma PayloadLocal(version: nat, s: bytes, t: bytes)
    requires ParsePayload(version, s).Some?
    ensures var (p, r) := ParsePayload(version, s).value; ParsePayload(version, s + t) == Some((p, r + t))
  {
    SizedLocal(s, 4, t);
    SizedLocal(ReadSized(s, 4).value.1, ValueWidth(version), t);
  }

  lemma PayloadPrefixRejected(version: nat, p: Payload, s: bytes)
    requires PayloadInRange(version, p) && s < PayloadBytes(version, p)
    ensures DecodedPayload(version, s) == None
  {
    var e := PayloadBytes(version, p);
    if ParsePayload(version, s).Some? {
      PayloadLocal(version, s, e[|s|..]);
      assert s + e[|s|..] == e == e + [];
      PayloadRoundTrip(version, p, []);
      assert false;
    }
  }

  /** A whole payload, nil included, survives EncodePayload and DecodePayload; so
      does a payload that an older version wrote. */
  lemma TopPayloadRoundTrip(p: Option<Payload>)
    requires p.Some? ==> PayloadInRange(PAYLOAD_VERSION, p.value)
    ensures DecodedTopPayload(TopPayloadBytes(p)) == Some(p)
  {
    if p.Some? {
      OldPayloadReadable(PAYLOAD_VERSION, p.value);
    }
  }

  lemma OldPayloadReadable(version: nat, p: Payload)
    requires version < 0x1_0000 && PayloadInRange(version, p)
    ensures DecodedTopPayload(Header(version, TYPE_PAYLOAD) + PayloadBytes(version, p))
         == if version <= PAYLOAD_VERSION then Some(Some(p)) else None
  {
    var body := PayloadBytes(version, p);
    var s := Header(version, TYPE_PAYLOAD) + body;
    assert s != [];
    HeaderRoundTrip(version, TYPE_PAYLOAD, PAYLOAD_VERSION, TYPE_PAYLOAD, PayloadReader(version), body);
    HeaderVersion(version, TYPE_PAYLOAD, body);
    PayloadRoundTripIff(version, p);
  }

  lemma HeaderVersion(version: nat, typ: uint8, body: bytes)
    requires version < 0x1_0000
    ensures ReadUint(Header(version, typ) + body, 2) == Some((version, [typ as byte] + body))
  {
    Widths();
    assert Header(version, typ) + body == ToBE(version, 2) + ([typ as byte] + body);
    ReadUintOfWritten(version, 2, [typ as byte] + body);
  }

  /** By how much encodedPayloadLength misses the size actually written: exact when
      the encoded key is one whole key, 2 too large when it is empty, too small by
      the bytes that trail the key, and off by the key's own size against the 2
      bytes of an empty key when it cannot be decoded. */
  lemma PayloadLengthError(version: nat, p: Payload)
    ensures PayloadLength(version, p) - |PayloadBytes(version, p)|
         == if p.encKey == [] then 2 else
            match ParseKey(p.encKey)
            case Some((_, r)) => -|r|
            case None => 2 - |p.encKey|
  {
    if p.encKey != [] && ParseKey(p.encKey).Some? {
      var (k, r) := ParseKey(p.encKey).value;
      KeyCanonical(p.encKey, k, r);
      KeyLengthExact(k);
    }
  }

  /** NewPayload stores the encoding of its key, so there the length is exact. */
  lemma NewPayloadLengthExact(version: nat, k: Key, value: bytes)
    requires KeyInRange(k)
    ensures PayloadLength(version, Payload(KeyBytes(k), value)) == |PayloadBytes(version, Payload(KeyBytes(k), value))|
    ensures PayloadKey(Payload(KeyBytes(k), value)) == k
  {
    KeyRoundTrip(k, []);
    assert KeyBytes(k) + [] == KeyBytes(k);
    PayloadLengthError(version, Payload(KeyBytes(k), value));
  }

  // ----- trie updates

  ghost predicate StorablePayload(w: nat, p: Payload) {
    PayloadInRange(0, p) && |PayloadBytes(0, p)| < Pow256(w)
  }

  ghost predicate UpdateInRange(u: TrieUpdate) {
    0 < |u.paths| < 0x1_0000_0000 && |u.payloads| == |u.paths|
    && forall p | p in u.payloads :: StorablePayload(4, p)
  }

  /** A payload read from a blob of fewer than 256^w bytes fits such a blob again. */
  lemma ReadPayloadStorable(w: nat, b: bytes)
    requires |b| < Pow256(w) && DecodedPayload(0, b).Some?
    ensures StorablePayload(w, DecodedPayload(0, b).value)
  {
    var (p, r) := ParsePayload(0, b).value;
    PayloadCanonical(0, b, p, r);
  }

  lemma {:induction false} PathsRoundTrip(paths: seq<Path>, t: bytes)
    ensures ReadPaths(|paths|, PATH_LEN, Concat(paths) + t) == Some((paths, t))
  {
    if paths == [] {
      assert [] + t == t;
    } else {
      assert Concat(paths) + t == paths[0] + (Concat(paths[1..]) + t);
      ReadSliceOfConcat(paths[0], Concat(paths[1..]) + t);
      PathsRoundTrip(paths[1..], t);
      assert [paths[0]] + paths[1..] == paths;
    }
  }

  lemma {:induction false} PathsLocal(n: nat, size: nat, s: bytes, t: bytes)
    requires ReadPaths(n, size, s).Some?
    ensures var (paths, r) := ReadPaths(n, size, s).value;
            |paths| == n && ReadPaths(n, size, s + t) == Some((paths, r + t))
  {
    if n != 0 {
      SliceLocal(s, size, t);
      PathsLocal(n - 1, size, ReadSlice(s, size).value.1, t);
    }
  }

  lemma PayloadItemsRoundTrip(u: TrieUpdate, t: bytes)
    requires UpdateInRange(u)
    ensures ReadItems(4, PayloadReader(0), |u.payloads|, Items(4, PayloadWriter(0), u.payloads) + t) == Some((u.payloads, t))
  {
    hide Items, ReadItems, PayloadBytes, DecodedPayload, Pow256;
    forall p | p in u.payloads
      ensures PayloadReader(0)(PayloadWriter(0)(p)) == Some(p) && |PayloadWriter(0)(p)| < Pow256(4)
    {
      PayloadRoundTripIff(0, p);
    }
    ItemsRoundTrip(4, PayloadWriter(0), PayloadReader(0), u.payloads, t);
  }

  /** The parts of a written update, each in front of the rest. */
  lemma UpdateParts(u: TrieUpdate, t: bytes)
    requires u.paths != []
    ensures UpdateBytes(u) + t == Sized(u.root, 2) + (ToBE(|u.paths|, 4)
      + (ToBE(PATH_LEN, 2) + (Concat(u.paths) + (Items(4, PayloadWriter(0), u.payloads) + t))))
  {
    hide Items, Concat, ToBE, Sized;
  }

  lemma UpdateRoundTrip(u: TrieUpdate, t: bytes)
    requires UpdateInRange(u)
    ensures ParseUpdate(UpdateBytes(u) + t) == Some((u, t))
  {
    hide Items, ReadItems, Concat, ReadPaths, ToBE, Sized, ReadSized, ReadUint, Pow256, UpdateBytes, PayloadWriter, PayloadReader;
    Widths();
    var s4 := Items(4, PayloadWriter(0), u.payloads) + t;
    var s3 := Concat(u.paths) + s4;
    var s2 := ToBE(PATH_LEN, 2) + s3;
    var s1 := ToBE(|u.paths|, 4) + s2;
    UpdateParts(u, t);
    SizedRoundTrip(u.root, 2, s1);
    ReadUintOfWritten(|u.paths|, 4, s2);
    ReadUintOfWritten(PATH_LEN, 2, s3);
    PathsRoundTrip(u.paths, s4);
    PayloadItemsRoundTrip(u, t);
  }

  lemma UpdateLocal(s: bytes, t: bytes)
    requires ParseUpdate(s).Some?
    ensures var (u, r) := ParseUpdate(s).value; ParseUpdate(s + t) == Some((u, r + t))
  {
    SizedLocal(s, 2, t);
    var s1 := ReadSized(s, 2).value.1;
    UintLocal(s1, 4, t);
    var (n, s2) := ReadUint(s1, 4).value;
    UintLocal(s2, 2, t);
    var (size, s3) := ReadUint(s2, 2).value;
    PathsLocal(n, size, s3, t);
    var s4 := ReadPaths(n, size, s3).value.1;
    ItemsLocal(4, PayloadReader(0), n, s4, t);
  }

  /** Whatever is decoded is in range, but for updates without paths. */
  lemma UpdateDecodedInRange(s: bytes)
    requires ParseUpdate(s).Some?
    ensures var u := ParseUpdate(s).value.0; UpdateInRange(u) || u.paths == []
  {
    Widths();
    var s1 := ReadSized(s, 2).value.1;
    ReadUintInRange(s1, 4);
    var (n, s2) := ReadUint(s1, 4).value;
    var (size, s3) := ReadUint(s2, 2).value;
    PathsLocal(n, size, s3, []);
    var s4 := ReadPaths(n, size, s3).value.1;
    forall b | |b| < Pow256(4) && PayloadReader(0)(b).Some?
      ensures StorablePayload(4, PayloadReader(0)(b).value)
    {
      ReadPayloadStorable(4, b);
    }
    ghost var storable := p => StorablePayload(4, p);
    ItemsAll(4, PayloadReader(0), n, s4, storable);
    var u := ParseUpdate(s).value.0;
    forall p | p in u.payloads ensures StorablePayload(4, p) {
      assert storable(p);
    }
  }

  /** An update without paths is written without the path size that the decoder
      reads next, so its encoding is rejected. */
  lemma EmptyUpdateRejected(u: TrieUpdate)
    requires u.paths == []
    ensures DecodedUpdate(UpdateBytes(u)) == None
  {
    Widths();
    assert UpdateBytes(u) == Sized(u.root, 2) + ToBE(0, 4);
    SizedRoundTrip(u.root, 2, ToBE(0, 4));
    assert ToBE(0, 4) + [] == ToBE(0, 4);
    ReadUintOfWritten(0, 4, []);
  }

  /** Round trip exactly for the non-empty updates with one storable payload per path. */
  lemma UpdateRoundTripIff(u: TrieUpdate)
    ensures DecodedUpdate(UpdateBytes(u)) == Some(u) <==> UpdateInRange(u)
  {
    var s := UpdateBytes(u);
    if UpdateInRange(u) {
      assert s + [] == s;
      UpdateRoundTrip(u, []);
    }
    if DecodedUpdate(s) == Some(u) {
      UpdateDecodedInRange(s);
      if u.paths == [] {
        EmptyUpdateRejected(u);
      }
    }
  }

  lemma UpdatePrefixRejected(u: TrieUpdate, p: bytes)
    requires UpdateInRange(u) && p < UpdateBytes(u)
    ensures DecodedUpdate(p) == None
  {
    var s := UpdateBytes(u);
    if ParseUpdate(p).Some? {
      UpdateLocal(p, s[|p|..]);
      assert p + s[|p|..] == s == s + [];
      UpdateRoundTrip(u, []);
      assert false;
    }
  }

  // ----- proofs

  ghost predicate HeadInRange(h: ProofHead) {
    |h.flags| <= 255
  }

  ghost predicate ProofInRange(p: TrieProof) {
    HeadInRange(p.head) && StorablePayload(8, p.payload) && |p.interims| <= 255
  }

  ghost predicate PayloadlessInRange(p: PayloadlessProof) {
    HeadInRange(p.head) && |p.interims| <= 255
  }

  lemma HeadRoundTrip(h: ProofHead, t: bytes)
    requires HeadInRange(h)
    ensures ParseHead(HeadBytes(h) + t) == Some((h, t))
  {
    Widths();
    var s3 := Sized(h.path, 2) + t;
    var s2 := Sized(h.flags, 1) + s3;
    var s1 := [h.steps as byte] + s2;
    assert HeadBytes(h) + t == [InclusionByte(h.inclusion)] + s1;
    ReadSliceOfConcat([InclusionByte(h.inclusion)], s1);
    ReadSliceOfConcat([h.steps as byte], s2);
    SizedRoundTrip(h.flags, 1, s3);
    SizedRoundTrip(h.path, 2, t);
  }

  lemma HeadLocal(s: bytes, t: bytes)
    requires ParseHead(s).Some?
    ensures var (h, r) := ParseHead(s).value;
            HeadInRange(h) && ParseHead(s + t) == Some((h, r + t)) && |HeadBytes(h)| + |r| == |s|
  {
    Widths();
    SliceLocal(s, 1, t);
    var s1 := ReadSlice(s, 1).value.1;
    SliceLocal(s1, 1, t);
    var s2 := ReadSlice(s1, 1).value.1;
    SizedLocal(s2, 1, t);
    SizedCanonical(s2, 1);
    var s3 := ReadSized(s2, 1).value.1;
    SizedLocal(s3, 2, t);
    SizedCanonical(s3, 2);
  }

  lemma InterimsRoundTrip(hs: seq<Hash>, t: bytes)
    requires |hs| <= 255
    ensures ParseInterims(InterimsBytes(hs) + t) == Some((hs, t))
  {
    Widths();
    var items := Items(2, HashBytes, hs);
    assert InterimsBytes(hs) + t == ToBE(|hs|, 1) + (items + t);
    ReadUintOfWritten(|hs|, 1, items + t);
    ItemsRoundTrip(2, HashBytes, ToHash, hs, t);
  }

  lemma InterimsLocal(s: bytes, t: bytes)
    requires ParseInterims(s).Some?
    ensures var (hs, r) := ParseInterims(s).value;
            |hs| <= 255 && ParseInterims(s + t) == Some((hs, r + t)) && |InterimsBytes(hs)| + |r| == |s|
  {
    Widths();
    UintLocal(s, 1, t);
    ReadUintInRange(s, 1);
    var (n, rest) := ReadUint(s, 1).value;
    ItemsLocal(2, ToHash, n, rest, t);
    ItemsAll(2, ToHash, n, rest, (h: Hash) => true);
    ItemsCanonical(2, HashBytes, ToHash, n, rest);
  }

  lemma ProofRoundTrip(p: TrieProof, t: bytes)
    requires ProofInRange(p)
    ensures ParseProof(ProofBytes(p) + t) == Some((p, t))
  {
    hide HeadBytes, ParseHead, InterimsBytes, ParseInterims;
    var s2 := InterimsBytes(p.interims) + t;
    var b := PayloadBytes(0, p.payload);
    var s1 := Sized(b, 8) + s2;
    assert ProofBytes(p) + t == HeadBytes(p.head) + s1;
    HeadRoundTrip(p.head, s1);
    SizedRoundTrip(b, 8, s2);
    PayloadRoundTripIff(0, p.payload);
    InterimsRoundTrip(p.interims, t);
  }

  lemma ProofLocal(s: bytes, t: bytes)
    requires ParseProof(s).Some?
    ensures var (p, r) := ParseProof(s).value;
            ProofInRange(p) && ParseProof(s + t) == Some((p, r + t)) && |ProofBytes(p)| + |r| <= |s|
  {
    HeadLocal(s, t);
    var s1 := ParseHead(s).value.1;
    SizedLocal(s1, 8, t);
    SizedCanonical(s1, 8);
    var (b, s2) := ReadSized(s1, 8).value;
    var (payload, trailing) := ParsePayload(0, b).value;
    PayloadCanonical(0, b, payload, trailing);
    InterimsLocal(s2, t);
  }

  /** Round trip exactly for at most 255 flag bytes and interims and a payload
      whose key, value and encoding have representable lengths. */
  lemma ProofRoundTripIff(p: TrieProof)
    ensures DecodedProof(ProofBytes(p)) == Some(p) <==> ProofInRange(p)
  {
    var s := ProofBytes(p);
    assert s + [] == s;
    if ProofInRange(p) {
      ProofRoundTrip(p, []);
    }
    if DecodedProof(s) == Some(p) {
      ProofLocal(s, []);
    }
  }

  lemma ProofPrefixRejected(p: TrieProof, s: bytes)
    requires ProofInRange(p) && s < ProofBytes(p)
    ensures DecodedProof(s) == None
  {
    var e := ProofBytes(p);
    if ParseProof(s).Some? {
      ProofLocal(s, e[|s|..]);
      assert s + e[|s|..] == e == e + [];
      ProofRoundTrip(p, []);
      assert false;
    }
  }

  lemma LeafRoundTrip(leaf: Option<Hash>, t: bytes)
    ensures ParseLeaf(LeafBytes(leaf) + t) == Some((leaf, t))
  {
    match leaf
    case None =>
      ReadSliceOfConcat([0], t);
    case Some(h) =>
      assert LeafBytes(leaf) + t == [1] + (h + t);
      ReadSliceOfConcat([1], h + t);
      ReadSliceOfConcat(h, t);
  }

  lemma LeafLocal(s: bytes, t: bytes)
    requires ParseLeaf(s).Some?
    ensures var (leaf, r) := ParseLeaf(s).value;
            ParseLeaf(s + t) == Some((leaf, r + t)) && |LeafBytes(leaf)| + |r| == |s|
  {
    SliceLocal(s, 1, t);
    var (present, rest) := ReadSlice(s, 1).value;
    if present[0] == 1 {
      SliceLocal(rest, PATH_LEN, t);
    }
  }

  lemma PayloadlessRoundTrip(p: PayloadlessProof, t: bytes)
    requires PayloadlessInRange(p)
    ensures ParsePayloadless(PayloadlessBytes(p) + t) == Some((p, t))
  {
    hide HeadBytes, ParseHead, LeafBytes, ParseLeaf, InterimsBytes, ParseInterims;
    var s2 := InterimsBytes(p.interims) + t;
    var s1 := LeafBytes(p.leafHash) + s2;
    assert PayloadlessBytes(p) + t == HeadBytes(p.head) + s1;
    HeadRoundTrip(p.head, s1);
    LeafRoundTrip(p.leafHash, s2);
    InterimsRoundTrip(p.interims, t);
  }

  lemma PayloadlessLocal(s: bytes, t: bytes)
    requires ParsePayloadless(s).Some?
    ensures var (p, r) := ParsePayloadless(s).value;
            PayloadlessInRange(p) && ParsePayloadless(s + t) == Some((p, r + t)) && |PayloadlessBytes(p)| + |r| == |s|
  {
    HeadLocal(s, t);
    var s1 := ParseHead(s).value.1;
    LeafLocal(s1, t);
    InterimsLocal(ParseLeaf(s1).value.1, t);
  }

  lemma PayloadlessRoundTripIff(p: PayloadlessProof)
    ensures DecodedPayloadless(PayloadlessBytes(p)) == Some(p) <==> PayloadlessInRange(p)
  {
    var s := PayloadlessBytes(p);
    assert s + [] == s;
    if PayloadlessInRange(p) {
      PayloadlessRoundTrip(p, []);
    }
    if DecodedPayloadless(s) == Some(p) {
      PayloadlessLocal(s, []);
    }
  }

  lemma PayloadlessPrefixRejected(p: PayloadlessProof, s: bytes)
    requires PayloadlessInRange(p) && s < PayloadlessBytes(p)
    ensures DecodedPayloadless(s) == None
  {
    var e := PayloadlessBytes(p);
    if ParsePayloadless(s).Some? {
      PayloadlessLocal(s, e[|s|..]);
      assert s + e[|s|..] == e == e + [];
      PayloadlessRoundTrip(p, []);
      assert false;
    }
  }

  // ----- batches

  /** A batch that the format can hold: every proof reads back and fits its blob. */
  ghost predicate BatchInRange<P(!new)>(write: P -> bytes, read: bytes -> Option<P>, proofs: seq<P>) {
    |proofs| < 0x1_0000_0000
    && forall p | p in proofs :: read(write(p)) == Some(p) && |write(p)| < Pow256(8)
  }

  lemma BatchRoundTrip<P(!new)>(write: P -> bytes, read: bytes -> Option<P>, proofs: seq<P>, t: bytes)
    requires BatchInRange(write, read, proofs)
    ensures ParseBatch(read, BatchBytes(write, proofs) + t) == Some((proofs, t))
  {
    Widths();
    var items := Items(8, write, proofs);
    assert BatchBytes(write, proofs) + t == ToBE(|proofs|, 4) + (items + t);
    ReadUintOfWritten(|proofs|, 4, items + t);
    ItemsRoundTrip(8, write, read, proofs, t);
  }

  lemma BatchLocal<P>(read: bytes -> Option<P>, s: bytes, t: bytes)
    requires ParseBatch(read, s).Some?
    ensures var (ps, r) := ParseBatch(read, s).value; ParseBatch(read, s + t) == Some((ps, r + t))
  {
    UintLocal(s, 4, t);
    var (n, rest) := ReadUint(s, 4).value;
    ItemsLocal(8, read, n, rest, t);
  }

  lemma BatchPrefixFails<P(!new)>(write: P -> bytes, read: bytes -> Option<P>, proofs: seq<P>, s: bytes)
    requires BatchInRange(write, read, proofs) && s < BatchBytes(write, proofs)
    ensures ParseBatch(read, s) == None
  {
    var e := BatchBytes(write, proofs);
    if ParseBatch(read, s).Some? {
      BatchLocal(read, s, e[|s|..]);
      assert s + e[|s|..] == e == e + [];
      BatchRoundTrip(write, read, proofs, []);
      assert false;
    }
  }

  /** Whatever batch is decoded has properties that decoding one proof guarantees. */
  lemma BatchAll<P>(read: bytes -> Option<P>, s: bytes, q: P -> bool)
    requires forall b :: |b| < Pow256(8) && read(b).Some? ==> q(read(b).value)
    requires ParseBatch(read, s).Some?
    ensures var ps := ParseBatch(read, s).value.0; |ps| < 0x1_0000_0000 && forall p | p in ps :: q(p)
  {
    Widths();
    ReadUintInRange(s, 4);
    var (n, rest) := ReadUint(s, 4).value;
    ItemsAll(8, read, n, rest, q);
  }

  ghost predicate BatchableProof(p: TrieProof) {
    ProofInRange(p) && |ProofBytes(p)| < Pow256(8)
  }

  ghost predicate BatchablePayloadless(p: PayloadlessProof) {
    PayloadlessInRange(p) && |PayloadlessBytes(p)| < Pow256(8)
  }

  ghost predicate ProofsInRange(proofs: seq<TrieProof>) {
    |proofs| < 0x1_0000_0000 && forall p | p in proofs :: BatchableProof(p)
  }

  ghost predicate PayloadlessProofsInRange(proofs: seq<PayloadlessProof>) {
    |proofs| < 0x1_0000_0000 && forall p | p in proofs :: BatchablePayloadless(p)
  }

  lemma ProofsBatchInRange(proofs: seq<TrieProof>)
    requires ProofsInRange(proofs)
    ensures BatchInRange(ProofBytes, DecodedProof, proofs)
  {
    forall p | p in proofs ensures DecodedProof(ProofBytes(p)) == Some(p) && |ProofBytes(p)| < Pow256(8) {
      assert BatchableProof(p);
      ProofRoundTripIff(p);
    }
  }

  lemma PayloadlessProofsBatchInRange(proofs: seq<PayloadlessProof>)
    requires PayloadlessProofsInRange(proofs)
    ensures BatchInRange(PayloadlessBytes, DecodedPayloadless, proofs)
  {
    forall p | p in proofs
      ensures DecodedPayloadless(PayloadlessBytes(p)) == Some(p) && |PayloadlessBytes(p)| < Pow256(8)
    {
      assert BatchablePayloadless(p);
      PayloadlessRoundTripIff(p);
    }
  }

  /** Whatever the batch decoders accept could have been written. */
  lemma ParsedBatchInRange(s: bytes)
    ensures ParseBatch(DecodedProof, s).Some? ==> ProofsInRange(ParseBatch(DecodedProof, s).value.0)
    ensures ParseBatch(DecodedPayloadless, s).Some? ==> PayloadlessProofsInRange(ParseBatch(DecodedPayloadless, s).value.0)
  {
    if ParseBatch(DecodedProof, s).Some? {
      ghost var q := p => BatchableProof(p);
      forall b | |b| < Pow256(8) && DecodedProof(b).Some? ensures q(DecodedProof(b).value) {
        ProofLocal(b, []);
      }
      BatchAll(DecodedProof, s, q);
      forall p | p in ParseBatch(DecodedProof, s).value.0 ensures BatchableProof(p) {
        assert q(p);
      }
    }
    if ParseBatch(DecodedPayloadless, s).Some? {
      ghost var q := p => BatchablePayloadless(p);
      forall b | |b| < Pow256(8) && DecodedPayloadless(b).Some? ensures q(DecodedPayloadless(b).value) {
        PayloadlessLocal(b, []);
      }
      BatchAll(DecodedPayloadless, s, q);
      forall p | p in ParseBatch(DecodedPayloadless, s).value.0 ensures BatchablePayloadless(p) {
        assert q(p);
      }
    }
  }

  /** The ordinary batch decoder returns the batch, whatever follows it, exactly
      when the batch can be stored. */
  lemma BatchRoundTripIff(proofs: seq<TrieProof>, t: bytes)
    ensures DecodedBatch(BatchBytes(ProofBytes, proofs) + t) == Some(proofs) <==> ProofsInRange(proofs)
  {
    var s := BatchBytes(ProofBytes, proofs) + t;
    if ProofsInRange(proofs) {
      ProofsBatchInRange(proofs);
      BatchRoundTrip(ProofBytes, DecodedProof, proofs, t);
    }
    if DecodedBatch(s) == Some(proofs) {
      ParsedBatchInRange(s);
    }
  }

  /** The payloadless batch decoder accepts it exactly when, besides, nothing follows. */
  lemma PayloadlessBatchRoundTripIff(proofs: seq<PayloadlessProof>, t: bytes)
    ensures DecodedPayloadlessBatch(BatchBytes(PayloadlessBytes, proofs) + t) == Some(proofs)
       <==> PayloadlessProofsInRange(proofs) && t == []
    ensures PayloadlessProofsInRange(proofs) && t != []
            ==> DecodedPayloadlessBatch(BatchBytes(PayloadlessBytes, proofs) + t) == None
  {
    var s := BatchBytes(PayloadlessBytes, proofs) + t;
    if PayloadlessProofsInRange(proofs) {
      PayloadlessProofsBatchInRange(proofs);
      BatchRoundTrip(PayloadlessBytes, DecodedPayloadless, proofs, t);
    }
    if DecodedPayloadlessBatch(s) == Some(proofs) {
      ParsedBatchInRange(s);
    }
  }

  lemma BatchPrefixRejected(proofs: seq<TrieProof>, p: bytes)
    requires ProofsInRange(proofs) && p < BatchBytes(ProofBytes, proofs)
    ensures DecodedBatch(p) == None
  {
    ProofsBatchInRange(proofs);
    BatchPrefixFails(ProofBytes, DecodedProof, proofs, p);
  }

  lemma PayloadlessBatchPrefixRejected(proofs: seq<PayloadlessProof>, p: bytes)
    requires PayloadlessProofsInRange(proofs) && p < BatchBytes(PayloadlessBytes, proofs)
    ensures DecodedPayloadlessBatch(p) == None
  {
    PayloadlessProofsBatchInRange(proofs);
    BatchPrefixFails(PayloadlessBytes, DecodedPayloadless, proofs, p);
  }

  // ----- the top-level forms, with version and type in front

  /** A string is of at most one type. */
  lemma OneType<T, U>(s: bytes, v: nat, w: nat, t: uint8, u: uint8, decodeT: bytes -> Option<T>, decodeU: bytes -> Option<U>)
    requires DecodedTop(v, t, decodeT, s).Some? && DecodedTop(w, u, decodeU, s).Some?
    ensures t == u
  {
  }

  /** Keys are written in the version of payloads and read in that and any earlier one. */
  lemma TopKeyRoundTripIff(version: nat, k: Key)
    requires version <= PAYLOAD_VERSION
    ensures DecodedTop(PAYLOAD_VERSION, TYPE_KEY, DecodedKey, Header(version, TYPE_KEY) + KeyBytes(k)) == Some(k) <==> KeyInRange(k)
  {
    HeaderRoundTrip(version, TYPE_KEY, PAYLOAD_VERSION, TYPE_KEY, DecodedKey, KeyBytes(k));
    KeyRoundTripIff(k);
  }

  lemma TopUpdateRoundTripIff(u: Option<TrieUpdate>)
    ensures DecodedTopUpdate(TopUpdateBytes(u)) == Some(u) <==> (u.Some? ==> UpdateInRange(u.value))
  {
    if u.Some? {
      HeaderRoundTrip(ENTITY_VERSION, TYPE_TRIE_UPDATE, ENTITY_VERSION, TYPE_TRIE_UPDATE, DecodedUpdate, UpdateBytes(u.value));
      UpdateRoundTripIff(u.value);
    }
  }

  lemma TopProofRoundTripIff(p: TrieProof)
    ensures DecodedTop(ENTITY_VERSION, TYPE_PROOF, DecodedProof, Header(ENTITY_VERSION, TYPE_PROOF) + ProofBytes(p)) == Some(p)
       <==> ProofInRange(p)
  {
    HeaderRoundTrip(ENTITY_VERSION, TYPE_PROOF, ENTITY_VERSION, TYPE_PROOF, DecodedProof, ProofBytes(p));
    ProofRoundTripIff(p);
  }

  lemma TopPayloadlessRoundTripIff(p: PayloadlessProof)
    ensures DecodedTop(ENTITY_VERSION, TYPE_PAYLOADLESS_PROOF, DecodedPayloadless, Header(ENTITY_VERSION, TYPE_PAYLOADLESS_PROOF) + PayloadlessBytes(p)) == Some(p)
       <==> PayloadlessInRange(p)
  {
    HeaderRoundTrip(ENTITY_VERSION, TYPE_PAYLOADLESS_PROOF, ENTITY_VERSION, TYPE_PAYLOADLESS_PROOF, DecodedPayloadless, PayloadlessBytes(p));
    PayloadlessRoundTripIff(p);
  }

  lemma TopBatchRoundTripIff(proofs: seq<TrieProof>, t: bytes)
    ensures DecodedTop(ENTITY_VERSION, TYPE_BATCH_PROOF, DecodedBatch, Header(ENTITY_VERSION, TYPE_BATCH_PROOF) + (BatchBytes(ProofBytes, proofs) + t)) == Some(proofs)
       <==> ProofsInRange(proofs)
  {
    var body := BatchBytes(ProofBytes, proofs) + t;
    HeaderRoundTrip(ENTITY_VERSION, TYPE_BATCH_PROOF, ENTITY_VERSION, TYPE_BATCH_PROOF, DecodedBatch, body);
    BatchRoundTripIff(proofs, t);
  }

  lemma TopPayloadlessBatchRoundTripIff(proofs: seq<PayloadlessProof>, t: bytes)
    ensures DecodedTop(ENTITY_VERSION, TYPE_PAYLOADLESS_BATCH_PROOF, DecodedPayloadlessBatch,
              Header(ENTITY_VERSION, TYPE_PAYLOADLESS_BATCH_PROOF) + (BatchBytes(PayloadlessBytes, proofs) + t)) == Some(proofs)
       <==> PayloadlessProofsInRange(proofs) && t == []
  {
    var body := BatchBytes(PayloadlessBytes, proofs) + t;
    HeaderRoundTrip(ENTITY_VERSION, TYPE_PAYLOADLESS_BATCH_PROOF, ENTITY_VERSION, TYPE_PAYLOADLESS_BATCH_PROOF, DecodedPayloadlessBatch, body);
    PayloadlessBatchRoundTripIff(proofs, t);
  }
}
