/**
 * Airdrop proofs: their serialized form, the keys inside them, the bytes that
 * are signed, and what a proof claims.
 */
module AirdropProofs {
  import opened Basics
  import opened Wire

  const AIRDROP_REWARD := 4246994314
  const MAX_AIRDROP_PROOF := 3400
  const AIRDROP_DEPTH := 18
  const AIRDROP_SUB_DEPTH := 3
  const AIRDROP_LEAVES := 216199
  const AIRDROP_SUB_LEAVES := 8
  const FAUCET_DEPTH := 11
  const FAUCET_LEAVES := 1358
  const AIRDROP_TREE_LEAVES := AIRDROP_LEAVES + FAUCET_LEAVES
  const KEY_RSA: byte := 0
  const KEY_GOO: byte := 1
  const KEY_P256: byte := 2
  const KEY_ED25519: byte := 3
  const KEY_ADDRESS: byte := 4
  const GOO_KEY_SIZE := 256
  const MAX_DOO := 2_040_000_000_000_000
  const STRONG_RSA_KEY_BITS := 2041

  const SIGNATURE_CONTEXT: Bytes := [
    0x5b, 0x21, 0xff, 0x4a, 0x0f, 0xcf, 0x78, 0x12,
    0x39, 0x15, 0xea, 0xa0, 0x00, 0x3d, 0x2a, 0x3e,
    0x18, 0x55, 0xa9, 0xb1, 0x5e, 0x34, 0x41, 0xda,
    0x2e, 0xf5, 0xa4, 0xc0, 0x1e, 0xaf, 0x4f, 0xf3]

  datatype Proof = Proof(
    index: nat,
    proof: seq<Bytes>,
    subindex: byte,
    subproof: seq<Bytes>,
    key: Bytes,
    version: byte,
    address: Bytes,
    fee: nat,
    signature: Bytes,
    size: nat)

  // ---------- hash lists ----------

  function ReadHashes(s: Bytes, count: nat): Parsed<seq<Bytes>>
  {
    if count == 0 then Ok([], s)
    else
      var (hash, s1) :- ReadFull(s, 32);
      var (hashes, rest) :- ReadHashes(s1, count - 1);
      Ok([hash] + hashes, rest)
  }

  function Concat(hashes: seq<Bytes>): Bytes
  {
    if |hashes| == 0 then [] else hashes[0] + Concat(hashes[1..])
  }

  ghost predicate AllHashes(hashes: seq<Bytes>)
  {
    forall h :: h in hashes ==> |h| == 32
  }

  lemma {:induction false} ReadWriteHashes(hashes: seq<Bytes>, rest: Bytes)
    requires AllHashes(hashes)
    ensures ReadHashes(Concat(hashes) + rest, |hashes|) == Ok(hashes, rest)
  {
    if |hashes| > 0 {
      var s := Concat(hashes) + rest;
      assert hashes[0] in hashes;
      assert s == hashes[0] + (Concat(hashes[1..]) + rest);
      assert s[..32] == hashes[0] && s[32..] == Concat(hashes[1..]) + rest;
      ReadWriteHashes(hashes[1..], rest);
      assert [hashes[0]] + hashes[1..] == hashes;
    } else {
      assert Concat(hashes) + rest == rest;
    }
  }

  lemma {:induction false} WriteReadHashes(s: Bytes, count: nat)
    requires ReadHashes(s, count).Ok?
    ensures var r := ReadHashes(s, count); |r.value| == count && AllHashes(r.value) && s == Concat(r.value) + r.rest
  {
    if count > 0 {
      WriteReadHashes(s[32..], count - 1);
      var tail := ReadHashes(s[32..], count - 1);
      assert s == s[..32] + (Concat(tail.value) + tail.rest);
      Assoc(s[..32], Concat(tail.value), tail.rest);
      assert ([s[..32]] + tail.value)[1..] == tail.value;
    }
  }

  /** A one-byte count and that many hashes. */
  function WriteCounted(hashes: seq<Bytes>): Bytes
  {
    [(|hashes| % 256) as byte] + Concat(hashes)
  }

  function ReadCounted(s: Bytes, limit: nat): Parsed<seq<Bytes>>
  {
    var (count, s1) :- ReadByte(s);
    if count as nat > limit then Fail else ReadHashes(s1, count as nat)
  }

  lemma {:induction false} ReadWriteCounted(hashes: seq<Bytes>, limit: nat, rest: Bytes)
    requires AllHashes(hashes) && |hashes| <= limit < 256
    ensures ReadCounted(WriteCounted(hashes) + rest, limit) == Ok(hashes, rest)
  {
    assert (WriteCounted(hashes) + rest)[1..] == Concat(hashes) + rest;
    ReadWriteHashes(hashes, rest);
  }

  lemma {:induction false} WriteReadCounted(s: Bytes, limit: nat)
    requires ReadCounted(s, limit).Ok? && limit < 256
    ensures var r := ReadCounted(s, limit);
      |r.value| <= limit && AllHashes(r.value) && s == WriteCounted(r.value) + r.rest
  {
    var r := ReadHashes(s[1..], s[0] as nat);
    WriteReadHashes(s[1..], s[0] as nat);
    assert s == [s[0]] + (Concat(r.value) + r.rest);
    Assoc([s[0]], Concat(r.value), r.rest);
  }

  /** A one-byte size and that many bytes. */
  function WriteShort(data: Bytes): Bytes
  {
    [(|data| % 256) as byte] + data
  }

  function ReadShort(s: Bytes, low: nat, high: nat): Parsed<Bytes>
  {
    var (size, s1) :- ReadByte(s);
    if size as nat < low || size as nat > high then Fail else ReadFull(s1, size as nat)
  }

  lemma {:induction false} ReadWriteShort(data: Bytes, low: nat, high: nat, rest: Bytes)
    requires low <= |data| <= high < 256
    ensures ReadShort(WriteShort(data) + rest, low, high) == Ok(data, rest)
  {
    var s := WriteShort(data) + rest;
    assert s[1..] == data + rest;
    assert (data + rest)[..|data|] == data && (data + rest)[|data|..] == rest;
  }

  lemma {:induction false} WriteReadShort(s: Bytes, low: nat, high: nat)
    requires ReadShort(s, low, high).Ok? && high < 256
    ensures var r := ReadShort(s, low, high); low <= |r.value| <= high && s == WriteShort(r.value) + r.rest
  {
    var size := s[0] as nat;
    assert s == [s[0]] + s[1..];
    assert s[1..] == s[1..][..size] + s[1..][size..];
  }

  /** A byte that must be below a limit. */
  function ReadBelow(s: Bytes, limit: nat): Parsed<byte>
  {
    var (b, rest) :- ReadByte(s);
    if b as nat >= limit then Fail else Ok(b, rest)
  }

  lemma {:induction false} ReadWriteBelow(b: byte, limit: nat, rest: Bytes)
    requires b as nat < limit
    ensures ReadBelow([b] + rest, limit) == Ok(b, rest)
  {
    assert ([b] + rest)[1..] == rest;
  }

  lemma {:induction false} WriteReadBelow(s: Bytes, limit: nat)
    requires ReadBelow(s, limit).Ok?
    ensures var r := ReadBelow(s, limit); r.value as nat < limit && s == [r.value] + r.rest
  {
    assert s == [s[0]] + s[1..];
  }

  lemma {:induction false} Chain4(s: Bytes, a: Bytes, s1: Bytes, b: Bytes, s2: Bytes, c: Bytes, s3: Bytes, d: Bytes,
                                  rest: Bytes)
    requires s == a + s1 && s1 == b + s2 && s2 == c + s3 && s3 == d + rest
    ensures s == a + b + c + d + rest
  {
    Assoc(a, b, s2);
    Assoc(a + b, c, s3);
    Assoc(a + b + c, d, rest);
  }

  // ---------- whole proofs ----------

  /** Where the leaf is: index, path, subindex and subpath. */
  datatype Place = Place(index: nat, proof: seq<Bytes>, subindex: byte, subproof: seq<Bytes>)

  /** Who claims and how: key, address, fee and signature. */
  datatype Claim = Claim(key: Bytes, version: byte, address: Bytes, fee: nat, signature: Bytes)

  function ParsePlace(s: Bytes): Parsed<Place>
  {
    var (index, s1) :- ReadLE(s, 4);
    if index >= AIRDROP_LEAVES then Fail
    else
      var (proof, s2) :- ReadCounted(s1, AIRDROP_DEPTH);
      var (subindex, s3) :- ReadBelow(s2, AIRDROP_SUB_LEAVES);
      var (subproof, rest) :- ReadCounted(s3, AIRDROP_SUB_DEPTH);
      Ok(Place(index, proof, subindex, subproof), rest)
  }

  function ParseClaim(s: Bytes): Parsed<Claim>
  {
    var (key, s1) :- ReadVarBytes(s);
    if |key| == 0 then Fail
    else
      var (version, s2) :- ReadBelow(s1, 32);
      var (address, s3) :- ReadShort(s2, 2, 40);
      var (fee, s4) :- ReadVarInt(s3);
      var (signature, rest) :- ReadVarBytes(s4);
      Ok(Claim(key, version, address, fee, signature), rest)
  }

  /** parseAirdropProof: nothing may follow the proof. */
  function ParseProof(s: Bytes): Option<Proof>
  {
    if |s| > MAX_AIRDROP_PROOF then None
    else
      match ParsePlace(s)
      case Fail => None
      case Ok(p, s1) =>
        match ParseClaim(s1)
        case Fail => None
        case Ok(c, rest) =>
          if |rest| != 0 then None
          else
            Some(Proof(p.index, p.proof, p.subindex, p.subproof, c.key, c.version, c.address, c.fee, c.signature, |s|))
  }

  function WritePlace(p: Proof): Bytes
  {
    ToLE(p.index, 4) + WriteCounted(p.proof) + [p.subindex] + WriteCounted(p.subproof)
  }

  function WriteSignedClaim(p: Proof): Bytes
  {
    WriteVarBytes(p.key) + [p.version] + WriteShort(p.address) + WriteVarInt(p.fee)
  }

  /** The bytes that are hashed and signed. */
  function SignatureData(p: Proof): Bytes
  {
    SIGNATURE_CONTEXT + WritePlace(p) + WriteSignedClaim(p)
  }

  /** The serialized form of a proof. */
  function WriteProof(p: Proof): Bytes
  {
    WritePlace(p) + (WriteSignedClaim(p) + WriteVarBytes(p.signature))
  }

  /** The serialized form is the signed bytes without their 32-byte context, followed by the signature. */
  lemma {:induction false} SerializedIsSigned(p: Proof)
    ensures |SIGNATURE_CONTEXT| == 32 && SIGNATURE_CONTEXT <= SignatureData(p)
    ensures WriteProof(p) == SignatureData(p)[32..] + WriteVarBytes(p.signature)
  {
    SignedAfterContext(p);
    Assoc(WritePlace(p), WriteSignedClaim(p), WriteVarBytes(p.signature));
  }

  lemma {:induction false} SignedAfterContext(p: Proof)
    ensures |SIGNATURE_CONTEXT| == 32 && SIGNATURE_CONTEXT <= SignatureData(p)
    ensures SignatureData(p)[32..] == WritePlace(p) + WriteSignedClaim(p)
  {
    Assoc(SIGNATURE_CONTEXT, WritePlace(p), WriteSignedClaim(p));
  }

  /** The ranges a parsed proof stays within. */
  ghost predicate InBounds(p: Proof)
  {
    && p.index < AIRDROP_LEAVES
    && |p.proof| <= AIRDROP_DEPTH && AllHashes(p.proof)
    && p.subindex as nat < AIRDROP_SUB_LEAVES
    && |p.subproof| <= AIRDROP_SUB_DEPTH && AllHashes(p.subproof)
    && 0 < |p.key| <= MAX_UINT64
    && p.version <= 31
    && 2 <= |p.address| <= 40
    && p.fee <= MAX_UINT64
    && |p.signature| <= MAX_UINT64
  }

  lemma {:induction false} ReadWritePlace(p: Proof, rest: Bytes)
    requires InBounds(p)
    ensures ParsePlace(WritePlace(p) + rest) == Ok(Place(p.index, p.proof, p.subindex, p.subproof), rest)
  {
    Powers();
    var d := WriteCounted(p.subproof) + rest;
    var c := [p.subindex] + d;
    var b := WriteCounted(p.proof) + c;
    Chain4(ToLE(p.index, 4) + b, ToLE(p.index, 4), b, WriteCounted(p.proof), c, [p.subindex], d,
           WriteCounted(p.subproof), rest);
    ReadWriteLE(p.index, 4, b);
    ReadWriteCounted(p.proof, AIRDROP_DEPTH, c);
    ReadWriteBelow(p.subindex, AIRDROP_SUB_LEAVES, d);
    ReadWriteCounted(p.subproof, AIRDROP_SUB_DEPTH, rest);
  }

  lemma {:induction false} ReadWriteClaim(p: Proof, rest: Bytes)
    requires InBounds(p)
    ensures ParseClaim(WriteSignedClaim(p) + WriteVarBytes(p.signature) + rest)
         == Ok(Claim(p.key, p.version, p.address, p.fee, p.signature), rest)
  {
    var e := WriteVarBytes(p.signature) + rest;
    var d := WriteVarInt(p.fee) + e;
    var c := WriteShort(p.address) + d;
    var b := [p.version] + c;
    Assoc(WriteSignedClaim(p), WriteVarBytes(p.signature), rest);
    Chain4(WriteVarBytes(p.key) + b, WriteVarBytes(p.key), b, [p.version], c, WriteShort(p.address), d,
           WriteVarInt(p.fee), e);
    ReadWriteVarBytes(p.key, b);
    ReadWriteBelow(p.version, 32, c);
    ReadWriteShort(p.address, 2, 40, d);
    ReadWriteVarInt(p.fee, e);
    ReadWriteVarBytes(p.signature, rest);
  }

  /** Every proof within bounds that is not too large parses back to itself. */
  lemma {:induction false} ParseOfWrite(p: Proof)
    requires InBounds(p) && p.size == |WriteProof(p)| <= MAX_AIRDROP_PROOF
    ensures ParseProof(WriteProof(p)) == Some(p)
  {
    var claim := WriteSignedClaim(p) + WriteVarBytes(p.signature);
    ReadWritePlace(p, claim);
    ReadWriteClaim(p, []);
    assert claim + [] == claim;
  }

  lemma {:induction false} WriteReadPlace(s: Bytes, p: Proof)
    requires ParsePlace(s).Ok? && ParsePlace(s).value == Place(p.index, p.proof, p.subindex, p.subproof)
    ensures s == WritePlace(p) + ParsePlace(s).rest
    ensures p.index < AIRDROP_LEAVES && |p.proof| <= AIRDROP_DEPTH && AllHashes(p.proof)
    ensures p.subindex as nat < AIRDROP_SUB_LEAVES && |p.subproof| <= AIRDROP_SUB_DEPTH && AllHashes(p.subproof)
  {
    WriteReadLE(s, 4);
    var s1 := ReadLE(s, 4).rest;
    WriteReadCounted(s1, AIRDROP_DEPTH);
    var s2 := ReadCounted(s1, AIRDROP_DEPTH).rest;
    WriteReadBelow(s2, AIRDROP_SUB_LEAVES);
    var s3 := ReadBelow(s2, AIRDROP_SUB_LEAVES).rest;
    WriteReadCounted(s3, AIRDROP_SUB_DEPTH);
    var rest := ReadCounted(s3, AIRDROP_SUB_DEPTH).rest;
    Chain4(s, ToLE(p.index, 4), s1, WriteCounted(p.proof), s2, [p.subindex], s3, WriteCounted(p.subproof), rest);
  }

  lemma {:induction false} WriteReadClaim(s: Bytes, p: Proof)
    requires ParseClaim(s).Ok? && ParseClaim(s).value == Claim(p.key, p.version, p.address, p.fee, p.signature)
    ensures s == WriteSignedClaim(p) + WriteVarBytes(p.signature) + ParseClaim(s).rest
    ensures 0 < |p.key| <= MAX_UINT64 && p.version <= 31 && 2 <= |p.address| <= 40
    ensures p.fee <= MAX_UINT64 && |p.signature| <= MAX_UINT64
  {
    WriteReadVarBytes(s);
    var s1 := ReadVarBytes(s).rest;
    WriteReadBelow(s1, 32);
    var s2 := ReadBelow(s1, 32).rest;
    WriteReadShort(s2, 2, 40);
    var s3 := ReadShort(s2, 2, 40).rest;
    WriteReadVarInt(s3);
    var s4 := ReadVarInt(s3).rest;
    WriteReadVarBytes(s4);
    var rest := ReadVarBytes(s4).rest;
    Chain4(s, WriteVarBytes(p.key), s1, [p.version], s2, WriteShort(p.address), s3, WriteVarInt(p.fee), s4);
    Assoc(WriteSignedClaim(p), WriteVarBytes(p.signature), rest);
  }

  /** Every byte string that parses is the serialized form of what it parses to, which is within bounds. */
  lemma {:induction false} WriteOfParse(s: Bytes)
    requires ParseProof(s).Some?
    ensures var p := ParseProof(s).value; InBounds(p) && p.size == |s| && s == WriteProof(p)
  {
    var p := ParseProof(s).value;
    WriteReadPlace(s, p);
    var s1 := ParsePlace(s).rest;
    WriteReadClaim(s1, p);
    assert s1 == WriteSignedClaim(p) + WriteVarBytes(p.signature) + [];
  }

  /** Equal signed bytes mean equal signed fields. */
  lemma {:induction false} SignatureDataInjective(p: Proof, q: Proof)
    requires InBounds(p) && InBounds(q) && SignatureData(p) == SignatureData(q)
    ensures p.index == q.index && p.proof == q.proof && p.subindex == q.subindex && p.subproof == q.subproof
    ensures p.key == q.key && p.version == q.version && p.address == q.address && p.fee == q.fee
  {
    SignedAfterContext(p);
    SignedAfterContext(q);
    SamePlaceAndClaim(p, q);
  }

  lemma {:induction false} SamePlaceAndClaim(p: Proof, q: Proof)
    requires InBounds(p) && InBounds(q) && WritePlace(p) + WriteSignedClaim(p) == WritePlace(q) + WriteSignedClaim(q)
    ensures p.index == q.index && p.proof == q.proof && p.subindex == q.subindex && p.subproof == q.subproof
    ensures p.key == q.key && p.version == q.version && p.address == q.address && p.fee == q.fee
  {
    ReadWritePlace(p, WriteSignedClaim(p));
    ReadWritePlace(q, WriteSignedClaim(q));
    SameClaim(p, q);
  }

  lemma {:induction false} SameClaim(p: Proof, q: Proof)
    requires InBounds(p) && InBounds(q) && WriteSignedClaim(p) == WriteSignedClaim(q)
    ensures p.key == q.key && p.version == q.version && p.address == q.address && p.fee == q.fee
  {
    ReadWriteClaim(p.(signature := []), []);
    ReadWriteClaim(q.(signature := []), []);
  }

  // ---------- keys ----------

  datatype Key =
    | Rsa(n: Bytes, e: Bytes, rsaNonce: Bytes)
    | Goo(c1: Bytes)
    | P256(point: Bytes, nonce: Bytes)
    | Ed25519(point: Bytes, nonce: Bytes)
    | Address(version: byte, address: Bytes, value: nat, sponsor: bool)

  function ReadRsaKey(s: Bytes): Parsed<Key>
  {
    var (size, s1) :- ReadLE(s, 2);
    var (n, s2) :- ReadFull(s1, size);
    var (expSize, s3) :- ReadByte(s2);
    var (e, s4) :- ReadFull(s3, expSize as nat);
    var (nonce, rest) :- ReadFull(s4, 32);
    Ok(Rsa(n, e, nonce), rest)
  }

  function ReadPointKey(s: Bytes, size: nat, p256: bool): Parsed<Key>
  {
    var (point, s1) :- ReadFull(s, size);
    var (nonce, rest) :- ReadFull(s1, 32);
    Ok(if p256 then P256(point, nonce) else Ed25519(point, nonce), rest)
  }

  function ReadAddressKey(s: Bytes): Parsed<Key>
  {
    var (version, s1) :- ReadByte(s);
    var (size, s2) :- ReadByte(s1);
    var (address, s3) :- ReadFull(s2, size as nat);
    var (value, s4) :- ReadLE(s3, 8);
    var (sponsor, rest) :- ReadByte(s4);
    Ok(Address(version, address, value, sponsor == 1), rest)
  }

  function ReadGooKey(s: Bytes): Parsed<Key>
  {
    var (c1, rest) :- ReadFull(s, GOO_KEY_SIZE);
    Ok(Goo(c1), rest)
  }

  /** What follows the type byte of a key. */
  function ReadKeyBody(keyType: byte, s: Bytes): Parsed<Key>
  {
    if keyType == KEY_RSA then ReadRsaKey(s)
    else if keyType == KEY_GOO then ReadGooKey(s)
    else if keyType == KEY_P256 then ReadPointKey(s, 33, true)
    else if keyType == KEY_ED25519 then ReadPointKey(s, 32, false)
    else if keyType == KEY_ADDRESS then ReadAddressKey(s)
    else Fail
  }

  /** parseAirdropKey: the type byte selects the form, and nothing may follow it. */
  function ParseKey(s: Bytes): Option<Key>
  {
    if |s| == 0 then None
    else ToEnd(ReadKeyBody(s[0], s[1..]))
  }

  /** What was read, if nothing follows it. */
  function ToEnd<T>(r: Parsed<T>): Option<T>
  {
    if r.Ok? && |r.rest| == 0 then Some(r.value) else None
  }

  /** The value of big-endian bytes. */
  function BigEndian(s: Bytes): nat
  {
    if |s| == 0 then 0 else 256 * BigEndian(s[..|s| - 1]) + s[|s| - 1] as nat
  }

  function BitLen(n: nat): nat
  {
    if n == 0 then 0 else 1 + BitLen(n / 2)
  }

  predicate IsWeak(key: Key)
  {
    key.Rsa? && BitLen(BigEndian(key.n)) < STRONG_RSA_KEY_BITS
  }

  // ---------- what a proof claims ----------

  predicate IsAddress(p: Proof)
  {
    |p.key| > 0 && p.key[0] == KEY_ADDRESS
  }

  /** The reward, or what an address key states; an address key that does not parse is worth nothing. */
  function Value(p: Proof): nat
  {
    if !IsAddress(p) then AIRDROP_REWARD
    else
      match ParseKey(p.key)
      case Some(Address(_, _, value, _)) => value
      case _ => 0
  }

  predicate IsSane(p: Proof)
  {
    && |p.key| != 0
    && p.version <= 31 && 2 <= |p.address| <= 40
    && Value(p) <= MAX_DOO && p.fee <= Value(p)
    && if IsAddress(p) then
         |p.subproof| == 0 && p.subindex == 0 && |p.proof| <= FAUCET_DEPTH && p.index < FAUCET_LEAVES
       else
         && |p.subproof| <= AIRDROP_SUB_DEPTH && p.subindex as nat < AIRDROP_SUB_LEAVES
         && |p.proof| <= AIRDROP_DEPTH && p.index < AIRDROP_LEAVES && p.size <= MAX_AIRDROP_PROOF
  }

  /** The bit of the spent field a proof claims: faucet leaves come after the airdrop leaves. */
  function Position(p: Proof): (r: Option<nat>)
    ensures r.Some? ==> r.value < AIRDROP_TREE_LEAVES
  {
    if IsAddress(p) then
      if p.index >= FAUCET_LEAVES then None else Some(p.index + AIRDROP_LEAVES)
    else if p.index >= AIRDROP_LEAVES then None
    else Some(p.index)
  }

  /** Sane proofs have a position, and two of them share one only if they share kind and index. */
  lemma PositionOfSane(p: Proof, q: Proof)
    requires IsSane(p) && IsSane(q)
    ensures Position(p).Some? && Position(q).Some?
    ensures Position(p) == Position(q) <==> p.index == q.index && (IsAddress(p) <==> IsAddress(q))
  {
  }

  datatype Metadata =
    Metadata(position: nat, value: nat, fee: nat, version: byte, address: Bytes, weak: bool, gooSig: bool)

  function DecodeMetadata(s: Bytes): Option<Metadata>
  {
    match ParseProof(s)
    case None => None
    case Some(p) =>
      if !IsSane(p) then None
      else
        match (Position(p), ParseKey(p.key))
        case (Some(position), Some(key)) =>
          Some(Metadata(position, Value(p), p.fee, p.version, p.address, IsWeak(key), key.Goo?))
        case _ => None
  }
}
