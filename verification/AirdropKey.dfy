/** The serialized form of airdrop keys, and what it makes of a proof that carries one. */
module AirdropKeys {
  import opened Basics
  import opened Wire
  import opened AirdropProofs
  import SkipHeight

  /** What a key of its kind may hold. */
  ghost predicate KeyInBounds(k: Key)
  {
    match k
    case Rsa(n, e, nonce) => |n| < 0x1_0000 && |e| < 0x100 && |nonce| == 32
    case Goo(c1) => |c1| == GOO_KEY_SIZE
    case P256(point, nonce) => |point| == 33 && |nonce| == 32
    case Ed25519(point, nonce) => |point| == 32 && |nonce| == 32
    case Address(version, address, value, sponsor) => |address| < 0x100 && value <= MAX_UINT64
  }

  function KindOf(k: Key): byte
  {
    match k
    case Rsa(_, _, _) => 0
    case Goo(_) => 1
    case P256(_, _) => 2
    case Ed25519(_, _) => 3
    case Address(_, _, _, _) => 4
  }

  /** A size in one byte and the bytes. */
  function Sized(data: Bytes): Bytes
  {
    [(|data| % 256) as byte] + data
  }

  function WriteBody(k: Key): Bytes
  {
    match k
    case Rsa(n, e, nonce) => ToLE(|n|, 2) + n + Sized(e) + nonce
    case Goo(c1) => c1
    case P256(point, nonce) => point + nonce
    case Ed25519(point, nonce) => point + nonce
    case Address(version, address, value, sponsor) =>
      [version] + Sized(address) + ToLE(value, 8) + [if sponsor then 1 else 0]
  }

  function WriteKey(k: Key): Bytes
  {
    [KindOf(k)] + WriteBody(k)
  }

  // ---------- pieces ----------

  lemma ReadPiece(data: Bytes, rest: Bytes)
    ensures ReadFull(data + rest, |data|) == Ok(data, rest)
  {
    assert (data + rest)[..|data|] == data && (data + rest)[|data|..] == rest;
  }

  lemma ReadOne(b: byte, rest: Bytes)
    ensures ReadByte([b] + rest) == Ok(b, rest)
  {
    assert ([b] + rest)[1..] == rest;
  }

  lemma ReadSized(data: Bytes, rest: Bytes)
    requires |data| < 0x100
    ensures ReadByte(Sized(data) + rest) == Ok(|data| as byte, data + rest)
    ensures ReadFull(data + rest, |data|) == Ok(data, rest)
  {
    Assoc([|data| as byte], data, rest);
    ReadOne(|data| as byte, data + rest);
    ReadPiece(data, rest);
  }

  lemma PieceRead(s: Bytes, n: nat)
    requires ReadFull(s, n).Ok?
    ensures s == ReadFull(s, n).value + ReadFull(s, n).rest && |ReadFull(s, n).value| == n
  {
    assert s == s[..n] + s[n..];
  }

  lemma OneRead(s: Bytes)
    requires ReadByte(s).Ok?
    ensures s == [ReadByte(s).value] + ReadByte(s).rest
  {
    assert s == [s[0]] + s[1..];
  }

  lemma SizedRead(s: Bytes)
    requires ReadByte(s).Ok? && ReadFull(ReadByte(s).rest, ReadByte(s).value as nat).Ok?
    ensures var r := ReadFull(ReadByte(s).rest, ReadByte(s).value as nat);
      |r.value| < 0x100 && |r.value| == ReadByte(s).value as nat && s == Sized(r.value) + r.rest
  {
    OneRead(s);
    PieceRead(ReadByte(s).rest, ReadByte(s).value as nat);
    var r := ReadFull(ReadByte(s).rest, ReadByte(s).value as nat);
    Assoc([ReadByte(s).value], r.value, r.rest);
  }

  // ---------- written keys read back ----------

  lemma ReadWriteRsa(n: Bytes, e: Bytes, nonce: Bytes)
    requires KeyInBounds(Rsa(n, e, nonce))
    ensures ReadRsaKey(WriteBody(Rsa(n, e, nonce))) == Ok(Rsa(n, e, nonce), [])
  {
    Powers();
    var d := nonce + [];
    var c := Sized(e) + d;
    var b := n + c;
    Chain4(ToLE(|n|, 2) + b, ToLE(|n|, 2), b, n, c, Sized(e), d, nonce, []);
    assert WriteBody(Rsa(n, e, nonce)) == ToLE(|n|, 2) + b;
    ReadWriteLE(|n|, 2, b);
    ReadPiece(n, c);
    ReadSized(e, d);
    ReadPiece(nonce, []);
  }

  lemma ReadWriteAddress(version: byte, address: Bytes, value: nat, last: byte)
    requires KeyInBounds(Address(version, address, value, false))
    ensures ReadAddressKey([version] + Sized(address) + ToLE(value, 8) + [last])
         == Ok(Address(version, address, value, last == 1), [])
  {
    Powers();
    var d := [last] + [];
    var c := ToLE(value, 8) + d;
    var b := Sized(address) + c;
    Chain4([version] + b, [version], b, Sized(address), c, ToLE(value, 8), d, [last], []);
    assert [version] + Sized(address) + ToLE(value, 8) + [last] == [version] + b;
    ReadOne(version, b);
    ReadSized(address, c);
    ReadWriteLE(value, 8, d);
    ReadOne(last, []);
  }

  lemma ReadWritePoint(point: Bytes, nonce: Bytes, p256: bool)
    requires |nonce| == 32
    ensures ReadPointKey(point + nonce, |point|, p256)
         == Ok(if p256 then P256(point, nonce) else Ed25519(point, nonce), [])
  {
    ReadPiece(point, nonce);
    ReadPiece(nonce, []);
    assert nonce + [] == nonce;
  }

  lemma ReadWriteGoo(c1: Bytes)
    requires |c1| == GOO_KEY_SIZE
    ensures ReadGooKey(c1) == Ok(Goo(c1), [])
  {
    ReadPiece(c1, []);
    assert c1 + [] == c1;
  }

  /** Every key within bounds, of each of the five kinds, parses back from its serialized form. */
  lemma ParseOfWriteKey(k: Key)
    requires KeyInBounds(k)
    ensures ParseKey(WriteKey(k)) == Some(k)
  {
    var s := WriteKey(k);
    assert s[0] == KindOf(k) && s[1..] == WriteBody(k);
    match k
    case Rsa(n, e, nonce) => ReadWriteRsa(n, e, nonce);
    case Goo(c1) => ReadWriteGoo(c1);
    case P256(point, nonce) => ReadWritePoint(point, nonce, true);
    case Ed25519(point, nonce) => ReadWritePoint(point, nonce, false);
    case Address(version, address, value, sponsor) =>
      ReadWriteAddress(version, address, value, if sponsor then 1 else 0);
  }

  // ---------- what parses is a written key ----------

  /** The same bytes but for the last one, of which only whether it is 1 is kept. */
  predicate UpToSponsor(s: Bytes, k: Key)
  {
    if !k.Address? then s == WriteKey(k)
    else |s| == |WriteKey(k)| && s[..|s| - 1] == WriteKey(k)[..|s| - 1] && (k.sponsor <==> s[|s| - 1] == 1)
  }

  lemma WriteReadRsa(s: Bytes)
    requires ToEnd(ReadRsaKey(s)).Some?
    ensures var k := ToEnd(ReadRsaKey(s)).value; k.Rsa? && KeyInBounds(k) && s == WriteBody(k)
  {
    Powers();
    var k := ToEnd(ReadRsaKey(s)).value;
    WriteReadLE(s, 2);
    var s1 := ReadLE(s, 2).rest;
    PieceRead(s1, |k.n|);
    var s2 := ReadFull(s1, |k.n|).rest;
    SizedRead(s2);
    var s4 := ReadFull(ReadByte(s2).rest, |k.e|).rest;
    PieceRead(s4, 32);
    Chain4(s, ToLE(|k.n|, 2), s1, k.n, s2, Sized(k.e), s4, k.rsaNonce, []);
    assert s == WriteBody(k) + [];
  }

  lemma WriteReadAddress(s: Bytes)
    requires ToEnd(ReadAddressKey(s)).Some?
    ensures var k := ToEnd(ReadAddressKey(s)).value;
      && k.Address? && KeyInBounds(k) && |s| > 0
      && s == [k.version] + Sized(k.address) + ToLE(k.value, 8) + [s[|s| - 1]] && (k.sponsor <==> s[|s| - 1] == 1)
  {
    Powers();
    var k := ToEnd(ReadAddressKey(s)).value;
    OneRead(s);
    var s1 := ReadByte(s).rest;
    SizedRead(s1);
    var s3 := ReadFull(ReadByte(s1).rest, |k.address|).rest;
    WriteReadLE(s3, 8);
    var s4 := ReadLE(s3, 8).rest;
    OneRead(s4);
    var last := ReadByte(s4).value;
    assert s4 == [last] + [];
    Chain4(s, [k.version], s1, Sized(k.address), s3, ToLE(k.value, 8), s4, [last], []);
    assert s == [k.version] + Sized(k.address) + ToLE(k.value, 8) + [last];
  }

  lemma WriteReadPoint(s: Bytes, size: nat, p256: bool)
    requires ToEnd(ReadPointKey(s, size, p256)).Some? && size == if p256 then 33 else 32
    ensures var k := ToEnd(ReadPointKey(s, size, p256)).value;
      (if p256 then k.P256? else k.Ed25519?) && KeyInBounds(k) && s == WriteBody(k)
  {
    PieceRead(s, size);
    var s1 := ReadFull(s, size).rest;
    PieceRead(s1, 32);
    assert s1 == ReadFull(s1, 32).value + [];
  }

  lemma WriteReadGoo(s: Bytes)
    requires ToEnd(ReadGooKey(s)).Some?
    ensures var k := ToEnd(ReadGooKey(s)).value; k.Goo? && KeyInBounds(k) && s == WriteBody(k)
  {
    PieceRead(s, GOO_KEY_SIZE);
    assert s == ReadFull(s, GOO_KEY_SIZE).value + [];
  }

  /** Every byte string that parses is the serialized form of the key, up to the sponsor byte of an address key. */
  lemma WriteOfParseKey(s: Bytes)
    requires ParseKey(s).Some?
    ensures KeyInBounds(ParseKey(s).value) && UpToSponsor(s, ParseKey(s).value)
  {
    var k, body := ParseKey(s).value, s[1..];
    assert s == [s[0]] + body;
    if s[0] == 0 {
      WriteReadRsa(body);
    } else if s[0] == 1 {
      WriteReadGoo(body);
    } else if s[0] == 2 {
      WriteReadPoint(body, 33, true);
    } else if s[0] == 3 {
      WriteReadPoint(body, 32, false);
    } else {
      WriteReadAddress(body);
      SponsorByte(s, body, k);
    }
  }

  /** A byte string parses to a key exactly if the key is within bounds and that is its form, up to the sponsor byte. */
  lemma ParseKeyExactly(s: Bytes, k: Key)
    ensures ParseKey(s) == Some(k) <==> KeyInBounds(k) && UpToSponsor(s, k)
  {
    if ParseKey(s) == Some(k) {
      WriteOfParseKey(s);
    }
    if KeyInBounds(k) && UpToSponsor(s, k) {
      if k.Address? {
        OtherSponsor(s, k);
      } else {
        ParseOfWriteKey(k);
      }
    }
  }

  lemma OtherSponsor(s: Bytes, k: Key)
    requires k.Address? && KeyInBounds(k) && UpToSponsor(s, k)
    ensures ParseKey(s) == Some(k)
  {
    var front := [k.version] + Sized(k.address) + ToLE(k.value, 8);
    var written, last := WriteKey(k), s[|s| - 1];
    assert written == [4] + (front + [if k.sponsor then 1 else 0]);
    assert written[..|s| - 1] == [4] + front;
    assert s == s[..|s| - 1] + [last];
    assert s[0] == 4 && s[1..] == front + [last];
    ReadWriteAddress(k.version, k.address, k.value, last);
  }

  lemma SponsorByte(s: Bytes, body: Bytes, k: Key)
    requires s == [4] + body && k.Address? && |body| > 0
    requires body == [k.version] + Sized(k.address) + ToLE(k.value, 8) + [body[|body| - 1]]
    requires k.sponsor <==> body[|body| - 1] == 1
    ensures UpToSponsor(s, k)
  {
    var front := [k.version] + Sized(k.address) + ToLE(k.value, 8);
    var last: Bytes := [if k.sponsor then 1 else 0];
    assert body[..|body| - 1] == front;
    assert s[..|s| - 1] == [4] + front;
    assert WriteKey(k) == [4] + (front + last);
    assert WriteKey(k)[..|s| - 1] == [4] + front;
  }

  // ---------- where the fields are ----------

  /** An address key is its type, version and size, the address, the value in eight bytes, and the sponsor byte. */
  lemma AddressLayout(s: Bytes)
    requires ParseKey(s).Some? && s[0] == 4
    ensures var k := ParseKey(s).value;
      && k.Address? && |s| >= 12
      && var n := s[2] as nat;
         && |s| == 12 + n && k.version == s[1] && k.address == s[3..3 + n] && k.value == LE(s[3 + n..11 + n])
         && (k.sponsor <==> s[11 + n] == 1)
  {
    var k, body := ParseKey(s).value, s[1..];
    WriteReadAddress(body);
    assert s == [s[0]] + body;
    AddressBytes(s, k.version, k.address, ToLE(k.value, 8), body[|body| - 1]);
    Powers();
    LEOfToLE(k.value, 8);
  }

  lemma AddressBytes(s: Bytes, version: byte, address: Bytes, value: Bytes, last: byte)
    requires |address| < 256 && |value| == 8 && |s| > 0
    requires s == [s[0]] + ([version] + ([|address| as byte] + address) + value + [last])
    ensures var n := |address|;
      && |s| == 12 + n && s[1] == version && s[2] == n as byte && s[3..3 + n] == address
      && s[3 + n..11 + n] == value && s[11 + n] == last
  {
    var n := |address|;
    assert s == [s[0], version, n as byte] + address + value + [last];
    assert s[3..3 + n] == address;
    assert s[3 + n..11 + n] == value;
  }

  /** Type, the size of the modulus in two bytes, the modulus, the size of the exponent, the exponent, the nonce. */
  ghost predicate LaidOut(s: Bytes, k: Key)
    requires k.Rsa?
  {
    && |s| >= 3
    && var n := LE(s[1..3]);
       && |s| >= 4 + n && k.n == s[3..3 + n]
       && var e := s[3 + n] as nat;
          |s| == 36 + n + e && k.e == s[4 + n..4 + n + e] && k.rsaNonce == s[4 + n + e..]
  }

  lemma WrittenRsa(k: Key)
    requires k.Rsa? && KeyInBounds(k)
    ensures LaidOut(WriteKey(k), k)
  {
    Powers();
    LEOfToLE(|k.n|, 2);
    RsaBytes(WriteKey(k), ToLE(|k.n|, 2), k);
  }

  lemma RsaBytes(s: Bytes, a: Bytes, k: Key)
    requires k.Rsa? && |a| == 2 && LE(a) == |k.n| && |k.e| < 256 && |k.rsaNonce| == 32
    requires s == [0] + (a + k.n + ([|k.e| as byte] + k.e) + k.rsaNonce)
    ensures LaidOut(s, k)
  {
    Parts([0], a, k.n, [|k.e| as byte], k.e, k.rsaNonce);
    var n := |k.n|;
    assert s[1..3] == a;
    assert s[3 + n] == s[3 + n..4 + n][0];
  }

  lemma RsaLayout(s: Bytes)
    requires ParseKey(s).Some? && s[0] == 0
    ensures ParseKey(s).value.Rsa? && LaidOut(s, ParseKey(s).value)
  {
    var k := ParseKey(s).value;
    WriteOfParseKey(s);
    assert WriteKey(k)[0] == KindOf(k);
    assert k.Rsa? by {
      WriteReadRsa(s[1..]);
    }
    WrittenRsa(k);
  }

  lemma Parts(h: Bytes, a: Bytes, b: Bytes, c: Bytes, d: Bytes, e: Bytes)
    ensures var s := h + (a + b + (c + d) + e);
      var i := |h| + |a|; var j := i + |b|; var k := j + |c|; var l := k + |d|;
      && |s| == l + |e| && s[|h|..i] == a && s[i..j] == b && s[j..k] == c && s[k..l] == d && s[l..] == e
  {
    Flat(h, a, b, c, d, e);
    var s := h + a + b + c + d + e;
    var i := |h| + |a|;
    assert s[|h|..i] == a;
    assert s[i..i + |b|] == b;
    assert s[i + |b|..i + |b| + |c|] == c;
  }

  lemma Flat(h: Bytes, a: Bytes, b: Bytes, c: Bytes, d: Bytes, e: Bytes)
    ensures h + (a + b + (c + d) + e) == h + a + b + c + d + e
  {
  }

  // ---------- what a key makes of a proof ----------

  lemma {:induction false} BitLenIs(n: nat, b: nat)
    ensures BitLen(n) <= b <==> n < SkipHeight.Pow2(b)
    decreases b
  {
    if b > 0 && n > 0 {
      BitLenIs(n / 2, b - 1);
    }
  }

  /** The first byte of a big-endian number counts most. */
  lemma {:induction false} BigEndianCons(b: byte, s: Bytes)
    ensures BigEndian([b] + s) == b as nat * Pow256(|s|) + BigEndian(s)
  {
    var t := [b] + s;
    if s == [] {
      assert t[..0] == [];
    } else {
      var front := s[..|s| - 1];
      assert t[..|t| - 1] == [b] + front && t[|t| - 1] == s[|s| - 1];
      BigEndianCons(b, front);
      Scale(b as nat, Pow256(|front|), BigEndian(front));
    }
  }

  lemma Scale(b: nat, p: nat, x: nat)
    ensures 256 * (b * p + x) == b * (256 * p) + 256 * x
  {
  }

  /** A key is weak exactly if it is an RSA key whose modulus is below 2^2040. */
  lemma WeakExactly(k: Key)
    ensures IsWeak(k) <==> k.Rsa? && BigEndian(k.n) < SkipHeight.Pow2(2040)
  {
    if k.Rsa? {
      BitLenIs(BigEndian(k.n), 2040);
    }
  }

  /** What a proof that carries a key is worth. */
  function Worth(k: Key): nat
  {
    if k.Address? then k.value else 4_246_994_314
  }

  lemma ValueOfKey(p: Proof, k: Key)
    requires KeyInBounds(k) && UpToSponsor(p.key, k)
    ensures (IsAddress(p) <==> k.Address?) && Value(p) == Worth(k)
  {
    ParseKeyExactly(p.key, k);
    assert WriteKey(k)[0] == KindOf(k);
    if k.Address? {
      assert p.key[0] == p.key[..|p.key| - 1][0] == WriteKey(k)[..|p.key| - 1][0];
    }
  }

  /** An address key that does not parse makes a proof worthless, so it is sane only without a fee. */
  lemma UnparsedAddress(p: Proof)
    requires |p.key| > 0 && p.key[0] == 4
    ensures Value(p) > 0 ==> exists k :: KeyInBounds(k) && UpToSponsor(p.key, k) && Value(p) == Worth(k)
    ensures IsSane(p) && p.fee > 0 ==> exists k :: KeyInBounds(k) && UpToSponsor(p.key, k) && p.fee <= Worth(k)
  {
    if ParseKey(p.key).Some? {
      WriteOfParseKey(p.key);
    }
  }

  /** When a proof that carries a key is sane, and what position it then claims. */
  lemma SaneExactly(p: Proof, k: Key)
    requires KeyInBounds(k) && UpToSponsor(p.key, k)
    ensures IsSane(p) <==>
      && p.version <= 31 && 2 <= |p.address| <= 40 && p.fee <= Worth(k) <= 2_040_000_000_000_000
      && if k.Address? then |p.subproof| == 0 && p.subindex == 0 && |p.proof| <= 11 && p.index < 1358
         else |p.subproof| <= 3 && p.subindex < 8 && |p.proof| <= 18 && p.index < 216199 && p.size <= 3400
    ensures IsSane(p) ==> Position(p) == Some(if k.Address? then 216199 + p.index else p.index)
  {
    ValueOfKey(p, k);
    SaneByKind(p, k.Address?, Worth(k));
  }

  lemma SaneByKind(p: Proof, address: bool, worth: nat)
    requires |p.key| > 0 && (IsAddress(p) <==> address) && Value(p) == worth
    ensures IsSane(p) <==>
      && p.version <= 31 && 2 <= |p.address| <= 40 && p.fee <= worth <= 2_040_000_000_000_000
      && if address then |p.subproof| == 0 && p.subindex == 0 && |p.proof| <= 11 && p.index < 1358
         else |p.subproof| <= 3 && p.subindex < 8 && |p.proof| <= 18 && p.index < 216199 && p.size <= 3400
    ensures IsSane(p) ==> Position(p) == Some(if address then 216199 + p.index else p.index)
  {
  }

  /** What is reported of a proof that carries a key. */
  lemma MetadataOf(p: Proof, k: Key)
    requires KeyInBounds(k) && UpToSponsor(p.key, k) && InBounds(p) && p.size == |WriteProof(p)| <= MAX_AIRDROP_PROOF
    ensures DecodeMetadata(WriteProof(p)) ==
      if !IsSane(p) then None
      else Some(Metadata(if k.Address? then 216199 + p.index else p.index, Worth(k), p.fee, p.version, p.address,
                         k.Rsa? && BigEndian(k.n) < SkipHeight.Pow2(2040), k.Goo?))
  {
    ParseOfWrite(p);
    ParseKeyExactly(p.key, k);
    ValueOfKey(p, k);
    SaneExactly(p, k);
    WeakExactly(k);
  }
}
