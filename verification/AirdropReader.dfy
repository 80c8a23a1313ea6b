/**
 * The parsers as the source runs them: a reader whose cursor moves over the
 * serialized bytes.  Each method is tied to the function that specifies it.
 */
module AirdropReaders {
  import opened Basics
  import opened Wire
  import opened AirdropProofs
  import opened GbtAirdrops

  class Reader {
    const data: Bytes
    var pos: nat

    constructor (data: Bytes)
      ensures this.data == data && Valid() && Rest() == data
    {
      this.data := data;
      pos := 0;
    }

    ghost predicate Valid()
      reads this
    {
      pos <= |data|
    }

    ghost function Rest(): Bytes
      requires Valid()
      reads this
    {
      data[pos..]
    }

    /** The outcome of a read agrees with a parse of what was left before it. */
    ghost predicate Reads<T>(want: Parsed<T>, got: Option<T>)
      reads this
    {
      && Valid()
      && match want
         case Fail => got.None?
         case Ok(value, rest) => got == Some(value) && Rest() == rest
    }

    method Byte() returns (b: Option<byte>)
      requires Valid()
      modifies this
      ensures Reads(ReadByte(old(Rest())), b)
    {
      if pos == |data| {
        return None;
      }
      b := Some(data[pos]);
      pos := pos + 1;
    }

    method Full(n: nat) returns (b: Option<Bytes>)
      requires Valid()
      modifies this
      ensures Reads(ReadFull(old(Rest()), n), b)
    {
      if |data| - pos < n {
        return None;
      }
      assert data[pos..][..n] == data[pos..pos + n] && data[pos..][n..] == data[pos + n..];
      b := Some(data[pos..pos + n]);
      pos := pos + n;
    }

    method Uint(k: nat) returns (n: Option<nat>)
      requires Valid()
      modifies this
      ensures Reads(ReadLE(old(Rest()), k), n)
    {
      var raw := Full(k);
      n := if raw.None? then None else Some(LE(raw.value));
    }

    method VarInt() returns (n: Option<nat>)
      requires Valid()
      modifies this
      ensures Reads(ReadVarInt(old(Rest())), n)
    {
      var discriminant := Byte();
      if discriminant.None? {
        return None;
      }
      match discriminant.value {
        case 0xff =>
          n := Uint(8);
          if n.Some? && n.value < 0x1_0000_0000 { n := None; }
        case 0xfe =>
          n := Uint(4);
          if n.Some? && n.value < 0x1_0000 { n := None; }
        case 0xfd =>
          n := Uint(2);
          if n.Some? && n.value < 0xfd { n := None; }
        case d =>
          n := Some(d as nat);
      }
    }

    method VarBytes() returns (b: Option<Bytes>)
      requires Valid()
      modifies this
      ensures Reads(ReadVarBytes(old(Rest())), b)
    {
      var size := VarInt();
      if size.None? || size.value > |data| - pos {
        return None;
      }
      b := Full(size.value);
    }

    method Hashes(count: nat) returns (r: Option<seq<Bytes>>)
      requires Valid()
      modifies this
      ensures Reads(ReadHashes(old(Rest()), count), r)
    {
      var hashes: seq<Bytes> := [];
      PrependNone(ReadHashes(Rest(), count));
      for i := 0 to count
        invariant Valid()
        invariant ReadHashes(old(Rest()), count) == Prepend(hashes, ReadHashes(Rest(), count - i))
      {
        ghost var front := hashes;
        var h := Full(32);
        if h.None? {
          return None;
        }
        hashes := hashes + [h.value];
        PrependOne(front, h.value, ReadHashes(Rest(), count - i - 1));
      }
      assert hashes + [] == hashes;
      r := Some(hashes);
    }

    /** Index, paths and subindex of a proof. */
    method Place() returns (r: Option<Place>)
      requires Valid()
      modifies this
      ensures Reads(ParsePlace(old(Rest())), r)
    {
      var index := Uint(4);
      if index.None? || index.value >= AIRDROP_LEAVES {
        return None;
      }
      var count := Byte();
      if count.None? || count.value as nat > AIRDROP_DEPTH {
        return None;
      }
      var proof := Hashes(count.value as nat);
      if proof.None? {
        return None;
      }
      var subindex := Byte();
      if subindex.None? || subindex.value as nat >= AIRDROP_SUB_LEAVES {
        return None;
      }
      var total := Byte();
      if total.None? || total.value as nat > AIRDROP_SUB_DEPTH {
        return None;
      }
      var subproof := Hashes(total.value as nat);
      if subproof.None? {
        return None;
      }
      r := Some(AirdropProofs.Place(index.value, proof.value, subindex.value, subproof.value));
    }

    /** Key, address, fee and signature of a proof. */
    method Claim() returns (r: Option<Claim>)
      requires Valid()
      modifies this
      ensures Reads(ParseClaim(old(Rest())), r)
    {
      var key := VarBytes();
      if key.None? || |key.value| == 0 {
        return None;
      }
      var version := Byte();
      if version.None? || version.value > 31 {
        return None;
      }
      var addressSize := Byte();
      if addressSize.None? || addressSize.value < 2 || addressSize.value > 40 {
        return None;
      }
      var address := Full(addressSize.value as nat);
      if address.None? {
        return None;
      }
      var fee := VarInt();
      if fee.None? {
        return None;
      }
      var signature := VarBytes();
      if signature.None? {
        return None;
      }
      r := Some(AirdropProofs.Claim(key.value, version.value, address.value, fee.value, signature.value));
    }

    method RsaKey() returns (r: Option<Key>)
      requires Valid()
      modifies this
      ensures Reads(ReadRsaKey(old(Rest())), r)
    {
      var size := Uint(2);
      if size.None? { return None; }
      var n := Full(size.value);
      if n.None? { return None; }
      var expSize := Byte();
      if expSize.None? { return None; }
      var e := Full(expSize.value as nat);
      if e.None? { return None; }
      var nonce := Full(32);
      r := if nonce.None? then None else Some(Rsa(n.value, e.value, nonce.value));
    }

    method PointKey(size: nat, p256: bool) returns (r: Option<Key>)
      requires Valid()
      modifies this
      ensures Reads(ReadPointKey(old(Rest()), size, p256), r)
    {
      var point := Full(size);
      if point.None? { return None; }
      var nonce := Full(32);
      if nonce.None? { return None; }
      r := Some(if p256 then P256(point.value, nonce.value) else Ed25519(point.value, nonce.value));
    }

    method AddressKey() returns (r: Option<Key>)
      requires Valid()
      modifies this
      ensures Reads(ReadAddressKey(old(Rest())), r)
    {
      var version := Byte();
      if version.None? { return None; }
      var size := Byte();
      if size.None? { return None; }
      var address := Full(size.value as nat);
      if address.None? { return None; }
      var value := Uint(8);
      if value.None? { return None; }
      var sponsor := Byte();
      r := if sponsor.None? then None else Some(Address(version.value, address.value, value.value, sponsor.value == 1));
    }

    method KeyBody(keyType: byte) returns (r: Option<Key>)
      requires Valid()
      modifies this
      ensures Reads(ReadKeyBody(keyType, old(Rest())), r)
    {
      match keyType {
        case 0 => r := RsaKey();
        case 1 =>
          var c1 := Full(GOO_KEY_SIZE);
          r := if c1.None? then None else Some(Goo(c1.value));
        case 2 => r := PointKey(33, true);
        case 3 => r := PointKey(32, false);
        case 4 => r := AddressKey();
        case _ => r := None;
      }
    }

    method KeyToEnd(keyType: byte) returns (r: Option<Key>)
      requires Valid()
      modifies this
      ensures r == ToEnd(ReadKeyBody(keyType, old(Rest())))
    {
      r := KeyBody(keyType);
      if pos != |data| {
        r := None;
      }
    }

    method SkipBytes(n: nat) returns (r: Option<()>)
      requires Valid()
      modifies this
      ensures Reads(Skip(old(Rest()), n), r)
    {
      if n > |data| - pos {
        return None;
      }
      assert data[pos..][n..] == data[pos + n..];
      pos := pos + n;
      r := Some(());
    }

    method GbtPlace() returns (index: Option<nat>)
      requires Valid()
      modifies this
      ensures Reads(SkipPlace(old(Rest())), index)
    {
      index := Uint(4);
      if index.None? { return; }
      var proofCount := Byte();
      if proofCount.None? { return None; }
      var skipped := SkipBytes(proofCount.value as nat * 32);
      if skipped.None? { return None; }
      var subindex := Byte();
      if subindex.None? { return None; }
      var subProofCount := Byte();
      if subProofCount.None? { return None; }
      skipped := SkipBytes(subProofCount.value as nat * 32);
      if skipped.None? { return None; }
    }

    method GbtClaim() returns (key: Option<Bytes>)
      requires Valid()
      modifies this
      ensures Reads(SkipClaim(old(Rest())), key)
    {
      key := VarBytes();
      if key.None? { return; }
      var version := Byte();
      if version.None? { return None; }
      var addressSize := Byte();
      if addressSize.None? { return None; }
      var skipped := SkipBytes(addressSize.value as nat);
      if skipped.None? { return None; }
      var fee := VarInt();
      if fee.None? { return None; }
      var signature := VarBytes();
      if signature.None? { return None; }
    }
  }

  function Prepend(front: seq<Bytes>, p: Parsed<seq<Bytes>>): Parsed<seq<Bytes>>
  {
    match p
    case Fail => Fail
    case Ok(value, rest) => Ok(front + value, rest)
  }

  lemma PrependNone(p: Parsed<seq<Bytes>>)
    ensures Prepend([], p) == p
  {
    if p.Ok? {
      assert [] + p.value == p.value;
    }
  }

  lemma PrependOne(front: seq<Bytes>, h: Bytes, p: Parsed<seq<Bytes>>)
    ensures Prepend(front + [h], p) == Prepend(front, Prepend([h], p))
  {
    if p.Ok? {
      assert (front + [h]) + p.value == front + ([h] + p.value);
    }
  }

  /** The consensus parser. */
  method ParseAirdropProof(serialized: Bytes) returns (r: Option<Proof>)
    ensures r == ParseProof(serialized)
  {
    if |serialized| > MAX_AIRDROP_PROOF {
      return None;
    }
    var reader := new Reader(serialized);
    var place := reader.Place();
    if place.None? {
      return None;
    }
    var claim := reader.Claim();
    if claim.None? || reader.pos != |reader.data| {
      return None;
    }
    var p, c := place.value, claim.value;
    r := Some(Proof(p.index, p.proof, p.subindex, p.subproof, c.key, c.version, c.address, c.fee, c.signature,
                    |serialized|));
  }

  /** The key parser. */
  method ParseAirdropKey(serialized: Bytes) returns (r: Option<Key>)
    ensures r == ParseKey(serialized)
  {
    var reader := new Reader(serialized);
    var keyType := reader.Byte();
    if keyType.None? {
      return None;
    }
    r := reader.KeyToEnd(keyType.value);
  }

  /** The block template parser. */
  method ParseGbtAirdropProof(serialized: Bytes) returns (r: Option<ProofData>)
    ensures r == ParseGbtProof(serialized)
  {
    if |serialized| == 0 {
      return None;
    }
    var reader := new Reader(serialized);
    var index := reader.GbtPlace();
    if index.None? {
      return None;
    }
    var key := reader.GbtClaim();
    if key.None? || reader.pos != |reader.data| {
      return None;
    }
    var position := GbtPosition(index.value, key.value);
    if position.None? {
      return None;
    }
    r := Some(ProofData(position.value, (|serialized| + WITNESS_SCALE_FACTOR - 1) / WITNESS_SCALE_FACTOR,
                       KeyWeak(key.value)));
  }
}
