/**
 * Exactly what the block template's parser accepts: serialized proofs whose
 * counts and sizes are whatever their bytes can say.
 */
module GbtFormats {
  import opened Basics
  import opened Wire
  import opened AirdropProofs
  import opened AirdropKeys
  import opened GbtAirdrops
  import SkipHeight

  /** The ranges of a serialized proof when only the format is looked at. */
  ghost predicate Loose(p: Proof)
  {
    && p.index < 0x1_0000_0000
    && |p.proof| <= 255 && AllHashes(p.proof) && |p.subproof| <= 255 && AllHashes(p.subproof)
    && |p.key| <= MAX_UINT64 && |p.address| <= 255 && p.fee <= MAX_UINT64 && |p.signature| <= MAX_UINT64
  }

  // ---------- skipping is reading ----------

  function LoosePlace(s: Bytes): Parsed<Place>
  {
    var (index, s1) :- ReadLE(s, 4);
    var (proof, s2) :- ReadCounted(s1, 255);
    var (subindex, s3) :- ReadBelow(s2, 256);
    var (subproof, rest) :- ReadCounted(s3, 255);
    Ok(Place(index, proof, subindex, subproof), rest)
  }

  function LooseClaim(s: Bytes): Parsed<Claim>
  {
    var (key, s1) :- ReadVarBytes(s);
    var (version, s2) :- ReadBelow(s1, 256);
    var (address, s3) :- ReadShort(s2, 0, 255);
    var (fee, s4) :- ReadVarInt(s3);
    var (signature, rest) :- ReadVarBytes(s4);
    Ok(Claim(key, version, address, fee, signature), rest)
  }

  lemma {:induction false} ReadsIfLong(s: Bytes, count: nat)
    ensures ReadHashes(s, count).Ok? <==> |s| >= count * 32
  {
    if count > 0 && |s| >= 32 {
      ReadsIfLong(s[32..], count - 1);
    }
  }

  lemma SkipsCounted(s: Bytes)
    requires |s| > 0
    ensures ReadCounted(s, 255).Ok? <==> Skip(s[1..], s[0] as nat * 32).Ok?
    ensures ReadCounted(s, 255).Ok? ==> Skip(s[1..], s[0] as nat * 32) == Ok((), ReadCounted(s, 255).rest)
  {
    ReadsIfLong(s[1..], s[0] as nat);
    if ReadCounted(s, 255).Ok? {
      SkipIsRead(s[1..], s[0] as nat);
    }
  }

  lemma SkipsPlace(s: Bytes)
    ensures SkipPlace(s).Ok? <==> LoosePlace(s).Ok?
    ensures SkipPlace(s).Ok? ==> SkipPlace(s) == Ok(LoosePlace(s).value.index, LoosePlace(s).rest)
  {
    if |s| > 4 {
      var s1 := ReadLE(s, 4).rest;
      SkipsCounted(s1);
      if ReadCounted(s1, 255).Ok? {
        var s2 := ReadCounted(s1, 255).rest;
        if |s2| > 1 {
          SkipsCounted(s2[1..]);
        }
      }
    }
  }

  lemma SkipsClaim(s: Bytes)
    ensures SkipClaim(s).Ok? <==> LooseClaim(s).Ok?
    ensures SkipClaim(s).Ok? ==> SkipClaim(s) == Ok(LooseClaim(s).value.key, LooseClaim(s).rest)
  {
  }

  // ---------- the format ----------

  lemma ReadWriteLoosePlace(p: Proof, rest: Bytes)
    requires Loose(p)
    ensures LoosePlace(WritePlace(p) + rest) == Ok(Place(p.index, p.proof, p.subindex, p.subproof), rest)
  {
    Powers();
    var d := WriteCounted(p.subproof) + rest;
    var c := [p.subindex] + d;
    var b := WriteCounted(p.proof) + c;
    Chain4(ToLE(p.index, 4) + b, ToLE(p.index, 4), b, WriteCounted(p.proof), c, [p.subindex], d,
           WriteCounted(p.subproof), rest);
    ReadWriteLE(p.index, 4, b);
    ReadWriteCounted(p.proof, 255, c);
    ReadWriteBelow(p.subindex, 256, d);
    ReadWriteCounted(p.subproof, 255, rest);
  }

  lemma ReadWriteLooseClaim(p: Proof, rest: Bytes)
    requires Loose(p)
    ensures LooseClaim(WriteSignedClaim(p) + WriteVarBytes(p.signature) + rest)
         == Ok(Claim(p.key, p.version, p.address, p.fee, p.signature), rest)
  {
    var e := WriteVarBytes(p.signature) + rest;
    var d := WriteVarInt(p.fee) + e;
    var c := WriteShort(p.address) + d;
    var b := [p.version] + c;
    Assoc(WriteSignedClaim(p), WriteVarBytes(p.signature), rest);
    Chain4(WriteVarBytes(p.key) + b, WriteVarBytes(p.key), b, [p.version], c, WriteShort(p.address), d,
           WriteVarInt(p.fee), e);
    ReadWriteVarBytes(p.key, b);
    ReadWriteBelow(p.version, 256, c);
    ReadWriteShort(p.address, 0, 255, d);
    ReadWriteVarInt(p.fee, e);
    ReadWriteVarBytes(p.signature, rest);
  }

  lemma WriteReadLoosePlace(s: Bytes, p: Proof)
    requires LoosePlace(s).Ok? && LoosePlace(s).value == Place(p.index, p.proof, p.subindex, p.subproof)
    ensures s == WritePlace(p) + LoosePlace(s).rest
    ensures p.index < 0x1_0000_0000
    ensures |p.proof| <= 255 && AllHashes(p.proof) && |p.subproof| <= 255 && AllHashes(p.subproof)
  {
    Powers();
    WriteReadLE(s, 4);
    var s1 := ReadLE(s, 4).rest;
    WriteReadCounted(s1, 255);
    var s2 := ReadCounted(s1, 255).rest;
    WriteReadBelow(s2, 256);
    var s3 := ReadBelow(s2, 256).rest;
    WriteReadCounted(s3, 255);
    var rest := ReadCounted(s3, 255).rest;
    Chain4(s, ToLE(p.index, 4), s1, WriteCounted(p.proof), s2, [p.subindex], s3, WriteCounted(p.subproof), rest);
  }

  lemma WriteReadLooseClaim(s: Bytes, p: Proof)
    requires LooseClaim(s).Ok? && LooseClaim(s).value == Claim(p.key, p.version, p.address, p.fee, p.signature)
    ensures s == WriteSignedClaim(p) + WriteVarBytes(p.signature) + LooseClaim(s).rest
    ensures |p.key| <= MAX_UINT64 && |p.address| <= 255 && p.fee <= MAX_UINT64 && |p.signature| <= MAX_UINT64
  {
    WriteReadVarBytes(s);
    var s1 := ReadVarBytes(s).rest;
    WriteReadBelow(s1, 256);
    var s2 := ReadBelow(s1, 256).rest;
    WriteReadShort(s2, 0, 255);
    var s3 := ReadShort(s2, 0, 255).rest;
    WriteReadVarInt(s3);
    var s4 := ReadVarInt(s3).rest;
    WriteReadVarBytes(s4);
    var rest := ReadVarBytes(s4).rest;
    Chain4(s, WriteVarBytes(p.key), s1, [p.version], s2, WriteShort(p.address), s3, WriteVarInt(p.fee), s4);
    Assoc(WriteSignedClaim(p), WriteVarBytes(p.signature), rest);
  }

  // ---------- what is reported ----------

  /** The leaf: the faucet's come after the airdrop's. */
  predicate ReportsPosition(index: nat, key: Bytes, position: nat)
  {
    if |key| > 0 && key[0] == 4 then index < 1358 && position == 216199 + index
    else index < 216199 && position == index
  }

  /** A quarter of the size, rounded up. */
  predicate ReportsSize(size: nat, virtualSize: nat)
  {
    size <= 4 * virtualSize < size + 4
  }

  /** A weak key is an RSA key that holds the whole of a modulus below 2^2040. */
  predicate ReportsWeak(key: Bytes, weak: bool)
  {
    weak <==> && |key| >= 3 && key[0] == 0 && |key| >= 3 + LE(key[1..3])
              && BigEndian(key[3..3 + LE(key[1..3])]) < SkipHeight.Pow2(2040)
  }

  ghost predicate Reports(p: Proof, size: nat, d: ProofData)
  {
    ReportsPosition(p.index, p.key, d.position) && ReportsSize(size, d.virtualSize) && ReportsWeak(p.key, d.weak)
  }

  /** The serialized form of a proof whose numbers fit their fields, and what is reported of it. */
  ghost predicate IsFormOf(s: Bytes, p: Proof, d: ProofData)
  {
    Loose(p) && s == WriteProof(p) && Reports(p, |s|, d)
  }

  lemma ReportedExactly(index: nat, key: Bytes, size: nat, p: Proof, d: ProofData)
    requires p.index == index && p.key == key
    ensures Reports(p, size, d) <==>
      && GbtPosition(index, key).Some?
      && d == ProofData(GbtPosition(index, key).value, (size + 3) / 4, KeyWeak(key))
  {
    if |key| >= 3 && |key| >= 3 + LE(key[1..3]) {
      BitLenIs(BigEndian(key[3..3 + LE(key[1..3])]), 2040);
    }
  }

  /** The parser's stages. */
  lemma Stages(s: Bytes, index: nat, s1: Bytes, key: Bytes, d: ProofData)
    requires |s| > 0 && SkipPlace(s) == Ok(index, s1) && SkipClaim(s1) == Ok(key, [])
    ensures ParseGbtProof(s) == Some(d) <==>
      GbtPosition(index, key).Some? && d == ProofData(GbtPosition(index, key).value, (|s| + 3) / 4, KeyWeak(key))
  {
  }

  lemma StagesReport(s: Bytes, s1: Bytes, p: Proof, d: ProofData)
    requires |s| > 0 && SkipPlace(s) == Ok(p.index, s1) && SkipClaim(s1) == Ok(p.key, [])
    ensures ParseGbtProof(s) == Some(d) <==> Reports(p, |s|, d)
  {
    Stages(s, p.index, s1, p.key, d);
    ReportedExactly(p.index, p.key, |s|, p, d);
  }

  lemma Parsed(s: Bytes)
    requires ParseGbtProof(s).Some?
    ensures |s| > 0 && SkipPlace(s).Ok? && SkipClaim(SkipPlace(s).rest).Ok? && SkipClaim(SkipPlace(s).rest).rest == []
  {
  }

  lemma SkipsWritten(p: Proof, claim: Bytes)
    requires Loose(p) && claim == WriteSignedClaim(p) + WriteVarBytes(p.signature)
    ensures SkipPlace(WritePlace(p) + claim) == Ok(p.index, claim) && SkipClaim(claim) == Ok(p.key, [])
  {
    ReadWriteLoosePlace(p, claim);
    SkipsPlace(WritePlace(p) + claim);
    ReadWriteLooseClaim(p, []);
    assert claim + [] == claim;
    SkipsClaim(claim);
  }

  lemma FormParses(s: Bytes, p: Proof, d: ProofData)
    requires IsFormOf(s, p, d)
    ensures ParseGbtProof(s) == Some(d)
  {
    var claim := WriteSignedClaim(p) + WriteVarBytes(p.signature);
    SkipsWritten(p, claim);
    StagesReport(s, claim, p, d);
  }

  /** What was skipped over was the serialized form of a proof. */
  lemma Skipped(s: Bytes, s1: Bytes) returns (p: Proof)
    requires SkipPlace(s).Ok? && s1 == SkipPlace(s).rest && SkipClaim(s1).Ok? && SkipClaim(s1).rest == []
    ensures Loose(p) && s == WriteProof(p) && SkipPlace(s) == Ok(p.index, s1) && SkipClaim(s1) == Ok(p.key, [])
  {
    SkipsPlace(s);
    SkipsClaim(s1);
    var place, claim := LoosePlace(s).value, LooseClaim(s1).value;
    p := Proof(place.index, place.proof, place.subindex, place.subproof,
               claim.key, claim.version, claim.address, claim.fee, claim.signature, |s|);
    WriteReadLoosePlace(s, p);
    WriteReadLooseClaim(s1, p);
    assert s1 == WriteSignedClaim(p) + WriteVarBytes(p.signature) + [];
  }

  lemma ParsedIsForm(s: Bytes, d: ProofData) returns (p: Proof)
    requires ParseGbtProof(s) == Some(d)
    ensures IsFormOf(s, p, d)
  {
    Parsed(s);
    var s1 := SkipPlace(s).rest;
    p := Skipped(s, s1);
    StagesReport(s, s1, p, d);
  }

  /** The template's parser accepts exactly the serialized proofs whose numbers fit their fields and whose leaf exists,
      with nothing after them, and reports their position, virtual size and weakness. */
  lemma GbtExactly(s: Bytes, d: ProofData)
    ensures ParseGbtProof(s) == Some(d) <==> exists p :: IsFormOf(s, p, d)
  {
    if ParseGbtProof(s) == Some(d) {
      var p := ParsedIsForm(s, d);
    }
    if p :| IsFormOf(s, p, d) {
      FormParses(s, p, d);
    }
  }
}
