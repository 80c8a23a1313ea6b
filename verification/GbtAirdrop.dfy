/**
 * The parser of airdrop proofs behind block templates.  It is written apart
 * from the consensus parser and checks far less, but on every proof that
 * consensus accepts it reports the same thing.
 */
module GbtAirdrops {
  import opened Basics
  import opened Wire
  import opened AirdropProofs

  const GBT_AIRDROP_LEAVES := 216199
  const GBT_FAUCET_LEAVES := 1358
  const GBT_KEY_RSA: byte := 0
  const GBT_KEY_ADDRESS: byte := 4
  const GBT_STRONG_RSA_KEY_BITS := 2041
  const WITNESS_SCALE_FACTOR := 4

  datatype ProofData = ProofData(position: nat, virtualSize: nat, weak: bool)

  function Skip(s: Bytes, n: nat): Parsed<()>
  {
    if n > |s| then Fail else Ok((), s[n..])
  }

  /** Everything up to the key: the index, and two hash lists that are skipped over. */
  function SkipPlace(s: Bytes): Parsed<nat>
  {
    var (index, s1) :- ReadLE(s, 4);
    var (proofCount, s2) :- ReadByte(s1);
    var (_, s3) :- Skip(s2, proofCount as nat * 32);
    var (_, s4) :- ReadByte(s3);
    var (subProofCount, s5) :- ReadByte(s4);
    var (_, rest) :- Skip(s5, subProofCount as nat * 32);
    Ok(index, rest)
  }

  /** The key, and then version, address, fee and signature without looking at them. */
  function SkipClaim(s: Bytes): Parsed<Bytes>
  {
    var (key, s1) :- ReadVarBytes(s);
    var (_, s2) :- ReadByte(s1);
    var (addressSize, s3) :- ReadByte(s2);
    var (_, s4) :- Skip(s3, addressSize as nat);
    var (_, s5) :- ReadVarInt(s4);
    var (_, rest) :- ReadVarBytes(s5);
    Ok(key, rest)
  }

  function GbtPosition(index: nat, key: Bytes): Option<nat>
  {
    if |key| > 0 && key[0] == GBT_KEY_ADDRESS then
      if index >= GBT_FAUCET_LEAVES then None else Some(index + GBT_AIRDROP_LEAVES)
    else if index >= GBT_AIRDROP_LEAVES then None
    else Some(index)
  }

  predicate KeyWeak(key: Bytes)
  {
    && |key| >= 3 && key[0] == GBT_KEY_RSA
    && |key| >= 3 + LE(key[1..3])
    && BitLen(BigEndian(key[3..3 + LE(key[1..3])])) < GBT_STRONG_RSA_KEY_BITS
  }

  function ParseGbtProof(s: Bytes): Option<ProofData>
  {
    if |s| == 0 then None
    else
      match SkipPlace(s)
      case Fail => None
      case Ok(index, s1) =>
        match SkipClaim(s1)
        case Fail => None
        case Ok(key, rest) =>
          if |rest| != 0 then None
          else
            match GbtPosition(index, key)
            case None => None
            case Some(position) =>
              Some(ProofData(position, (|s| + WITNESS_SCALE_FACTOR - 1) / WITNESS_SCALE_FACTOR, KeyWeak(key)))
  }

  // ---------- agreement ----------

  /** Skipping over a hash list ends where reading it ends. */
  lemma {:induction false} SkipIsRead(s: Bytes, count: nat)
    requires ReadHashes(s, count).Ok?
    ensures Skip(s, count * 32) == Ok((), ReadHashes(s, count).rest)
  {
    if count > 0 {
      SkipIsRead(s[32..], count - 1);
      assert s[32..][(count - 1) * 32..] == s[count * 32..];
    }
  }

  lemma {:induction false} PlaceAgrees(s: Bytes)
    requires ParsePlace(s).Ok?
    ensures SkipPlace(s) == Ok(ParsePlace(s).value.index, ParsePlace(s).rest)
  {
    var s1 := ReadLE(s, 4).rest;
    SkipIsRead(s1[1..], s1[0] as nat);
    var s2 := ReadCounted(s1, AIRDROP_DEPTH).rest;
    var s3 := s2[1..];
    SkipIsRead(s3[1..], s3[0] as nat);
  }

  lemma {:induction false} ClaimAgrees(s: Bytes)
    requires ParseClaim(s).Ok?
    ensures SkipClaim(s) == Ok(ParseClaim(s).value.key, ParseClaim(s).rest)
  {
  }

  lemma {:induction false} WeakAgrees(s: Bytes)
    requires ParseKey(s).Some?
    ensures KeyWeak(s) == IsWeak(ParseKey(s).value)
  {
    if s[0] == KEY_RSA {
      var t := s[1..];
      var size := LE(t[..2]);
      assert s[1..3] == t[..2];
      assert s[3..3 + size] == t[2..][..size];
    }
  }

  /**
   * On every byte string that consensus decodes, the template parser succeeds and reports the same position and the
   * same weakness.
   */
  lemma {:induction false} GbtAgreesWithConsensus(s: Bytes)
    requires DecodeMetadata(s).Some?
    ensures ParseGbtProof(s).Some?
    ensures ParseGbtProof(s).value.position == DecodeMetadata(s).value.position
    ensures ParseGbtProof(s).value.weak == DecodeMetadata(s).value.weak
  {
    var p := ParseProof(s).value;
    PlaceAgrees(s);
    ClaimAgrees(ParsePlace(s).rest);
    WeakAgrees(p.key);
  }
}
