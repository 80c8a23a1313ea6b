/**
 * The byte-level formats the airdrop proofs are built from: little-endian
 * integers, canonical variable-length integers and length-prefixed bytes.
 */
module Wire {
  import opened Basics

  newtype byte = x: int | 0 <= x < 256

  type Bytes = seq<byte>

  /** A value read from the front of some bytes and the bytes that remain, or failure. */
  datatype Parsed<T> = Fail | Ok(value: T, rest: Bytes) {
    predicate IsFailure() { Fail? }
    function PropagateFailure<U>(): Parsed<U> requires Fail? { Fail }
    function Extract(): (T, Bytes) requires Ok? { (value, rest) }
  }

  /** The little-endian value of some bytes. */
  function LE(s: Bytes): (n: nat)
    ensures n < Pow256(|s|)
  {
    if |s| == 0 then 0 else s[0] as int + 256 * LE(s[1..])
  }

  /** The k lowest bytes of n, lowest first. */
  function ToLE(n: nat, k: nat): (s: Bytes)
    ensures |s| == k
  {
    if k == 0 then [] else [(n % 256) as byte] + ToLE(n / 256, k - 1)
  }

  lemma {:induction false} LEOfToLE(n: nat, k: nat)
    requires n < Pow256(k)
    ensures LE(ToLE(n, k)) == n
  {
    if k > 0 {
      LEOfToLE(n / 256, k - 1);
      assert ToLE(n, k)[1..] == ToLE(n / 256, k - 1);
    }
  }

  lemma {:induction false} ToLEOfLE(s: Bytes)
    ensures ToLE(LE(s), |s|) == s
  {
    if |s| > 0 {
      ToLEOfLE(s[1..]);
      assert LE(s) % 256 == s[0] as int && LE(s) / 256 == LE(s[1..]);
    }
  }

  // ---------- reading and writing ----------

  function ReadByte(s: Bytes): Parsed<byte>
  {
    if |s| == 0 then Fail else Ok(s[0], s[1..])
  }

  function ReadFull(s: Bytes, n: nat): Parsed<Bytes>
  {
    if |s| < n then Fail else Ok(s[..n], s[n..])
  }

  /** A little-endian integer of k bytes. */
  function ReadLE(s: Bytes, k: nat): Parsed<nat>
  {
    if |s| < k then Fail else Ok(LE(s[..k]), s[k..])
  }

  /** A variable-length integer; a longer form than necessary is rejected. */
  function ReadVarInt(s: Bytes): Parsed<nat>
  {
    var (discriminant, s1) :- ReadByte(s);
    if discriminant == 0xff then
      var (n, rest) :- ReadLE(s1, 8);
      if n < 0x1_0000_0000 then Fail else Ok(n, rest)
    else if discriminant == 0xfe then
      var (n, rest) :- ReadLE(s1, 4);
      if n < 0x1_0000 then Fail else Ok(n, rest)
    else if discriminant == 0xfd then
      var (n, rest) :- ReadLE(s1, 2);
      if n < 0xfd then Fail else Ok(n, rest)
    else Ok(discriminant as nat, s1)
  }

  function WriteVarInt(n: nat): Bytes
  {
    if n < 0xfd then [n as byte]
    else if n <= 0xffff then [0xfd] + ToLE(n, 2)
    else if n <= 0xffff_ffff then [0xfe] + ToLE(n, 4)
    else [0xff] + ToLE(n, 8)
  }


  lemma {:induction false} Powers()
    ensures Pow256(1) == 0x100 && Pow256(2) == 0x1_0000 && Pow256(4) == 0x1_0000_0000
            && Pow256(8) == 0x1_0000_0000_0000_0000
  {
    assert Pow256(2) == 256 * Pow256(1);
    assert Pow256(3) == 256 * Pow256(2);
    assert Pow256(4) == 256 * Pow256(3);
    assert Pow256(5) == 256 * Pow256(4);
    assert Pow256(6) == 256 * Pow256(5);
    assert Pow256(7) == 256 * Pow256(6);
    assert Pow256(8) == 256 * Pow256(7);
  }

  /** Reading what was written gives it back and leaves what follows. */
  lemma {:induction false} ReadWriteLE(n: nat, k: nat, rest: Bytes)
    requires n < Pow256(k)
    ensures ReadLE(ToLE(n, k) + rest, k) == Ok(n, rest)
  {
    LEOfToLE(n, k);
    assert (ToLE(n, k) + rest)[..k] == ToLE(n, k);
    assert (ToLE(n, k) + rest)[k..] == rest;
  }

  lemma {:induction false} WriteReadLE(s: Bytes, k: nat)
    requires ReadLE(s, k).Ok?
    ensures s == ToLE(ReadLE(s, k).value, k) + ReadLE(s, k).rest
    ensures ReadLE(s, k).value < Pow256(k)
  {
    ToLEOfLE(s[..k]);
    assert s == s[..k] + s[k..];
  }

  lemma {:induction false} Tagged(tag: byte, n: nat, k: nat, rest: Bytes)
    requires n < Pow256(k)
    ensures var s := [tag] + ToLE(n, k) + rest; s[0] == tag && ReadLE(s[1..], k) == Ok(n, rest)
  {
    var s := [tag] + ToLE(n, k) + rest;
    assert s[1..] == ToLE(n, k) + rest;
    ReadWriteLE(n, k, rest);
  }

  lemma {:induction false} ReadWriteVarInt(n: nat, rest: Bytes)
    requires n <= MAX_UINT64
    ensures ReadVarInt(WriteVarInt(n) + rest) == Ok(n, rest)
  {
    Powers();
    if n < 0xfd {
      assert (WriteVarInt(n) + rest)[1..] == rest;
    } else if n <= 0xffff {
      Tagged(0xfd, n, 2, rest);
    } else if n <= 0xffff_ffff {
      Tagged(0xfe, n, 4, rest);
    } else {
      Tagged(0xff, n, 8, rest);
    }
  }

  /** The encoding is canonical: whatever reads as n was written as n. */
  lemma {:induction false} WriteReadVarInt(s: Bytes)
    requires ReadVarInt(s).Ok?
    ensures s == WriteVarInt(ReadVarInt(s).value) + ReadVarInt(s).rest
    ensures ReadVarInt(s).value <= MAX_UINT64
  {
    Powers();
    assert s == [s[0]] + s[1..];
    if s[0] == 0xff {
      WriteReadLE(s[1..], 8);
    } else if s[0] == 0xfe {
      WriteReadLE(s[1..], 4);
    } else if s[0] == 0xfd {
      WriteReadLE(s[1..], 2);
    }
  }

  function ReadVarBytes(s: Bytes): Parsed<Bytes>
  {
    var (size, s1) :- ReadVarInt(s);
    if size > |s1| then Fail else ReadFull(s1, size)
  }

  function WriteVarBytes(data: Bytes): Bytes
  {
    WriteVarInt(|data|) + data
  }

  lemma {:induction false} ReadWriteVarBytes(data: Bytes, rest: Bytes)
    requires |data| <= MAX_UINT64
    ensures ReadVarBytes(WriteVarBytes(data) + rest) == Ok(data, rest)
  {
    assert WriteVarBytes(data) + rest == WriteVarInt(|data|) + (data + rest);
    ReadWriteVarInt(|data|, data + rest);
    assert (data + rest)[..|data|] == data && (data + rest)[|data|..] == rest;
  }

  lemma {:induction false} WriteReadVarBytes(s: Bytes)
    requires ReadVarBytes(s).Ok?
    ensures s == WriteVarBytes(ReadVarBytes(s).value) + ReadVarBytes(s).rest
    ensures |ReadVarBytes(s).value| <= MAX_UINT64
  {
    WriteReadVarInt(s);
    var size, s1 := ReadVarInt(s).value, ReadVarInt(s).rest;
    assert s1 == s1[..size] + s1[size..];
    Assoc(WriteVarInt(size), s1[..size], s1[size..]);
  }
}
