/** Targets in compact form: sign, base-256 exponent and 23 bits of mantissa, and the work they stand for. */
module CompactTargets {
  import opened Basics
  import opened BlockNodes

  /** The number of bytes of a number without leading zeros. */
  function ByteLen(n: nat): nat
  {
    if n == 0 then 0 else 1 + ByteLen(n / 256)
  }

  /** A number shifted right by k bytes. */
  function ShiftRight(n: nat, k: nat): nat
    decreases k
  {
    if k == 0 then n else ShiftRight(n / 256, k - 1)
  }

  function Abs(n: int): nat
  {
    if n < 0 then -n else n
  }

  /** The first three bytes of a number, zeros added if it has fewer. */
  function FirstBytes(n: nat): nat
  {
    var length := ByteLen(n);
    if length >= 3 then ShiftRight(n, length - 3) else if length == 2 then n * 0x100 else n * 0x1_0000
  }

  function ExponentOf(n: nat): nat
  {
    if FirstBytes(n) / 0x80_0000 % 2 == 1 then ByteLen(n) + 1 else ByteLen(n)
  }

  /** One byte less if the bit for the sign is taken. */
  function MantissaOf(n: nat): nat
  {
    if FirstBytes(n) / 0x80_0000 % 2 == 1 then FirstBytes(n) / 256 else FirstBytes(n)
  }

  /** An exponent of more than eight bits loses the higher ones. */
  function Pack(exponent: nat, mantissa: nat, negative: bool): nat
  {
    exponent % 0x100 * 0x100_0000 + (if negative then 0x80_0000 else 0) + mantissa
  }

  function BigToCompact(n: int): nat
  {
    if n == 0 then 0 else Pack(ExponentOf(Abs(n)), MantissaOf(Abs(n)), n < 0)
  }

  // ---------- shifts ----------

  lemma Regroup(m: nat, p: nat)
    ensures m * (256 * p) == 256 * (m * p)
  {
  }

  lemma Carry(m: nat, p: nat)
    ensures m * (256 * p) == (256 * m) * p
  {
  }

  lemma Grows(a: nat, b: nat, p: nat)
    requires a <= b
    ensures a * p <= b * p
  {
  }

  lemma {:induction false} ShiftRightIs(n: nat, k: nat)
    ensures ShiftRight(n, k) * Pow256(k) <= n < (ShiftRight(n, k) + 1) * Pow256(k)
    decreases k
  {
    if k > 0 {
      ShiftRightIs(n / 256, k - 1);
      Regroup(ShiftRight(n, k), Pow256(k - 1));
      Regroup(ShiftRight(n, k) + 1, Pow256(k - 1));
    }
  }

  lemma {:induction false} ShiftRightMore(n: nat, k: nat)
    ensures ShiftRight(n, k + 1) == ShiftRight(n, k) / 256
    decreases k
  {
    if k > 0 {
      ShiftRightMore(n / 256, k - 1);
    }
  }

  lemma {:induction false} ShiftRightLen(n: nat, k: nat)
    requires k <= ByteLen(n)
    ensures ByteLen(ShiftRight(n, k)) == ByteLen(n) - k
    decreases k
  {
    if k > 0 {
      ShiftRightLen(n / 256, k - 1);
    }
  }

  /** Shifted left by k bytes, a number has k bytes more, and shifting it right gives it back. */
  lemma {:induction false} ShiftLeft(m: nat, k: nat)
    requires m > 0
    ensures m * Pow256(k) > 0 && ByteLen(m * Pow256(k)) == ByteLen(m) + k && ShiftRight(m * Pow256(k), k) == m
  {
    if k > 0 {
      ShiftLeft(m, k - 1);
      Regroup(m, Pow256(k - 1));
      Times256(m * Pow256(k - 1));
    }
  }

  lemma Times256(x: nat)
    ensures 256 * x / 256 == x
  {
  }

  lemma ShortLen(n: nat)
    ensures ByteLen(n) == 0 <==> n == 0
    ensures ByteLen(n) == 1 <==> 0 < n < 0x100
    ensures ByteLen(n) == 2 <==> 0x100 <= n < 0x1_0000
    ensures ByteLen(n) == 3 <==> 0x1_0000 <= n < 0x100_0000
  {
    if n > 0 {
      var a := n / 256;
      assert ByteLen(n) == 1 + ByteLen(a);
      if a > 0 {
        var b := a / 256;
        assert ByteLen(a) == 1 + ByteLen(b);
        if b > 0 {
          assert ByteLen(b) == 1 + ByteLen(b / 256);
        }
      }
    }
  }

  lemma SmallPowers()
    ensures Pow256(0) == 1 && Pow256(1) == 0x100 && Pow256(2) == 0x1_0000
  {
    assert Pow256(2) == 256 * Pow256(1);
  }

  // ---------- what a compact form stands for ----------

  lemma Unpack(exponent: nat, mantissa: nat, negative: bool)
    requires exponent < 0x100 && mantissa < 0x80_0000
    ensures var c := Pack(exponent, mantissa, negative);
      && c / 0x100_0000 == exponent && c % 0x80_0000 == mantissa && c < 0x1_0000_0000
      && (c / 0x80_0000 % 2 == 1 <==> negative)
  {
  }

  function Magnitude(exponent: nat, mantissa: nat): nat
  {
    if exponent == 0 then mantissa / 0x100_0000 else if exponent == 1 then mantissa / 0x1_0000
    else if exponent == 2 then mantissa / 0x100 else mantissa * Pow256(exponent - 3)
  }

  /** The sign, and the mantissa times 256 to the power of the exponent less three, rounded towards zero. */
  lemma CompactIs(exponent: nat, mantissa: nat, negative: bool)
    requires exponent < 0x100 && mantissa < 0x80_0000
    ensures !negative ==> CompactToBig(Pack(exponent, mantissa, negative)) == Magnitude(exponent, mantissa)
    ensures negative ==> CompactToBig(Pack(exponent, mantissa, negative)) == 0 - Magnitude(exponent, mantissa)
  {
    Unpack(exponent, mantissa, negative);
    SmallPowers();
    assert Pow256(3) == 256 * Pow256(2);
  }

  /** The least difference of two numbers with that exponent. */
  function Unit(exponent: nat): nat
  {
    if exponent <= 3 then 1 else Pow256(exponent - 3)
  }

  /** Sixteen bits of mantissa at least, and none of them for a part of a unit. */
  predicate Full(exponent: nat, mantissa: nat)
  {
    && exponent >= 1 && 0x8000 <= mantissa < 0x80_0000
    && (exponent == 1 ==> mantissa % 0x1_0000 == 0) && (exponent == 2 ==> mantissa % 0x100 == 0)
  }

  /** The bit for the sign is the highest of three bytes. */
  lemma TopBit(x: nat)
    requires x < 0x100_0000
    ensures x / 0x80_0000 % 2 == 1 <==> x >= 0x80_0000
  {
  }

  lemma SplitBy(n: nat, x: nat, length: nat)
    requires x == FirstBytes(n) < 0x100_0000 && length == ByteLen(n)
    ensures x < 0x80_0000 ==> ExponentOf(n) == length && MantissaOf(n) == x
    ensures x >= 0x80_0000 ==> ExponentOf(n) == length + 1 && MantissaOf(n) == x / 256
  {
    TopBit(x);
  }

  lemma ShortNormal(n: nat)
    requires 0 < n < 0x1_0000
    ensures Full(ExponentOf(n), MantissaOf(n)) && ExponentOf(n) <= 3
    ensures Magnitude(ExponentOf(n), MantissaOf(n)) == n
  {
    ShortLen(n);
    SplitBy(n, FirstBytes(n), ByteLen(n));
    SmallPowers();
  }

  lemma LongNormal(n: nat)
    requires ByteLen(n) >= 3
    ensures var e, m := ExponentOf(n), MantissaOf(n);
      Full(e, m) && e >= 3 && m == ShiftRight(n, e - 3) && Magnitude(e, m) == m * Pow256(e - 3)
  {
    var k := ByteLen(n) - 3;
    ShiftRightLen(n, k);
    ShortLen(ShiftRight(n, k));
    ShiftRightMore(n, k);
    SplitBy(n, FirstBytes(n), ByteLen(n));
  }

  /** A number loses only what is below the unit of its exponent. */
  lemma Normal(n: nat)
    requires n > 0
    ensures var e, m := ExponentOf(n), MantissaOf(n);
      && Full(e, m) && e <= ByteLen(n) + 1
      && Magnitude(e, m) <= n < Magnitude(e, m) + Unit(e) && (e > 3 ==> 0x8000 * Unit(e) <= n)
  {
    ShortLen(n);
    if ByteLen(n) >= 3 {
      var e, m := ExponentOf(n), MantissaOf(n);
      LongNormal(n);
      ShiftRightIs(n, e - 3);
      Grows(0x8000, m, Pow256(e - 3));
      Next(m, Pow256(e - 3));
    } else {
      ShortNormal(n);
    }
  }

  lemma Next(m: nat, p: nat)
    ensures (m + 1) * p == m * p + p
  {
  }

  /** The compact form keeps the sign and the leading digits of a number whose exponent has eight bits: what it stands
      for is the number rounded towards zero by less than a unit, of which the number holds at least 2^15. */
  lemma RoundsTowardsZero(n: int)
    requires n != 0 && ExponentOf(Abs(n)) < 0x100
    ensures var c := BigToCompact(n); var unit := Unit(c / 0x100_0000);
      && c < 0x1_0000_0000
      && (n > 0 ==> 0 <= CompactToBig(c) <= n < CompactToBig(c) + unit)
      && (n < 0 ==> CompactToBig(c) - unit < n <= CompactToBig(c) <= 0)
      && (unit > 1 ==> 0x8000 * unit <= Abs(n))
  {
    var e, m := ExponentOf(Abs(n)), MantissaOf(Abs(n));
    Normal(Abs(n));
    Unpack(e, m, n < 0);
    CompactIs(e, m, n < 0);
  }

  /** Zero, or a full mantissa. */
  predicate Canonical(c: nat)
  {
    c == 0 || Full(c / 0x100_0000, c % 0x80_0000)
  }

  lemma NormalOf(e: nat, m: nat)
    requires Full(e, m)
    ensures var n := Magnitude(e, m); n > 0 && ExponentOf(n) == e && MantissaOf(n) == m
  {
    var n := Magnitude(e, m);
    ShortLen(n);
    if e < 3 {
      SplitBy(n, FirstBytes(n), ByteLen(n));
    } else if m >= 0x1_0000 {
      ShortLen(m);
      ShiftLeft(m, e - 3);
      SplitBy(n, m, e);
    } else {
      NormalOfTwo(e, m);
    }
  }

  lemma NormalOfTwo(e: nat, m: nat)
    requires e >= 3 && 0x8000 <= m < 0x1_0000
    ensures var n := Magnitude(e, m); n > 0 && ExponentOf(n) == e && MantissaOf(n) == m
  {
    var n, x := Magnitude(e, m), 256 * m;
    ShortLen(m);
    ShortLen(x);
    if e == 3 {
      SmallPowers();
    } else {
      Carry(m, Pow256(e - 4));
      ShiftLeft(x, e - 4);
    }
    SplitBy(n, x, e - 1);
  }

  /** Packing what a compact form stands for gives the form back exactly if it is the canonical one. */
  lemma CompactRoundTrip(c: nat)
    requires c < 0x1_0000_0000
    ensures BigToCompact(CompactToBig(c)) == c <==> Canonical(c)
  {
    var e, m, negative := c / 0x100_0000, c % 0x80_0000, c / 0x80_0000 % 2 == 1;
    Repack(c);
    CompactIs(e, m, negative);
    if c == 0 {
      assert Magnitude(0, 0) == 0;
    } else if Canonical(c) {
      NormalOf(e, m);
    } else {
      ValueLen(e, m);
      NotPacked(c, CompactToBig(c));
    }
  }

  lemma Repack(c: nat)
    requires c < 0x1_0000_0000
    ensures c == Pack(c / 0x100_0000, c % 0x80_0000, c / 0x80_0000 % 2 == 1)
  {
  }

  /** No compact form stands for a number of more than 255 bytes. */
  lemma ValueLen(e: nat, m: nat)
    requires e < 0x100 && m < 0x80_0000
    ensures Magnitude(e, m) > 0 ==> ExponentOf(Magnitude(e, m)) < 0x100
  {
    ShortLen(m);
    if e < 3 {
      ShortLen(Magnitude(e, m));
    } else if m > 0 {
      ShiftLeft(m, e - 3);
      if ByteLen(m) == 3 {
        LongNormal(Magnitude(e, m));
      }
    }
  }

  /** Whatever is packed without losing a bit of the exponent is canonical. */
  lemma NotPacked(c: nat, n: int)
    requires !Canonical(c) && (n != 0 ==> ExponentOf(Abs(n)) < 0x100)
    ensures BigToCompact(n) != c
  {
    if n != 0 {
      Normal(Abs(n));
      Unpack(ExponentOf(Abs(n)), MantissaOf(Abs(n)), n < 0);
    }
  }

  // ---------- work ----------

  /** The work of a target is how often 2^256 holds the target plus one. */
  lemma WorkIs(target: int)
    requires target > 0
    ensures WorkOf(target) * (target + 1) <= ONE_LSH_256 < (WorkOf(target) + 1) * (target + 1)
  {
    var d := target + 1;
    assert ONE_LSH_256 == ONE_LSH_256 / d * d + ONE_LSH_256 % d;
    Next(ONE_LSH_256 / d, d);
  }

  /** A smaller target is never less work. */
  lemma HarderIsMore(a: int, b: int)
    requires 0 < a <= b
    ensures WorkOf(a) >= WorkOf(b)
  {
    WorkIs(a);
    WorkIs(b);
    Larger(WorkOf(a), WorkOf(b), a + 1, b + 1);
  }

  lemma Larger(x: nat, y: nat, a: nat, b: nat)
    requires 0 < a <= b && y * b < (x + 1) * a
    ensures x >= y
  {
    if x < y {
      Grows(x + 1, y, b);
      Grows(a, b, x + 1);
    }
  }
}
