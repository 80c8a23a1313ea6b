/**
 * The height arithmetic behind the block index skip list: which earlier height
 * a node's ancestor link refers to, and how many loop iterations a walk to
 * an arbitrary earlier height takes when it follows those links.
 */
module SkipHeight {

  /** Bitwise AND of two non-negative integers, bit by bit from the bottom. */
  function And(a: nat, b: nat): nat
  {
    if a == 0 || b == 0 then 0
    else 2 * And(a / 2, b / 2) + (if a % 2 == 1 && b % 2 == 1 then 1 else 0)
  }

  /** `n & (n - 1)`; heights are never negative, and `0 & -1` is 0. */
  function InvertLowestOne(n: nat): nat
  {
    if n == 0 then 0 else And(n, n - 1)
  }

  /** The height the ancestor link of a node at `height` refers to. */
  function AncestorHeight(height: nat): nat
  {
    InvertLowestOne(InvertLowestOne(height))
  }

  function Pow2(k: nat): (p: nat)
    ensures p >= 1
  {
    if k == 0 then 1 else 2 * Pow2(k - 1)
  }

  // ---------- what clearing the lowest one does ----------

  lemma {:induction false} AndSelf(n: nat)
    ensures And(n, n) == n
  {
    if n > 0 {
      AndSelf(n / 2);
    }
  }

  /** Bit-level reading of `n & (n - 1)`: an odd number loses its last bit, an even one keeps its zero and recurses. */
  lemma {:induction false} InvertUnfold(n: nat)
    requires n > 0
    ensures n % 2 == 1 ==> InvertLowestOne(n) == n - 1
    ensures n % 2 == 0 ==> InvertLowestOne(n) == 2 * InvertLowestOne(n / 2)
  {
    if n % 2 == 1 {
      if n > 1 {
        assert (n - 1) / 2 == n / 2;
        AndSelf(n / 2);
      }
    } else {
      assert (n - 1) / 2 == n / 2 - 1;
    }
  }

  lemma {:induction false} InvertDecreases(n: nat)
    requires n > 0
    ensures InvertLowestOne(n) < n
  {
    InvertUnfold(n);
    if n % 2 == 0 {
      InvertDecreases(n / 2);
    }
  }

  lemma {:induction false} AncestorHeightDecreases(h: nat)
    requires h > 0
    ensures AncestorHeight(h) < h
  {
    InvertDecreases(h);
    if InvertLowestOne(h) > 0 {
      InvertDecreases(InvertLowestOne(h));
    }
  }

  /** The k lowest bits of b are zero. */
  predicate Aligned(b: nat, k: nat)
  {
    k == 0 || (b % 2 == 0 && Aligned(b / 2, k - 1))
  }

  /** Ones at or above bit k are untouched while a one remains below it. */
  lemma {:induction false} InvertBelow(k: nat, b: nat, x: nat)
    requires Aligned(b, k) && 0 < x < Pow2(k)
    ensures InvertLowestOne(b + x) == b + InvertLowestOne(x)
  {
    InvertUnfold(b + x);
    InvertUnfold(x);
    if x % 2 == 0 {
      InvertBelow(k - 1, b / 2, x / 2);
      assert (b + x) / 2 == b / 2 + x / 2;
    }
  }

  lemma {:induction false} InvertBit(k: nat, b: nat)
    requires Aligned(b, k + 1)
    ensures InvertLowestOne(b + Pow2(k)) == b
  {
    InvertUnfold(b + Pow2(k));
    if k > 0 {
      assert (b + Pow2(k)) / 2 == b / 2 + Pow2(k - 1);
      InvertBit(k - 1, b / 2);
    }
  }

  lemma {:induction false} AlignedZero(k: nat)
    ensures Aligned(0, k)
  {
    if k > 0 {
      AlignedZero(k - 1);
    }
  }

  lemma {:induction false} AlignedWeaken(b: nat, k: nat, j: nat)
    requires Aligned(b, k) && j <= k
    ensures Aligned(b, j)
  {
    if j > 0 {
      AlignedWeaken(b / 2, k - 1, j - 1);
    }
  }

  lemma {:induction false} AlignedAddBit(b: nat, k: nat)
    requires Aligned(b, k)
    ensures Aligned(b + Pow2(k), k)
  {
    if k > 0 {
      AlignedAddBit(b / 2, k - 1);
      assert (b + Pow2(k)) / 2 == b / 2 + Pow2(k - 1);
    }
  }

  lemma {:induction false} FloorAligned(b: nat, m: nat)
    requires Aligned(b, m + 1)
    ensures Aligned(b, m) && Aligned(b + Pow2(m), m)
  {
    AlignedWeaken(b, m + 1, m);
    AlignedAddBit(b, m);
  }

  lemma {:induction false} Pow2Monotone(i: nat, j: nat)
    requires i <= j
    ensures Pow2(i) <= Pow2(j)
  {
    if i < j {
      Pow2Monotone(i, j - 1);
    }
  }

  // ---------- counting ones ----------

  function Ones(n: nat): nat
  {
    if n == 0 then 0 else n % 2 + Ones(n / 2)
  }

  lemma {:induction false} OnesBound(n: nat, k: nat)
    requires n < Pow2(k)
    ensures Ones(n) <= k
    ensures Ones(n) == 0 <==> n == 0
  {
    if n > 0 {
      OnesBound(n / 2, k - 1);
    }
  }

  lemma {:induction false} OnesInvert(n: nat)
    requires n > 0
    ensures Ones(InvertLowestOne(n)) == Ones(n) - 1
  {
    InvertUnfold(n);
    if n % 2 == 0 {
      OnesInvert(n / 2);
    }
  }

  lemma {:induction false} OnesAllOnes(k: nat)
    ensures Ones(Pow2(k) - 1) == k
  {
    if k > 0 {
      OnesAllOnes(k - 1);
      assert (Pow2(k) - 1) / 2 == Pow2(k - 1) - 1;
    }
  }

  lemma {:induction false} OnesPow2(j: nat)
    ensures Ones(Pow2(j)) == 1
  {
    if j > 0 {
      OnesPow2(j - 1);
    }
  }

  lemma {:induction false} OnesTopBit(r: nat, j: nat)
    requires r < Pow2(j)
    ensures Ones(Pow2(j) + r) == 1 + Ones(r)
    decreases r
  {
    if r == 0 {
      OnesPow2(j);
    } else {
      var c := InvertLowestOne(r);
      InvertDecreases(r);
      OnesTopBit(c, j);
      OnesInvert(r);
      OnesInvert(Pow2(j) + r);
      AlignedZero(j);
      AlignedAddBit(0, j);
      InvertBelow(j, Pow2(j), r);
    }
  }

  /** The highest one of a number with an odd number of ones, and the even rest. */
  lemma {:induction false} SplitTop(r: nat, m: nat, n: nat) returns (j: nat, low: nat)
    requires r < Pow2(m) && Ones(r) == 2 * n + 1
    ensures 2 * n <= j < m && low < Pow2(j) && r == Pow2(j) + low && Ones(low) == 2 * n
  {
    OnesBound(r, m);
    j := TopBit(r, m);
    low := r - Pow2(j);
    OnesTopBit(low, j);
    OnesBound(low, j);
  }

  lemma {:induction false} TopBit(r: nat, m: nat) returns (j: nat)
    requires 0 < r < Pow2(m)
    ensures j < m && Pow2(j) <= r < Pow2(j + 1)
  {
    j := m - 1;
    if r < Pow2(j) {
      j := TopBit(r, j);
    }
  }

  // ---------- the walk ----------

  /**
   * The rule `skip` is AncestorHeight.  Statements about walks are phrased over such a rule so that the bit
   * arithmetic is looked at only where it is needed.
   */
  ghost predicate Skips(skip: nat -> nat)
  {
    forall h: nat {:trigger AncestorHeight(h)} :: skip(h) == AncestorHeight(h)
  }

  /** Iterations of the walk from height h to height t: skip if that does not overshoot, else one step back. */
  ghost function Steps(skip: nat -> nat, h: nat, t: nat): nat
    requires Skips(skip) && t <= h
    decreases h
  {
    if h == t then 0
    else
      AncestorHeightDecreases(h);
      if skip(h) >= t then 1 + Steps(skip, skip(h), t) else 1 + Steps(skip, h - 1, t)
  }

  lemma {:induction false} SkipPair(skip: nat -> nat, b: nat, m: nat, r: nat) returns (a: nat)
    requires Skips(skip) && Aligned(b, m) && r < Pow2(m) && Ones(r) >= 2
    ensures a < r && skip(b + r) == b + a
    ensures Ones(a) == Ones(r) - 2
  {
    var c := InvertLowestOne(r);
    InvertDecreases(r);
    OnesInvert(r);
    InvertBelow(m, b, r);
    a := InvertLowestOne(c);
    InvertDecreases(c);
    OnesInvert(c);
    InvertBelow(m, b, c);
    assert AncestorHeight(b + r) == b + a;
  }

  lemma {:induction false} SkipOne(skip: nat -> nat, b: nat, m: nat)
    requires Skips(skip) && Aligned(b, m + 1)
    ensures b == 0 ==> skip(b + Pow2(m)) == 0
    ensures b > 0 ==> skip(b + Pow2(m)) < b
  {
    InvertBit(m, b);
    assert AncestorHeight(b + Pow2(m)) == InvertLowestOne(b);
    if b > 0 {
      InvertDecreases(b);
    }
  }

  lemma {:induction false} SkipTwo(skip: nat -> nat, b: nat, m: nat, j: nat)
    requires Skips(skip) && Aligned(b, m + 1) && j < m
    ensures skip(b + Pow2(m) + Pow2(j)) == b
  {
    FloorAligned(b, m);
    AlignedWeaken(b + Pow2(m), m, j + 1);
    InvertBit(j, b + Pow2(m));
    InvertBit(m, b);
    assert AncestorHeight(b + Pow2(m) + Pow2(j)) == b;
  }

  // ---------- exact cost of each stretch of the walk ----------

  /** With an even number of ones below an aligned base, the walk drops them two at a time. */
  lemma {:induction false} DrainEven(skip: nat -> nat, b: nat, m: nat, r: nat, n: nat, t: nat)
    requires Skips(skip) && Aligned(b, m) && r < Pow2(m) && Ones(r) == 2 * n && t <= b
    ensures Steps(skip, b + r, t) == n + Steps(skip, b, t)
    decreases n
  {
    if n == 0 {
      OnesBound(r, m);
    } else {
      var a := SkipPair(skip, b, m, r);
      DrainEven(skip, b, m, a, n - 1, t);
    }
  }

  /** With an odd number of ones below an aligned base, only the highest one remains after the pairs are dropped. */
  lemma {:induction false} DrainOdd(skip: nat -> nat, b: nat, j: nat, r: nat, n: nat, t: nat)
    requires Skips(skip) && Aligned(b, j + 1) && r < Pow2(j) && Ones(r) == 2 * n && t <= b
    ensures Steps(skip, b + Pow2(j) + r, t) == n + Steps(skip, b + Pow2(j), t)
  {
    FloorAligned(b, j);
    DrainEven(skip, b + Pow2(j), j, r, n, t);
  }

  /** From a single one above an aligned base the walk must step to the parent, unless it jumps to the very start. */
  lemma {:induction false} FromFloor(skip: nat -> nat, b: nat, m: nat, y: nat)
    requires Skips(skip) && Aligned(b, m + 1) && y < Pow2(m) && (b > 0 || y > 0)
    ensures Steps(skip, b + Pow2(m), b + y) == 1 + Steps(skip, b + Pow2(m) - 1, b + y)
  {
    SkipOne(skip, b, m);
  }

  /** From two ones above an aligned base the walk must step to the parent, unless the target is the base itself. */
  lemma {:induction false} FromTwo(skip: nat -> nat, b: nat, m: nat, j: nat, y: nat)
    requires Skips(skip) && Aligned(b, m + 1) && j < m && 0 < y < Pow2(m)
    ensures Steps(skip, b + Pow2(m) + Pow2(j), b + y) == 1 + Steps(skip, b + Pow2(m) + Pow2(j) - 1, b + y)
  {
    SkipTwo(skip, b, m, j);
  }

  /** Iterations needed to get rid of bit j when all lower bits are ones. */
  function ClearCost(j: nat): nat
  {
    if j % 2 == 0 then j / 2 + 1 else j + 1
  }

  /** An even number 2n of trailing ones below bit m. */
  lemma {:induction false} DropOnesEven(skip: nat -> nat, b: nat, m: nat, n: nat, y: nat)
    requires Skips(skip) && Aligned(b, m + 1) && 2 * n <= m && 0 < y < Pow2(m)
    ensures Steps(skip, b + Pow2(m) + Pow2(2 * n) - 1, b + y) == n + 1 + Steps(skip, b + Pow2(m) - 1, b + y)
  {
    FloorAligned(b, m);
    FromFloor(skip, b, m, y);
    OnesAllOnes(2 * n);
    Pow2Monotone(2 * n, m);
    DrainEven(skip, b + Pow2(m), m, Pow2(2 * n) - 1, n, b + y);
  }

  /** An odd number 2n + 1 of trailing ones below bit m. */
  lemma {:induction false} DropOnesOdd(skip: nat -> nat, b: nat, m: nat, n: nat, y: nat)
    requires Skips(skip) && Aligned(b, m + 1) && 2 * n + 1 <= m && 0 < y < Pow2(m)
    ensures Steps(skip, b + Pow2(m) + Pow2(2 * n + 1) - 1, b + y) == 2 * n + 2 + Steps(skip, b + Pow2(m) - 1, b + y)
  {
    FirstOnes(skip, b, m, n, b + y);
    FromTwo(skip, b, m, 2 * n, y);
    DropOnesEven(skip, b, m, n, y);
  }

  lemma {:induction false} FirstOnes(skip: nat -> nat, b: nat, m: nat, n: nat, t: nat)
    requires Skips(skip) && Aligned(b, m + 1) && 2 * n + 1 <= m && t <= b + Pow2(m)
    ensures Steps(skip, b + Pow2(m) + Pow2(2 * n + 1) - 1, t) == n + Steps(skip, b + Pow2(m) + Pow2(2 * n), t)
  {
    var f := b + Pow2(m);
    FloorAligned(b, m);
    AlignedWeaken(f, m, 2 * n + 1);
    OnesAllOnes(2 * n);
    DrainOdd(skip, f, 2 * n, Pow2(2 * n) - 1, n, t);
  }

  lemma {:induction false} DropOnes(skip: nat -> nat, b: nat, m: nat, j: nat, y: nat)
    requires Skips(skip) && Aligned(b, m + 1) && j <= m && 0 < y < Pow2(m)
    ensures Steps(skip, b + Pow2(m) + Pow2(j) - 1, b + y) == ClearCost(j) + Steps(skip, b + Pow2(m) - 1, b + y)
  {
    if j % 2 == 0 {
      DropOnesEven(skip, b, m, j / 2, y);
    } else {
      DropOnesOdd(skip, b, m, j / 2, y);
    }
  }

  lemma {:induction false} ToBaseEven(skip: nat -> nat, b: nat, n: nat)
    requires Skips(skip) && Aligned(b, 2 * n)
    ensures Steps(skip, b + Pow2(2 * n) - 1, b) == n
  {
    OnesAllOnes(2 * n);
    DrainEven(skip, b, 2 * n, Pow2(2 * n) - 1, n, b);
  }

  lemma {:induction false} ToBaseOdd(skip: nat -> nat, b: nat, n: nat)
    requires Skips(skip) && Aligned(b, 2 * n + 1)
    ensures Steps(skip, b + Pow2(2 * n + 1) - 1, b) <= 2 * n + 1
  {
    OnesAllOnes(2 * n);
    DrainOdd(skip, b, 2 * n, Pow2(2 * n) - 1, n, b);
    SkipOne(skip, b, 2 * n);
    FloorAligned(b, 2 * n);
    ToBaseEven(skip, b, n);
  }

  lemma {:induction false} ToBase(skip: nat -> nat, b: nat, m: nat)
    requires Skips(skip) && Aligned(b, m)
    ensures Steps(skip, b + Pow2(m) - 1, b) <= m
  {
    if m % 2 == 0 {
      ToBaseEven(skip, b, m / 2);
    } else {
      ToBaseOdd(skip, b, m / 2);
    }
  }

  // ---------- heights whose low bits are all ones ----------

  /** Iterations from a height whose m lowest bits are ones, when each of the bits m-1 .. 1 has to go. */
  function AllOnesCost(m: nat): nat
  {
    if m <= 1 then 0 else ClearCost(m - 1) + AllOnesCost(m - 1)
  }

  lemma {:induction false} AllOnesCostGrows(m: nat)
    requires m >= 2
    ensures AllOnesCost(m) >= m
  {
    if m > 2 {
      AllOnesCostGrows(m - 1);
    }
  }

  /** n * n as a sum, which keeps the arithmetic below linear. */
  function Square(n: nat): nat
  {
    if n == 0 then 0 else Square(n - 1) + 2 * n - 1
  }

  lemma {:induction false} SquareIs(n: nat)
    ensures Square(n) == n * n
  {
    if n > 0 {
      SquareIs(n - 1);
      assert n * n == (n - 1) * (n - 1) + 2 * n - 1;
    }
  }

  lemma {:induction false} SquareOfOdd(n: nat)
    ensures Square(2 * n + 1) == 4 * Square(n) + 4 * n + 1
  {
    if n > 0 {
      SquareOfOdd(n - 1);
      assert Square(2 * n + 1) == Square(2 * n) + 4 * n + 1;
      assert Square(2 * n) == Square(2 * n - 1) + 4 * n - 1;
    }
  }

  lemma {:induction false} AllOnesCostClosed(n: nat)
    ensures 2 * AllOnesCost(2 * n + 1) == 3 * Square(n) + 5 * n
    ensures n > 0 ==> 2 * AllOnesCost(2 * n) == 3 * Square(n) + 3 * n - 2
  {
    if n > 0 {
      AllOnesCostClosed(n - 1);
      assert AllOnesCost(2 * n) == ClearCost(2 * n - 1) + AllOnesCost(2 * n - 1);
      assert AllOnesCost(2 * n + 1) == ClearCost(2 * n) + AllOnesCost(2 * n);
    }
  }

  lemma {:induction false} AllOnesUpper(skip: nat -> nat, b: nat, m: nat, t: nat)
    requires Skips(skip) && Aligned(b, m) && b < t < b + Pow2(m)
    ensures Steps(skip, b + Pow2(m) - 1, t) <= AllOnesCost(m)
    decreases m
  {
    if m > 1 {
      FloorAligned(b, m - 1);
      var f := b + Pow2(m - 1);
      if t < f {
        AllOnesUpper(skip, b, m - 1, t);
        DropOnes(skip, b, m - 1, m - 1, t - b);
      } else if t == f {
        ToBase(skip, f, m - 1);
        AllOnesCostGrows(m);
      } else {
        AllOnesUpper(skip, f, m - 1, t);
      }
    }
  }

  lemma {:induction false} AllOnesExact(skip: nat -> nat, b: nat, m: nat)
    requires Skips(skip) && Aligned(b, m) && m > 0
    ensures Steps(skip, b + Pow2(m) - 1, b + 1) == AllOnesCost(m)
  {
    if m > 1 {
      FloorAligned(b, m - 1);
      DropOnes(skip, b, m - 1, m - 1, 1);
      AllOnesExact(skip, b, m - 1);
    }
  }

  lemma CostFigures()
    ensures AllOnesCost(28) == 314 && AllOnesCost(29) == 329 && AllOnesCost(30) == 359
  {
    AllOnesCostClosed(14);
    AllOnesCostClosed(15);
    SquareIs(14);
    SquareIs(15);
  }

  // ---------- from a height that is a power of two ----------

  /** The number of iterations that suffices from height 2^k. */
  function PowerCost(k: nat): nat
  {
    1 + AllOnesCost(k)
  }

  /** No target is further than PowerCost(k) iterations from height 2^k, and height 1 is exactly that far. */
  lemma {:induction false} PowerCostIsSharp(skip: nat -> nat, k: nat, t: nat)
    requires Skips(skip) && t <= Pow2(k)
    ensures Steps(skip, Pow2(k), t) <= PowerCost(k)
    ensures t == 1 && k > 0 ==> Steps(skip, Pow2(k), t) == PowerCost(k)
  {
    AlignedZero(k + 1);
    AlignedZero(k);
    if t == 0 {
      SkipOne(skip, 0, k);
    } else if t < Pow2(k) {
      FromFloor(skip, 0, k, t);
      AllOnesUpper(skip, 0, k, t);
      AllOnesExact(skip, 0, k);
    }
  }

  /** The figure the source gives for height 1<<29 is exact: 330 iterations suffice and reaching height 1 needs all. */
  lemma {:induction false} From2Pow29(skip: nat -> nat, k: nat, t: nat)
    requires Skips(skip) && k == 29 && t <= Pow2(k)
    ensures Steps(skip, Pow2(k), t) <= 330
    ensures t == 1 ==> Steps(skip, Pow2(k), t) == 330
  {
    CostFigures();
    PowerCostIsSharp(skip, k, t);
  }

  // ---------- from any height below a power of two ----------

  /** The most a height can add, below its top bit m, to the cost of the all-ones walk that follows. */
  function TopCost(m: nat): nat
  {
    if m % 2 == 0 then 3 * (m / 2) else if m <= 5 then m + 1 else 3 * (m / 2)
  }

  /** The largest number of iterations any walk from a height below 2^k can take. */
  function WorstCost(k: nat): nat
  {
    if k <= 1 then k else TopCost(k - 1) + AllOnesCost(k - 1)
  }

  lemma TopCostCovers(m: nat, j: nat, n: nat)
    requires 2 * n <= j < m
    ensures n + 1 + ClearCost(j) <= TopCost(m)
  {
  }

  /** Exact cost of a walk that starts with bits m and j set and 2n ones below j. */
  lemma {:induction false} TwoTopBits(skip: nat -> nat, b: nat, m: nat, j: nat, r: nat, n: nat, y: nat)
    requires Skips(skip) && Aligned(b, m + 1) && j < m && r < Pow2(j) && Ones(r) == 2 * n && 0 < y < Pow2(m)
    ensures Steps(skip, b + Pow2(m) + Pow2(j) + r, b + y)
         == n + 1 + ClearCost(j) + Steps(skip, b + Pow2(m) - 1, b + y)
  {
    var f := b + Pow2(m);
    assert Aligned(f, j + 1) by {
      FloorAligned(b, m);
      AlignedWeaken(f, m, j + 1);
    }
    DrainOdd(skip, f, j, r, n, b + y);
    FromTwo(skip, b, m, j, y);
    DropOnes(skip, b, m, j, y);
  }

  lemma {:induction false} TopUpperEven(skip: nat -> nat, b: nat, m: nat, r: nat, n: nat, y: nat)
    requires Skips(skip) && Aligned(b, m + 1) && r < Pow2(m) && 0 < y < Pow2(m) && Ones(r) == 2 * n
    ensures 2 * n <= m
    ensures Steps(skip, b + Pow2(m) + r, b + y) <= n + 1 + AllOnesCost(m)
  {
    OnesBound(r, m);
    FloorAligned(b, m);
    DrainEven(skip, b + Pow2(m), m, r, n, b + y);
    FromFloor(skip, b, m, y);
    AllOnesUpper(skip, b, m, b + y);
  }

  lemma {:induction false} TopUpperOdd(skip: nat -> nat, b: nat, m: nat, r: nat, n: nat, y: nat)
    requires Skips(skip) && Aligned(b, m + 1) && r < Pow2(m) && 0 < y < Pow2(m) && Ones(r) == 2 * n + 1
    ensures Steps(skip, b + Pow2(m) + r, b + y) <= TopCost(m) + AllOnesCost(m)
  {
    var j, low := SplitTop(r, m, n);
    TopCostCovers(m, j, n);
    TwoTopBits(skip, b, m, j, low, n, y);
    FloorAligned(b, m);
    AllOnesUpper(skip, b, m, b + y);
  }

  lemma {:induction false} ZeroUpperEven(skip: nat -> nat, b: nat, m: nat, r: nat, n: nat)
    requires Skips(skip) && Aligned(b, m + 1) && r < Pow2(m) && Ones(r) == 2 * n
    ensures 2 * n <= m
    ensures Steps(skip, b + Pow2(m) + r, b) <= n + 1 + m
  {
    OnesBound(r, m);
    FloorAligned(b, m);
    DrainEven(skip, b + Pow2(m), m, r, n, b);
    SkipOne(skip, b, m);
    ToBase(skip, b, m);
  }

  lemma {:induction false} ZeroUpperOdd(skip: nat -> nat, b: nat, m: nat, r: nat, n: nat)
    requires Skips(skip) && Aligned(b, m + 1) && r < Pow2(m) && Ones(r) == 2 * n + 1
    ensures 2 * n <= m
    ensures Steps(skip, b + Pow2(m) + r, b) <= n + 1
  {
    var j, low := SplitTop(r, m, n);
    var f := b + Pow2(m);
    assert Aligned(f, j + 1) by {
      FloorAligned(b, m);
      AlignedWeaken(f, m, j + 1);
    }
    DrainOdd(skip, f, j, low, n, b);
    SkipTwo(skip, b, m, j);
  }

  lemma {:induction false} TopBitSet(skip: nat -> nat, b: nat, m: nat, r: nat, y: nat)
    requires Skips(skip) && Aligned(b, m + 1) && r < Pow2(m) && y < Pow2(m)
    ensures Steps(skip, b + Pow2(m) + r, b + y) <= WorstCost(m + 1)
  {
    if m >= 2 { AllOnesCostGrows(m); }
    var n := Ones(r) / 2;
    if y == 0 {
      if Ones(r) == 2 * n { ZeroUpperEven(skip, b, m, r, n); } else { ZeroUpperOdd(skip, b, m, r, n); }
    } else {
      if Ones(r) == 2 * n { TopUpperEven(skip, b, m, r, n, y); } else { TopUpperOdd(skip, b, m, r, n, y); }
    }
  }

  lemma WorstCostGrows(k: nat)
    ensures WorstCost(k) <= WorstCost(k + 1)
  {
  }

  lemma {:induction false} WorstUpper(skip: nat -> nat, b: nat, k: nat, h: nat, t: nat)
    requires Skips(skip) && Aligned(b, k) && b <= t <= h < b + Pow2(k)
    ensures Steps(skip, h, t) <= WorstCost(k)
    decreases k
  {
    if k > 0 {
      var f := b + Pow2(k - 1);
      FloorAligned(b, k - 1);
      WorstCostGrows(k - 1);
      if h < f {
        WorstUpper(skip, b, k - 1, h, t);
      } else if t >= f {
        WorstUpper(skip, f, k - 1, h, t);
      } else {
        TopBitSet(skip, b, k - 1, h - f, t - b);
      }
    }
  }

  lemma {:induction false} Attained(skip: nat -> nat, m: nat, j: nat, n: nat) returns (h: nat)
    requires Skips(skip) && 2 * n <= j < m
    ensures 1 <= h < Pow2(m + 1)
    ensures Steps(skip, h, 1) == n + 1 + ClearCost(j) + AllOnesCost(m)
  {
    var r := Pow2(2 * n) - 1;
    assert r < Pow2(j) && Ones(r) == 2 * n by {
      Pow2Monotone(2 * n, j);
      OnesAllOnes(2 * n);
    }
    assert 1 < Pow2(m) && Pow2(j) + r < Pow2(m) by {
      Pow2Monotone(j + 1, m);
    }
    h := Pow2(m) + Pow2(j) + r;
    AlignedZero(m + 1);
    TwoTopBits(skip, 0, m, j, r, n, 1);
    AlignedZero(m);
    AllOnesExact(skip, 0, m);
  }

  lemma {:induction false} WorstAttained(skip: nat -> nat, k: nat) returns (h: nat)
    requires Skips(skip) && k >= 2
    ensures 1 <= h < Pow2(k)
    ensures Steps(skip, h, 1) == WorstCost(k)
  {
    var m := k - 1;
    var j := if m % 2 == 1 && m > 5 then m - 2 else m - 1;
    h := Attained(skip, m, j, j / 2);
  }

  /** The worst walk from a height below 2^k takes exactly WorstCost(k) iterations. */
  lemma {:induction false} WorstCostIsSharp(skip: nat -> nat, k: nat)
    requires Skips(skip)
    ensures forall h: nat, t: nat :: t <= h < Pow2(k) ==> Steps(skip, h, t) <= WorstCost(k)
    ensures k >= 2 ==> exists h: nat :: 1 <= h < Pow2(k) && Steps(skip, h, 1) == WorstCost(k)
  {
    forall h: nat, t: nat | t <= h < Pow2(k)
      ensures Steps(skip, h, t) <= WorstCost(k)
    {
      AlignedZero(k);
      WorstUpper(skip, 0, k, h, t);
    }
    if k >= 2 {
      var h := WorstAttained(skip, k);
    }
  }

  lemma {:induction false} WorstCostOddBits(n: nat)
    ensures 8 * WorstCost(2 * n + 1) <= 3 * Square(2 * n + 1) + 12 * (2 * n + 1)
  {
    AllOnesCostClosed(n);
    SquareOfOdd(n);
  }

  lemma {:induction false} WorstCostEvenBits(n: nat)
    ensures 8 * WorstCost(2 * n + 2) <= 3 * Square(2 * n + 2) + 12 * (2 * n + 2)
  {
    AllOnesCostClosed(n);
    SquareOfOdd(n);
    assert Square(2 * n + 2) == Square(2 * n + 1) + 4 * n + 3;
    assert TopCost(2 * n + 1) <= 3 * n + 2;
  }

  lemma WorstCostQuadratic(k: nat)
    ensures 8 * WorstCost(k) <= 3 * (k * k) + 12 * k
  {
    SquareIs(k);
    if k % 2 == 1 {
      WorstCostOddBits(k / 2);
    } else if k > 0 {
      WorstCostEvenBits(k / 2 - 1);
    }
  }

  /** Quadratic in the number of bits, for every height and every target. */
  lemma {:induction false} QuadraticBound(skip: nat -> nat, k: nat, h: nat, t: nat)
    requires Skips(skip) && t <= h < Pow2(k)
    ensures 8 * Steps(skip, h, t) <= 3 * (k * k) + 12 * k
  {
    AlignedZero(k);
    WorstUpper(skip, 0, k, h, t);
    WorstCostQuadratic(k);
  }

  lemma {:induction false} WorstCostMonotone(j: nat, k: nat)
    requires j <= k
    ensures WorstCost(j) <= WorstCost(k)
  {
    if j < k {
      WorstCostMonotone(j, k - 1);
      WorstCostGrows(k - 1);
    }
  }

  /** 330 bounds the walks from all heights of k bits exactly up to k = 28. */
  lemma BoundedBy330(k: nat)
    ensures WorstCost(k) <= 330 <==> k <= 28
  {
    CostFigures();
    AllOnesCostClosed(13);
    SquareIs(13);
    if k <= 28 {
      WorstCostMonotone(k, 28);
    } else {
      WorstCostMonotone(29, k);
    }
  }

  /**
   * 330 does not bound the walks from all heights up to 1<<29: some lower height needs 356, which is the exact
   * worst case there; over all heights an int32 can hold the exact worst case is 404.
   */
  lemma {:induction false} BelowPow29(skip: nat -> nat, k: nat)
    requires Skips(skip) && k == 29
    ensures forall h: nat, t: nat :: t <= h < Pow2(k) ==> Steps(skip, h, t) <= 356
    ensures exists h: nat :: 1 <= h < Pow2(k) && Steps(skip, h, 1) == 356
    ensures forall h: nat, t: nat :: t <= h < Pow2(k + 2) ==> Steps(skip, h, t) <= 404
    ensures exists h: nat :: 1 <= h < Pow2(k + 2) && Steps(skip, h, 1) == 404
  {
    CostFigures();
    WorstCostIsSharp(skip, k);
    WorstCostIsSharp(skip, k + 2);
  }
}
