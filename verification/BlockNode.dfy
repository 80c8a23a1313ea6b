/**
 * Block nodes: an immutable tree of headers in which every node points at its
 * parent and, once it has one, at a more distant ancestor.
 */
module BlockNodes {
  import opened Basics
  import opened SkipHeight

  /** A header names its predecessor by hash; `nonce` stands for every field the block index only stores. */
  datatype Header = Header(prev: Hash, bits: nat, timestamp: int, nonce: nat)

  /** Block hashes are taken to be free of collisions: a hash stands for the header it was computed from. */
  datatype Hash = ZeroHash | BlockHash(header: Header)

  /** The integer a compact 32-bit target stands for. */
  function CompactToBig(compact: nat): int
  {
    var mantissa := compact % 0x80_0000;
    var exponent := compact / 0x100_0000 % 0x100;
    var magnitude :=
      if exponent <= 3 then mantissa / Pow256(3 - exponent) else mantissa * Pow256(exponent - 3);
    if compact / 0x80_0000 % 2 == 1 then -magnitude else magnitude
  }

  const ONE_LSH_256: nat := 0x1_00000000_00000000_00000000_00000000_00000000_00000000_00000000_00000000

  /** The expected number of hashes for a target: zero for a target that is not positive. */
  function CalcWork(bits: nat): nat
  {
    WorkOf(CompactToBig(bits))
  }

  function WorkOf(target: int): nat
  {
    if target <= 0 then 0 else ONE_LSH_256 / (target + 1)
  }

  /** A target within the range the sanity checks accept always carries work. */
  lemma CalcWorkPositive(bits: nat)
    requires 0 < CompactToBig(bits) < ONE_LSH_256
    ensures CalcWork(bits) > 0
  {
    DivAtLeastOne(ONE_LSH_256, CompactToBig(bits) + 1);
  }

  lemma DivAtLeastOne(a: nat, d: nat)
    requires 0 < d <= a
    ensures a / d >= 1
  {
  }

  type Status = bv8
  const STATUS_DATA_STORED: Status := 1
  const STATUS_VALID: Status := 2
  const STATUS_VALIDATE_FAILED: Status := 4
  const STATUS_INVALID_ANCESTOR: Status := 8
  const STATUS_HEADER_STORED: Status := 16

  predicate KnownInvalid(status: Status)
  {
    status & (STATUS_VALIDATE_FAILED | STATUS_INVALID_ANCESTOR) != 0
  }

  predicate HasData(status: Status)
  {
    status & STATUS_DATA_STORED != 0
  }

  predicate HeaderOnly(status: Status)
  {
    status & STATUS_HEADER_STORED != 0 && !HasData(status)
  }

  class BlockNode {
    const header: Header
    const parent: BlockNode?
    const ancestor: BlockNode?
    const height: nat
    const workSum: nat
    var status: Status

    function Hash(): Hash
    {
      BlockHash(header)
    }

    /** Heights count the parents back to a node without one. */
    ghost predicate Linked()
      decreases height
    {
      if parent == null then height == 0 else height == parent.height + 1 && parent.Linked()
    }

    /** The node at height h, reached by following one parent at a time. */
    ghost function At(h: nat): BlockNode
      requires Linked() && h <= height
      ensures At(h).Linked() && At(h).height == h
      decreases height
    {
      if h == height then this else parent.At(h)
    }

    /** The sum of the work of every header back to the first one. */
    ghost function ChainWork(): nat
      requires Linked()
      decreases height
    {
      CalcWork(header.bits) + if parent == null then 0 else parent.ChainWork()
    }

    /** What initBlockNode establishes for a node and, through its parents, for the whole chain behind it. */
    ghost predicate WellFormed()
      decreases height
    {
      && Linked()
      && workSum == ChainWork()
      && (parent == null ==> ancestor == null)
      && (parent != null ==>
            && parent.WellFormed()
            && header.prev == parent.Hash()
            && AncestorHeight(height) <= parent.height
            && ancestor == parent.At(AncestorHeight(height)))
    }

    /** A fresh node on top of `parent`, or a first node when there is none. */
    constructor (header: Header, parent: BlockNode?)
      requires parent != null ==> parent.WellFormed() && header.prev == parent.Hash()
      ensures WellFormed()
      ensures this.header == header && this.parent == parent && status == 0
    {
      this.header := header;
      this.parent := parent;
      this.status := 0;
      if parent == null {
        this.ancestor := null;
        this.height := 0;
        this.workSum := CalcWork(header.bits);
      } else {
        AncestorHeightDecreases(parent.height + 1);
        var a, _ := parent.Ancestor(AncestorHeight(parent.height + 1));
        this.ancestor := a;
        this.height := parent.height + 1;
        this.workSum := parent.workSum + CalcWork(header.bits);
      }
    }

    /**
     * The node at the given height of this node's chain, or null when the height is negative or beyond this
     * node.  The walk takes exactly Steps iterations.
     */
    method Ancestor(target: int) returns (n: BlockNode?, ghost iterations: nat)
      requires WellFormed()
      ensures n == null <==> target < 0 || target > height
      ensures n != null ==> n == At(target) && n.WellFormed()
      ensures n != null ==> iterations == Steps(AncestorHeight, height, target)
    {
      iterations := 0;
      if target < 0 || target > height {
        return null, 0;
      }
      n := this;
      while n != null && n.height != target
        invariant n != null && target <= n.height <= height && n.WellFormed()
        invariant n == At(n.height) && n.At(target) == At(target)
        invariant iterations + Steps(AncestorHeight, n.height, target) == Steps(AncestorHeight, height, target)
        decreases n.height
      {
        iterations := iterations + 1;
        if n.ancestor != null && AncestorHeight(n.height) >= target {
          AtAt(n, AncestorHeight(n.height), target);
          AtAt(this, n.height, AncestorHeight(n.height));
          WellFormedAt(n, AncestorHeight(n.height));
          n := n.ancestor;
          continue;
        }
        AtAt(this, n.height, n.height - 1);
        n := n.parent;
      }
    }
  }

  /** Going back in two stages is going back at once. */
  lemma {:induction false} AtAt(n: BlockNode, h: nat, g: nat)
    requires n.Linked() && g <= h <= n.height
    ensures n.At(h).At(g) == n.At(g)
    decreases n.height
  {
    if h < n.height {
      AtAt(n.parent, h, g);
    }
  }

  lemma {:induction false} WellFormedAt(n: BlockNode, h: nat)
    requires n.WellFormed() && h <= n.height
    ensures n.At(h).WellFormed()
    decreases n.height
  {
    if h < n.height {
      WellFormedAt(n.parent, h);
    }
  }
}
