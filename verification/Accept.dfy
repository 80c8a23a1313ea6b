/**
 * Acceptance of headers and blocks into the block index, and the selection of
 * the header chain with the most work.
 */
module Acceptance {
  import opened Basics
  import opened BlockNodes
  import opened ChainViews
  import opened BlockIndexes
  import opened AcceptanceRules

  ghost predicate AllWellFormed(index: Index)
  {
    forall h {:trigger index[h].WellFormed()} | h in index :: index[h].WellFormed()
  }

  /** Only a first block names no predecessor. */
  ghost predicate RootsAreFirst(index: Index)
  {
    forall h | h in index :: index[h].parent == null ==> index[h].header.prev == ZeroHash
  }

  /** Nodes that are in the index stay there, under the same hash. */
  ghost predicate Keeps(before: Index, after: Index)
  {
    forall h | h in before :: h in after && after[h] == before[h]
  }

  /** Chains of indexed nodes stay within the index. */
  lemma {:induction false} ChainInIndex(index: Index, n: BlockNode, h: nat)
    requires IsTree(index) && In(index, n) && n.Linked() && h <= n.height
    ensures In(index, n.At(h))
    decreases n.height
  {
    assert IsEntry(index, n.Hash(), n);
    if h < n.height {
      ChainInIndex(index, n.parent, h);
    }
  }

  class BlockChain {
    const index: BlockIndex
    const bestHeader: ChainView
    const powLimit: nat
    /** The headers whose acceptance has returned without an error. */
    ghost var accepted: set<BlockNode>

    ghost predicate IndexValid()
      reads index`index
    {
      IsTree(index.index) && AllWellFormed(index.index) && RootsAreFirst(index.index)
    }

    ghost predicate Valid()
      reads this`accepted, index`index, index`dirty, bestHeader
    {
      && powLimit < ONE_LSH_256
      && IndexValid()
      && (forall n | n in index.dirty :: In(index.index, n))
      && ViewOf(index.index, bestHeader)
      && bestHeader.nodes != [] && In(index.index, bestHeader.Tip())
      && forall n | n in accepted :: In(index.index, n) && n.workSum <= bestHeader.Tip().workSum
    }

    /** The index, the database and the header tip as values. */
    ghost function Now(): Ledger
      reads index, bestHeader, index.index.Values`status
    {
      Ledger(map h | h in index.index :: index.index[h].status,
             (set h | h in index.index && index.index[h] in index.dirty),
             index.rows,
             if bestHeader.Tip() == null then ZeroHash else bestHeader.Tip().Hash())
    }

    constructor (genesis: Header, powLimit: nat)
      requires genesis.prev == ZeroHash && powLimit < ONE_LSH_256
      ensures Valid() && fresh(index) && fresh(bestHeader)
      ensures accepted == {} && index.index.Keys == {BlockHash(genesis)}
      ensures bestHeader.Tip() == index.index[BlockHash(genesis)]
      ensures var rows := map[BlockHash(genesis) := STATUS_DATA_STORED | STATUS_VALID];
        Now() == Ledger(rows, {}, rows, BlockHash(genesis))
    {
      var node := new BlockNode(genesis, null);
      node.status := STATUS_DATA_STORED | STATUS_VALID;
      var bi := new BlockIndex();
      var view := new ChainView();
      view.SetTip(node);
      bi.FileNode(node);
      bi.rows := map[node.Hash() := node.status];
      this.index, this.bestHeader, this.powLimit, this.accepted := bi, view, powLimit, {};
    }

    /** Adds a node for a header whose predecessor is known; the index stays a tree and loses nothing. */
    method InsertNode(header: Header, prev: BlockNode, status: Status) returns (node: BlockNode)
      requires Valid() && In(index.index, prev) && header.prev == prev.Hash()
      requires BlockHash(header) !in index.index
      modifies index
      ensures Valid() && fresh(node) && node.header == header && node.parent == prev && node.status == status
      ensures index.index == old(index.index)[BlockHash(header) := node]
      ensures index.dirty == old(index.dirty) + {node} && index.rows == old(index.rows)
    {
      node := new BlockNode(header, prev);
      node.status := status;
      InsertKeepsTree(index.index, node);
      index.AddNode(node);
    }

    /** The same, as it shows in the ledger. */
    method Insert(header: Header, prev: BlockNode, status: Status) returns (node: BlockNode)
      requires Valid() && In(index.index, prev) && header.prev == prev.Hash()
      requires BlockHash(header) !in index.index
      modifies index
      ensures Valid() && fresh(node) && node.header == header && node.parent == prev && node.status == status
      ensures index.index == old(index.index)[BlockHash(header) := node]
      ensures Now() == Mark(old(Now()), BlockHash(header), status)
    {
      ghost var marked := Mark(Now(), BlockHash(header), status);
      node := InsertNode(header, prev, status);
      assert Now().statuses == marked.statuses;
      assert Now().dirty == marked.dirty;
    }

    /** What the index alone decides about a header, before any check of the header itself. */
    function Gate(header: Header): Gate
      reads index, bestHeader, set h | h in index.index :: index.index[h]
    {
      if header.prev !in index.index then Stop(PreviousBlockUnknown)
      else if KnownInvalid(index.index[header.prev].status) then Stop(InvalidAncestorBlock)
      else if BlockHash(header) !in index.index then Proceed
      else
        var node := index.index[BlockHash(header)];
        if node.status & STATUS_VALIDATE_FAILED != 0 then Stop(KnownInvalidBlock)
        else if node.status & STATUS_INVALID_ANCESTOR != 0 then Stop(InvalidAncestorBlock)
        else if bestHeader.Contains(node) then AlreadyBest
        else Proceed
    }

    method MaybeAcceptBlockHeader(header: Header, verdicts: Verdicts) returns (r: Outcome)
      requires Valid()
      modifies this`accepted, index, bestHeader
      ensures Valid() && (Now(), r) == AfterHeader(powLimit, old(Now()), header, verdicts)
      ensures Keeps(old(index.index), index.index)
      ensures index.index.Keys <= old(index.index.Keys) + {BlockHash(header)}
      ensures BlockHash(header) in index.index && BlockHash(header) !in old(index.index) ==>
                fresh(index.index[BlockHash(header)])
      ensures old(Gate(header)).Stop? ==> r == Rejected(old(Gate(header)).error)
      ensures old(Gate(header)).AlreadyBest? ==> r == Accepted(true) && index.index == old(index.index)
      ensures old(Gate(header)).Proceed? ==>
                match CheckedBy(powLimit, header, verdicts)
                case Some(error) => r == Rejected(error)
                case None => r.Accepted? || (r == Rejected(StoreFailed) && !verdicts.write)
      ensures r.Accepted? ==>
                BlockHash(header) in index.index && accepted == old(accepted) + {index.index[BlockHash(header)]}
      ensures r.Accepted? ==> (r.isMainChain <==> bestHeader.Contains(index.index[BlockHash(header)]))
      ensures r.Rejected? ==> accepted == old(accepted) && bestHeader.nodes == old(bestHeader.nodes)
      ensures bestHeader.Tip() != old(bestHeader.Tip()) ==>
                && bestHeader.Tip().Hash() == BlockHash(header)
                && bestHeader.Tip().workSum > old(bestHeader.Tip()).workSum
    {
      GateIs(header);
      match Gate(header)
      case Stop(error) =>
        r := Rejected(error);
      case AlreadyBest =>
        var node := index.index[BlockHash(header)];
        EntryAt(index.index, BlockHash(header));
        assert index.index[bestHeader.Tip().Hash()].WellFormed();
        OnBranchNoMoreWork(bestHeader, node);
        accepted := accepted + {node};
        r := Accepted(true);
      case Proceed =>
        var failed := CheckedBy(powLimit, header, verdicts);
        if failed.Some? {
          r := Rejected(failed.value);
        } else {
          EntryAt(index.index, header.prev);
          r := AcceptChecked(header, index.index[header.prev], verdicts.write);
        }
    }

    /** The node of a header off the best header chain, created if there is none. */
    method NodeFor(header: Header, prevNode: BlockNode) returns (node: BlockNode)
      requires Valid() && In(index.index, prevNode) && header.prev == prevNode.Hash()
      requires BlockHash(header) in index.index ==> !bestHeader.Contains(index.index[BlockHash(header)])
      modifies index
      ensures Valid() && node.header == header && In(index.index, node) && !bestHeader.Contains(node)
      ensures Keeps(old(index.index), index.index)
      ensures index.index.Keys == old(index.index.Keys) + {BlockHash(header)}
      ensures BlockHash(header) !in old(index.index) ==> fresh(index.index[BlockHash(header)])
      ensures Now() == if BlockHash(header) in old(index.index) then old(Now())
                       else Mark(old(Now()), BlockHash(header), STATUS_HEADER_STORED)
    {
      if BlockHash(header) in index.index {
        EntryAt(index.index, BlockHash(header));
        node := index.index[BlockHash(header)];
      } else {
        node := Insert(header, prevNode, STATUS_HEADER_STORED);
        FreshNotContained(bestHeader, old(index.index), node);
      }
    }

    /** A header that passed every check: create its node unless there is one, then choose the header tip. */
    method AcceptChecked(header: Header, prevNode: BlockNode, write: bool) returns (r: Outcome)
      requires Valid() && In(index.index, prevNode) && header.prev == prevNode.Hash()
      requires TargetWithin(powLimit, header.bits)
      requires BlockHash(header) in index.index ==> !bestHeader.Contains(index.index[BlockHash(header)])
      modifies this`accepted, index, bestHeader
      ensures Valid() && (Now(), r) == Enter(old(Now()), header, write)
      ensures Keeps(old(index.index), index.index)
      ensures index.index.Keys == old(index.index.Keys) + {BlockHash(header)}
      ensures BlockHash(header) !in old(index.index) ==> fresh(index.index[BlockHash(header)])
      ensures r.Accepted? ==> accepted == old(accepted) + {index.index[BlockHash(header)]}
      ensures r.Accepted? ==> (r.isMainChain <==> bestHeader.Contains(index.index[BlockHash(header)]))
      ensures r.Rejected? ==> accepted == old(accepted) && bestHeader.nodes == old(bestHeader.nodes)
      ensures r.Rejected? ==> r.error == StoreFailed && !write
      ensures bestHeader.Tip() != old(bestHeader.Tip()) ==>
                && bestHeader.Tip().Hash() == BlockHash(header)
                && bestHeader.Tip().workSum > old(bestHeader.Tip()).workSum
    {
      var node := NodeFor(header, prevNode);
      ghost var known := Now();
      var flushed := FlushIndex(write);
      if !flushed {
        EnterIs(old(Now()), header, write, known, false, Now());
        return Rejected(StoreFailed);
      }
      var isMainChain := SelectHeader(header, node, prevNode);
      EnterIs(old(Now()), header, write, known, isMainChain, Now());
      r := Accepted(isMainChain);
    }

    method FlushIndex(write: bool) returns (ok: bool)
      requires Valid()
      modifies index
      ensures Valid() && index.index == old(index.index)
      ensures ok == CanFlush(old(Now()), write) && Now() == if ok then Flush(old(Now())) else old(Now())
    {
      assert NeedsWrite(Now()) <==> exists n :: n in index.dirty && HasData(n.status) by {
        DataIs();
      }
      assert Rows(Now()) == index.Written(index.dirty);
      ok := index.FlushToDB(write);
    }

    lemma DataIs()
      requires Valid()
      ensures NeedsWrite(Now()) <==> exists n :: n in index.dirty && HasData(n.status)
    {
      if n :| n in index.dirty && HasData(n.status) {
        assert n.Hash() in Now().dirty && n.Hash() in Now().statuses;
      }
    }

    /** A known node gets flags. */
    method AddFlags(node: BlockNode, flags: Status)
      requires Valid() && In(index.index, node)
      modifies index`dirty, node`status
      ensures Valid() && node.status == old(node.status) | flags
      ensures Now() == Mark(old(Now()), node.Hash(), old(node.status) | flags)
    {
      index.SetStatusFlags(node, flags);
      forall h | h in index.index && index.index[h] == node
        ensures h == node.Hash()
      {
        EntryAt(index.index, h);
      }
    }

    /** The last stage: move the header tip when the header extends it or has more work, else leave it. */
    method SelectHeader(header: Header, node: BlockNode, prevNode: BlockNode) returns (isMainChain: bool)
      requires Valid()
      requires In(index.index, node) && node.header == header && !bestHeader.Contains(node)
      requires In(index.index, prevNode) && header.prev == prevNode.Hash() && TargetWithin(powLimit, header.bits)
      modifies bestHeader, this`accepted
      ensures Valid() && accepted == old(accepted) + {node}
      ensures isMainChain <==> bestHeader.Contains(node)
      ensures bestHeader.Tip() == if isMainChain then node else old(bestHeader.Tip())
      ensures isMainChain <==> Work(node.Hash()) > Work(old(Now()).tip)
      ensures Now() == if isMainChain then old(Now()).(tip := node.Hash()) else old(Now())
      ensures isMainChain ==> node.workSum > old(bestHeader.Tip()).workSum
    {
      WorkIs(index.index, node);
      WorkIs(index.index, bestHeader.Tip());
      var tip := bestHeader.Tip();
      ParentWork(index.index, node, prevNode);
      if header.prev == tip.Hash() {
        CalcWorkPositive(header.bits);
        MoveTip(node);
        accepted := accepted + {node};
        return true;
      }
      if node.workSum <= tip.workSum {
        var fork := bestHeader.FindFork(node);
        ForkExists(index.index, bestHeader, node);
        assert fork != null;
        accepted := accepted + {node};
        return false;
      }
      MoveTip(node);
      accepted := accepted + {node};
      return true;
    }

    method MoveTip(node: BlockNode)
      requires Valid() && In(index.index, node) && node.workSum >= bestHeader.Tip().workSum
      modifies bestHeader
      ensures Valid() && bestHeader.Tip() == node && bestHeader.Contains(node)
      ensures Now() == old(Now()).(tip := node.Hash())
    {
      ghost var oldTip := bestHeader.Tip();
      EntryAt(index.index, node.Hash());
      assert oldTip.Linked();
      bestHeader.SetTip(node);
      forall h | h in index.index && index.index[h].parent == null
        ensures bestHeader.Contains(index.index[h])
      {
        EntryAt(index.index, h);
        SameRoot(index.index, oldTip, node, index.index[h]);
      }
    }

    /** Why a block is turned away before it gets a node. */
    function BlockGate(header: Header, verdicts: Verdicts): Option<Error>
      reads index, set h | h in index.index :: index.index[h]
    {
      if header.prev !in index.index then Some(PreviousBlockUnknown)
      else if KnownInvalid(index.index[header.prev].status) then Some(InvalidAncestorBlock)
      else if !verdicts.context then Some(ContextFailed)
      else if !verdicts.store then Some(StoreFailed)
      else None
    }

    lemma GateIs(header: Header)
      requires Valid()
      ensures Gate(header) == GateOf(Now(), header)
    {
      if BlockHash(header) in index.index {
        EntryAt(index.index, BlockHash(header));
        BranchIs(index.index, bestHeader.Tip(), index.index[BlockHash(header)]);
      }
    }

    method MaybeAcceptBlock(header: Header, verdicts: Verdicts, connect: Outcome) returns (r: Outcome)
      requires Valid()
      modifies index, if BlockHash(header) in index.index then {index.index[BlockHash(header)]} else {}
      ensures Valid() && bestHeader.nodes == old(bestHeader.nodes)
      ensures (Now(), r) == AfterBlock(old(Now()), header, verdicts, connect)
      ensures Keeps(old(index.index), index.index)
      ensures index.index.Keys <= old(index.index.Keys) + {BlockHash(header)}
      ensures BlockHash(header) in index.index && BlockHash(header) !in old(index.index) ==>
                fresh(index.index[BlockHash(header)])
      ensures old(BlockGate(header, verdicts)).Some? ==>
                r == Rejected(old(BlockGate(header, verdicts)).value) && index.index == old(index.index)
      ensures old(BlockGate(header, verdicts)).None? ==>
                && BlockHash(header) in index.index
                && index.index[BlockHash(header)].status
                   == (if BlockHash(header) in old(index.index)
                       then old(index.index[BlockHash(header)].status) | STATUS_DATA_STORED
                       else STATUS_DATA_STORED | STATUS_HEADER_STORED)
                && (r == connect || (r == Rejected(StoreFailed) && !verdicts.write))
    {
      var stop := BlockGate(header, verdicts);
      if stop.Some? {
        return Rejected(stop.value);
      }
      var prevNode := index.index[header.prev];
      EntryAt(index.index, header.prev);
      if BlockHash(header) in index.index {
        EntryAt(index.index, BlockHash(header));
        AddFlags(index.index[BlockHash(header)], STATUS_DATA_STORED);
      } else {
        var node := Insert(header, prevNode, STATUS_DATA_STORED | STATUS_HEADER_STORED);
      }
      var flushed := FlushIndex(verdicts.write);
      if !flushed {
        return Rejected(StoreFailed);
      }
      r := connect;
    }
  }

  /** Chain work depends on the hash alone. */
  lemma {:induction false} ChainWorkIs(n: BlockNode)
    requires n.WellFormed() && n.At(0).header.prev == ZeroHash
    ensures n.ChainWork() == Work(n.Hash())
    decreases n.height
  {
    if n.parent != null {
      ChainWorkIs(n.parent);
    }
  }

  lemma WorkIs(index: Index, n: BlockNode)
    requires IsTree(index) && AllWellFormed(index) && RootsAreFirst(index) && In(index, n)
    ensures n.workSum == Work(n.Hash())
  {
    EntryAt(index, n.Hash());
    ChainInIndex(index, n, 0);
    assert index[n.Hash()].WellFormed();
    ChainWorkIs(n);
  }

  /** Whether one node is on the branch of another depends on the hashes alone. */
  lemma {:induction false} BranchIs(index: Index, tip: BlockNode, n: BlockNode)
    requires IsTree(index) && AllWellFormed(index) && RootsAreFirst(index) && In(index, tip) && In(index, n)
    ensures tip.Linked() && n.Linked()
    ensures (n.height <= tip.height && tip.At(n.height) == n) <==> OnBranch(tip.Hash(), n.Hash())
    decreases tip.height
  {
    EntryAt(index, n.Hash());
    EntryAt(index, tip.Hash());
    assert index[tip.Hash()].WellFormed();
    if tip != n && tip.parent != null {
      assert IsEntry(index, tip.Hash(), index[tip.Hash()]);
      BranchIs(index, tip.parent, n);
    }
  }

  lemma EntryAt(index: Index, h: Hash)
    requires IsTree(index) && h in index
    ensures In(index, index[h]) && index[h].Hash() == h && index[h].Linked()
  {
    assert IsEntry(index, h, index[h]);
  }

  lemma InsertKeepsTree(index: Index, node: BlockNode)
    requires IsTree(index) && AllWellFormed(index) && RootsAreFirst(index)
    requires node.WellFormed() && node.parent != null && In(index, node.parent) && node.Hash() !in index
    ensures var after := index[node.Hash() := node];
      IsTree(after) && AllWellFormed(after) && RootsAreFirst(after) && Keeps(index, after)
  {
    var after := index[node.Hash() := node];
    forall h | h in after
      ensures IsEntry(after, h, after[h])
    {
      if h in index {
        assert IsEntry(index, h, index[h]);
      }
    }
  }

  lemma ParentWork(index: Index, node: BlockNode, prev: BlockNode)
    requires IsTree(index) && AllWellFormed(index) && RootsAreFirst(index)
    requires In(index, node) && In(index, prev) && node.header.prev == prev.Hash()
    ensures node.WellFormed() && node.parent == prev
    ensures node.workSum == prev.workSum + CalcWork(node.header.bits)
  {
    assert index[node.Hash()].WellFormed() && index[prev.Hash()].WellFormed();
    assert IsEntry(index, node.Hash(), index[node.Hash()]);
  }

  /** A node on the view's branch has no more work than its tip. */
  lemma OnBranchNoMoreWork(view: ChainView, n: BlockNode)
    requires view.Valid() && view.Contains(n) && view.Tip().WellFormed()
    ensures n.workSum <= view.Tip().workSum
  {
    WorkGrows(view.Tip(), n.height);
  }

  lemma {:induction false} WorkGrows(n: BlockNode, h: nat)
    requires n.WellFormed() && h <= n.height
    ensures n.At(h).workSum <= n.workSum
    decreases n.height
  {
    if h < n.height {
      WorkGrows(n.parent, h);
    }
  }

  /** All chains of the index start at the one root that a view contains. */
  lemma SameRoot(index: Index, oldTip: BlockNode, newTip: BlockNode, root: BlockNode)
    requires IsTree(index) && In(index, oldTip) && In(index, newTip) && oldTip.Linked() && newTip.Linked()
    requires root.Linked() && root.parent == null
    requires forall h | h in index && index[h].parent == null :: oldTip.At(0) == index[h]
    requires In(index, root)
    ensures newTip.At(0) == root
  {
    ChainInIndex(index, newTip, 0);
  }

  /** A view of indexed nodes does not contain a node that was not indexed. */
  lemma FreshNotContained(view: ChainView, before: Index, n: BlockNode)
    requires IsTree(before) && view.Valid() && view.nodes != [] && In(before, view.Tip()) && n.Hash() !in before
    ensures !view.Contains(n)
  {
    if view.Contains(n) {
      ChainInIndex(before, view.Tip(), n.height);
    }
  }

  lemma ForkExists(index: Index, view: ChainView, n: BlockNode)
    requires IsTree(index) && ViewOf(index, view) && In(index, n) && n.Linked()
    ensures view.Contains(n.At(0))
  {
    ChainInIndex(index, n, 0);
    assert n.At(0).parent == null;
  }

  // ---------- whole runs ----------

  /** The tip moves only to a node with strictly more work, so on a tie the first one seen stays. */
  ghost predicate OnlyUp(tips: seq<BlockNode>)
  {
    forall i :: 0 <= i < |tips| - 1 ==> tips[i] == tips[i + 1] || tips[i].workSum < tips[i + 1].workSum
  }

  /** Every header whose call returned without an error is indexed and has no more work than the tip. */
  ghost predicate TipDominates(ops: seq<Op>, outcomes: seq<Outcome>, index: Index, tip: BlockNode)
    requires |ops| == |outcomes|
  {
    forall i :: 0 <= i < |ops| && ops[i].AcceptHeader? && outcomes[i].Accepted? ==>
      BlockHash(ops[i].header) in index && index[BlockHash(ops[i].header)].workSum <= tip.workSum
  }

  lemma StillUp(tips: seq<BlockNode>, tip: BlockNode)
    requires |tips| > 0 && OnlyUp(tips)
    requires tips[|tips| - 1] == tip || tips[|tips| - 1].workSum < tip.workSum
    ensures OnlyUp(tips + [tip])
  {
  }

  lemma StillDominates(ops: seq<Op>, outcomes: seq<Outcome>, before: Index, tip: BlockNode,
                       op: Op, outcome: Outcome, after: Index, newTip: BlockNode)
    requires |ops| == |outcomes| && TipDominates(ops, outcomes, before, tip)
    requires Keeps(before, after) && tip.workSum <= newTip.workSum
    requires op.AcceptHeader? && outcome.Accepted? ==>
               BlockHash(op.header) in after && after[BlockHash(op.header)].workSum <= newTip.workSum
    ensures TipDominates(ops + [op], outcomes + [outcome], after, newTip)
  {
    forall i | 0 <= i < |ops| && ops[i].AcceptHeader? && outcomes[i].Accepted?
      ensures BlockHash(ops[i].header) in after && after[BlockHash(ops[i].header)].workSum <= newTip.workSum
    {
    }
  }

  /** Any interleaving of header acceptance, block acceptance and status changes. */
  method Run(chain: BlockChain, ops: seq<Op>) returns (outcomes: seq<Outcome>, ghost tips: seq<BlockNode>)
    requires chain.Valid()
    modifies chain`accepted, chain.index, chain.bestHeader, set h | h in chain.index.index :: chain.index.index[h]
    ensures chain.Valid() && chain.Now() == After(chain.powLimit, old(chain.Now()), ops)
    ensures outcomes == Outcomes(chain.powLimit, old(chain.Now()), ops)
    ensures Keeps(old(chain.index.index), chain.index.index)
    ensures forall h | h in chain.index.index && h !in old(chain.index.index) :: fresh(chain.index.index[h])
    ensures |outcomes| == |ops| && TipDominates(ops, outcomes, chain.index.index, chain.bestHeader.Tip())
    ensures |tips| == |ops| + 1 && OnlyUp(tips)
    ensures tips[0] == old(chain.bestHeader.Tip()) && tips[|ops|] == chain.bestHeader.Tip()
  {
    if ops == [] {
      return [], [chain.bestHeader.Tip()];
    }
    var front, op := ops[..|ops| - 1], ops[|ops| - 1];
    assert ops == front + [op];
    outcomes, tips := Run(chain, front);
    ghost var before := chain.index.index;
    ghost var tip: BlockNode := chain.bestHeader.Tip();
    ghost var now := chain.Now();
    var outcome := Step(chain, op);
    RunSnoc(chain.powLimit, old(chain.Now()), front, op, now, chain.Now(), outcomes, outcome);
    ghost var newTip: BlockNode := chain.bestHeader.Tip();
    StillDominates(front, outcomes, before, tip, op, outcome, chain.index.index, newTip);
    StillUp(tips, newTip);
    outcomes, tips := outcomes + [outcome], tips + [newTip];
  }

  /** One call of a run. */
  method Step(chain: BlockChain, op: Op) returns (outcome: Outcome)
    requires chain.Valid()
    modifies chain`accepted, chain.index, chain.bestHeader, set h | h in chain.index.index :: chain.index.index[h]
    ensures chain.Valid() && (chain.Now(), outcome) == Next(chain.powLimit, old(chain.Now()), op)
    ensures Keeps(old(chain.index.index), chain.index.index)
    ensures forall h | h in chain.index.index && h !in old(chain.index.index) :: fresh(chain.index.index[h])
    ensures op.AcceptHeader? && outcome.Accepted? ==>
              && BlockHash(op.header) in chain.index.index
              && chain.index.index[BlockHash(op.header)].workSum <= chain.bestHeader.Tip().workSum
    ensures chain.bestHeader.Tip() != old(chain.bestHeader.Tip()) ==>
              chain.bestHeader.Tip().workSum > old(chain.bestHeader.Tip()).workSum
  {
    match op
    case AcceptHeader(header, verdicts) =>
      outcome := chain.MaybeAcceptBlockHeader(header, verdicts);
    case AcceptBlock(header, verdicts, connect) =>
      outcome := chain.MaybeAcceptBlock(header, verdicts, connect);
    case SetFlags(hash, flags) =>
      if hash in chain.index.index {
        EntryAt(chain.index.index, hash);
        chain.AddFlags(chain.index.index[hash], flags);
      }
      outcome := Accepted(false);
  }
}
