/**
 * A flat view of one branch of the block tree, from the first block to a tip,
 * that is moved between branches by rewriting only the part that differs.
 */
module ChainViews {
  import opened Basics
  import opened BlockNodes

  /** The branch ending in tip, lowest height first. */
  ghost function Branch(tip: BlockNode): (s: seq<BlockNode?>)
    requires tip.Linked()
    ensures |s| == tip.height + 1
    ensures forall i :: 0 <= i <= tip.height ==> s[i] == tip.At(i)
  {
    seq(tip.height + 1, i requires 0 <= i <= tip.height => tip.At(i))
  }

  /** Writes the branch of `node` from the top down, stopping where the view already agrees with it. */
  method WriteBranch(node: BlockNode, resized: seq<BlockNode?>, ghost was: seq<BlockNode?>)
    returns (view: seq<BlockNode?>)
    requires node.Linked() && |resized| == node.height + 1
    requires was == [] || IsBranch(was)
    requires forall i :: 0 <= i < |resized| ==> resized[i] == if i < |was| then was[i] else null
    ensures view == Branch(node)
  {
    view := resized;
    var n: BlockNode? := node;
    while n != null && view[n.height] != n
      invariant |view| == |resized|
      invariant n != null ==> n.Linked() && n.height <= node.height && n == node.At(n.height)
      invariant n != null ==> forall i :: 0 <= i <= n.height ==> view[i] == resized[i]
      invariant forall i :: (if n == null then 0 else n.height + 1) <= i < |view| ==> view[i] == node.At(i)
      decreases if n == null then -1 else n.height as int
    {
      view := view[n.height := n];
      if n.parent != null { AtAt(node, n.height, n.height - 1); }
      n := n.parent;
    }
    if n != null {
      SharedPrefix(was, node, n);
    }
  }

  ghost predicate IsBranch(s: seq<BlockNode?>)
  {
    |s| > 0 && s[|s| - 1] != null && s[|s| - 1].Linked() && s == Branch(s[|s| - 1])
  }

  /** Nodes at consecutive heights, each named as its predecessor by the next one's header. */
  ghost predicate Chained(nodes: seq<BlockNode?>)
  {
    forall i {:trigger nodes[i]} :: 0 <= i < |nodes| ==>
      && nodes[i] != null && nodes[i].height == i
      && (i > 0 ==> nodes[i - 1] != null && nodes[i].header.prev == nodes[i - 1].Hash())
  }

  lemma BranchIsChained(tip: BlockNode)
    requires tip.WellFormed()
    ensures Chained(Branch(tip))
  {
    forall i | 0 <= i <= tip.height
      ensures tip.At(i).height == i && (i > 0 ==> tip.At(i).header.prev == tip.At(i - 1).Hash())
    {
      BranchNode(tip, i);
    }
  }

  lemma BranchNode(tip: BlockNode, i: nat)
    requires tip.WellFormed() && i <= tip.height
    ensures tip.At(i).height == i && (i > 0 ==> tip.At(i).header.prev == tip.At(i - 1).Hash())
  {
    WellFormedAt(tip, i);
    if i > 0 {
      AtAt(tip, i, i - 1);
    }
  }

  /** One step down a branch. */
  lemma ParentAt(node: BlockNode, n: BlockNode)
    requires node.Linked() && n.Linked() && n.height <= node.height && n == node.At(n.height)
    ensures if n.parent == null then n.height == 0
            else n.parent.Linked() && n.parent.height == n.height - 1 && n.parent == node.At(n.height - 1)
  {
    if n.parent != null {
      AtAt(node, n.height, n.height - 1);
    }
  }

  ghost predicate HashesFrom(nodes: seq<BlockNode?>, hashes: seq<Hash>, start: int)
  {
    && 0 <= start && (hashes == [] || start + |hashes| <= |nodes|)
    && forall k :: 0 <= k < |hashes| ==> nodes[start + k] != null && hashes[k] == nodes[start + k].Hash()
  }

  lemma OneMoreHash(nodes: seq<BlockNode?>, hashes: seq<Hash>, start: int)
    requires Chained(nodes) && HashesFrom(nodes, hashes, start) && start + |hashes| < |nodes|
    ensures nodes[start + |hashes|] != null
    ensures HashesFrom(nodes, hashes + [nodes[start + |hashes|].Hash()], start)
  {
  }

  class ChainView {
    var nodes: seq<BlockNode?>

    /** The view is a whole branch: every height holds the tip's ancestor at that height. */
    ghost predicate Valid()
      reads this
    {
      nodes == [] || IsBranch(nodes)
    }

    constructor ()
      ensures Valid() && nodes == []
    {
      nodes := [];
    }

    function Tip(): BlockNode?
      reads this
    {
      if |nodes| == 0 then null else nodes[|nodes| - 1]
    }

    function NodeByHeight(height: int): BlockNode?
      reads this
    {
      if height < 0 || height >= |nodes| then null else nodes[height]
    }

    predicate Contains(node: BlockNode)
      reads this
    {
      NodeByHeight(node.height) == node
    }

    /** Whatever the view showed before, afterwards it is exactly the branch of the new tip. */
    method SetTip(node: BlockNode?)
      requires Valid() && (node != null ==> node.Linked())
      modifies this
      ensures Valid()
      ensures Tip() == node
      ensures nodes == if node == null then [] else Branch(node)
    {
      if node == null {
        nodes := [];
        return;
      }
      ghost var was := nodes;
      var needed := node.height + 1;
      if |nodes| < needed {
        nodes := nodes + seq(needed - |nodes|, _ => null);
      } else {
        nodes := nodes[..needed];
      }
      nodes := WriteBranch(node, nodes, was);
    }

    /** The hashes of the view from one height up to another, as far as it goes.  None stands for heights
        that make no range. */
    method HeightRange(startHeight: int, endHeight: int) returns (hashes: Option<seq<Hash>>)
      requires Valid() && nodes != [] && Tip().WellFormed()
      ensures Chained(nodes)
      ensures hashes.None? <==> startHeight < 0 || endHeight < startHeight
      ensures hashes.Some? ==> HashesFrom(nodes, hashes.value, startHeight)
      ensures hashes.Some? ==>
        |hashes.value| ==
          if startHeight >= |nodes| then 0 else (if endHeight > |nodes| then |nodes| else endHeight) - startHeight
    {
      BranchIsChained(Tip());
      if startHeight < 0 || endHeight < startHeight {
        return None;
      }
      var latestHeight := Tip().height;
      if startHeight == endHeight || startHeight > latestHeight {
        return Some([]);
      }
      var end := if endHeight > latestHeight + 1 then latestHeight + 1 else endHeight;
      var list: seq<Hash> := [];
      for i := startHeight to end
        invariant |list| == i - startHeight && HashesFrom(nodes, list, startHeight)
      {
        OneMoreHash(nodes, list, startHeight);
        list := list + [nodes[i].Hash()];
      }
      hashes := Some(list);
    }

    /** The last block a node's chain has in common with the view, or null when the view is empty or unrelated. */
    method FindFork(node: BlockNode?) returns (fork: BlockNode?)
      requires Valid() && (node != null ==> node.WellFormed())
      ensures fork != null ==>
                && node != null && fork.height <= node.height && fork == node.At(fork.height)
                && Contains(fork)
                && forall h :: fork.height < h <= node.height ==> !Contains(node.At(h))
      ensures fork == null && node != null ==> forall h :: 0 <= h <= node.height ==> !Contains(node.At(h))
    {
      if node == null {
        return null;
      }
      fork := node;
      var chainHeight := |nodes| - 1;
      if node.height > chainHeight {
        ghost var steps;
        fork, steps := node.Ancestor(chainHeight);
      }
      while fork != null && !Contains(fork)
        invariant fork != null ==> fork.Linked() && fork.height <= node.height && fork == node.At(fork.height)
        invariant forall h :: (if fork == null then -1 else fork.height) < h <= node.height ==> !Contains(node.At(h))
        decreases if fork == null then -1 else fork.height as int
      {
        ParentAt(node, fork);
        fork := fork.parent;
      }
    }
  }

  /** If an old branch agrees with a new one at one height, it agrees with it below. */
  lemma SharedPrefix(was: seq<BlockNode?>, node: BlockNode, n: BlockNode)
    requires node.Linked() && n.Linked() && n.height <= node.height && n == node.At(n.height)
    requires IsBranch(was) && n.height < |was| && was[n.height] == n
    ensures forall i :: 0 <= i <= n.height ==> was[i] == node.At(i)
  {
    forall i | 0 <= i <= n.height
      ensures was[i] == node.At(i)
    {
      AtAt(was[|was| - 1], n.height, i);
      AtAt(node, n.height, i);
    }
  }
}
