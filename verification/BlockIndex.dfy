/**
 * The in-memory block index: a tree of block nodes keyed by hash, and the
 * search for the tips of all branches other than a given one.
 */
module BlockIndexes {
  import opened BlockNodes
  import opened ChainViews

  type Index = map<Hash, BlockNode>

  /** Every entry sits under its own hash and its parent is an entry too. */
  ghost predicate IsTree(index: Index)
  {
    forall h {:trigger IsEntry(index, h, index[h])} | h in index :: IsEntry(index, h, index[h])
  }

  ghost predicate IsEntry(index: Index, h: Hash, n: BlockNode)
  {
    && n.Hash() == h && n.Linked()
    && (n.parent != null ==> n.parent.Hash() in index && index[n.parent.Hash()] == n.parent)
  }

  ghost predicate In(index: Index, n: BlockNode)
  {
    n.Hash() in index && index[n.Hash()] == n
  }

  /** Off the branch shown by the view. */
  ghost predicate Off(index: Index, view: ChainView, n: BlockNode)
    reads view
  {
    In(index, n) && !view.Contains(n)
  }

  ghost predicate Childless(index: Index, n: BlockNode)
  {
    forall c | c in index :: index[c].parent != n
  }

  /** The view is a branch of this tree that starts at its only root. */
  ghost predicate ViewOf(index: Index, view: ChainView)
    reads view
  {
    && view.Valid()
    && forall h | h in index && index[h].parent == null :: view.Contains(index[h])
  }

  /** A child of a node off the branch is off the branch. */
  lemma ChildOff(index: Index, view: ChainView, c: BlockNode, n: BlockNode)
    requires ViewOf(index, view) && n.Linked() && c.Linked() && c.parent == n
    ensures !view.Contains(n) ==> !view.Contains(c)
  {
    if view.Contains(c) {
      var tip := view.Tip();
      AtAt(tip, c.height, n.height);
      assert c.At(n.height) == n;
    }
  }

  class BlockIndex {
    var index: Index
    var dirty: set<BlockNode>
    /** The rows of the database, each with the status it was written with. */
    var rows: map<Hash, Status>

    constructor ()
      ensures index == map[] && dirty == {} && rows == map[]
    {
      index := map[];
      dirty := {};
      rows := map[];
    }

    /** The node is filed but not marked dirty, as while the index is being set up. */
    method FileNode(node: BlockNode)
      modifies `index
      ensures index == old(index)[node.Hash() := node]
    {
      index := index[node.Hash() := node];
    }

    method AddNode(node: BlockNode)
      modifies this
      ensures index == old(index)[node.Hash() := node]
      ensures dirty == old(dirty) + {node} && rows == old(rows)
    {
      FileNode(node);
      dirty := dirty + {node};
    }

    method SetStatusFlags(node: BlockNode, flags: Status)
      modifies this`dirty, node`status
      ensures node.status == old(node.status) | flags
      ensures dirty == old(dirty) + {node}
    {
      node.status := node.status | flags;
      dirty := dirty + {node};
    }

    /** The rows of those of the given nodes that are written. */
    ghost function Written(nodes: set<BlockNode>): map<Hash, Status>
      reads `index, nodes`status
    {
      map h | h in index && index[h] in nodes && !HeaderOnly(index[h].status) :: index[h].status
    }

    /**
     * Writes the dirty nodes; header-only nodes are never written, so nothing can fail when no dirty node has data.
     */
    method FlushToDB(writeOk: bool) returns (ok: bool)
      requires IsTree(index) && forall n :: n in dirty ==> In(index, n)
      modifies `dirty, `rows
      ensures ok <==> writeOk || forall n | n in old(dirty) :: !HasData(n.status)
      ensures dirty == if ok then {} else old(dirty)
      ensures rows == if ok && exists n :: n in old(dirty) && HasData(n.status) then old(rows) + Written(old(dirty))
                      else old(rows)
    {
      var needsWrite := exists n :: n in dirty && HasData(n.status);
      if !needsWrite {
        dirty := {};
        return true;
      }
      if !writeOk {
        return false;
      }
      StoreNodes();
      dirty := {};
      ok := true;
    }

    lemma WrittenMore(nodes: set<BlockNode>, node: BlockNode)
      requires IsTree(index) && In(index, node)
      ensures Written(nodes + {node})
           == if HeaderOnly(node.status) then Written(nodes) else Written(nodes)[node.Hash() := node.status]
    {
      forall h | h in index && index[h] == node
        ensures h == node.Hash()
      {
        assert IsEntry(index, h, index[h]);
      }
    }

    /** Every dirty node that is not header-only gets its row. */
    method StoreNodes()
      requires IsTree(index) && forall n :: n in dirty ==> In(index, n)
      modifies `rows
      ensures rows == old(rows) + Written(dirty)
    {
      var todo := dirty;
      while todo != {}
        invariant todo <= dirty && rows == old(rows) + Written(dirty - todo)
      {
        var node :| node in todo;
        if !HeaderOnly(node.status) {
          rows := rows[node.Hash() := node.status];
        }
        WrittenMore(dirty - todo, node);
        assert dirty - (todo - {node}) == dirty - todo + {node};
        todo := todo - {node};
      }
      assert dirty - todo == dirty;
    }

    /** The first pass: every node off the branch, and every parent of one. */
    method Orphans(bestChain: ChainView) returns (orphans: Index, orphanParent: Index)
      requires IsTree(index) && ViewOf(index, bestChain)
      ensures forall h :: h in orphans <==> h in index && !bestChain.Contains(index[h])
      ensures forall h :: h in orphans ==> orphans[h] == index[h]
      ensures forall h :: h in orphanParent <==> ParentOfSome(index, orphans, h)
    {
      orphans, orphanParent := map[], map[];
      var todo := index.Keys;
      while todo != {}
        invariant todo <= index.Keys
        invariant forall h :: h in orphans <==> h in index && h !in todo && !bestChain.Contains(index[h])
        invariant forall h :: h in orphans ==> orphans[h] == index[h]
        invariant forall h :: h in orphanParent <==> ParentOfSome(index, orphans, h)
      {
        var hash :| hash in todo;
        var node := index[hash];
        if !bestChain.Contains(node) {
          ghost var was := orphans;
          assert node.parent != null;
          orphans := orphans[hash := node];
          orphanParent := orphanParent[node.parent.Hash() := node.parent];
          ParentOfOneMore(index, was, hash);
        }
        todo := todo - {hash};
      }
    }

    /** All tips off the branch, each once: the nodes off it that no other node of the index has as its parent. */
    method InactiveTips(bestChain: ChainView) returns (tips: seq<BlockNode>)
      requires IsTree(index) && ViewOf(index, bestChain)
      ensures forall i, j :: 0 <= i < j < |tips| ==> tips[i] != tips[j]
      ensures forall n :: n in tips <==> Off(index, bestChain, n) && Childless(index, n)
    {
      var orphans, orphanParent := Orphans(bestChain);
      assert forall h :: h in orphans ==> IsEntry(index, h, orphans[h]);
      tips := Unclaimed(orphans, orphanParent);
      forall n
        ensures n in tips <==> Off(index, bestChain, n) && Childless(index, n)
      {
        if Off(index, bestChain, n) {
          NoOrphanChild(index, bestChain, orphans, orphanParent, n);
        }
      }
    }
  }

  /** The second pass: the orphans that are no orphan's parent. */
  method Unclaimed(orphans: Index, orphanParent: Index) returns (tips: seq<BlockNode>)
    requires forall h :: h in orphans ==> orphans[h].Hash() == h
    ensures forall i, j :: 0 <= i < j < |tips| ==> tips[i] != tips[j]
    ensures forall n :: n in tips <==> In(orphans, n) && n.Hash() !in orphanParent
  {
    var parents := orphanParent;
    tips := [];
    var todo := orphans.Keys;
    while todo != {}
      invariant todo <= orphans.Keys
      invariant forall h :: h in todo ==> (h in parents <==> h in orphanParent)
      invariant forall n :: n in tips <==> In(orphans, n) && n.Hash() !in todo && n.Hash() !in orphanParent
      invariant forall i, j :: 0 <= i < j < |tips| ==> tips[i] != tips[j]
    {
      var hash :| hash in todo;
      if hash !in parents {
        tips := tips + [orphans[hash]];
      }
      parents := parents - {hash};
      todo := todo - {hash};
    }
  }

  ghost predicate ParentOfSome(index: Index, orphans: Index, p: Hash)
  {
    exists c :: c in orphans && HasParent(index, c, p)
  }

  lemma ParentOfOneMore(index: Index, orphans: Index, hash: Hash)
    requires hash in index && index[hash].parent != null
    ensures forall p :: ParentOfSome(index, orphans[hash := index[hash]], p)
                        <==> ParentOfSome(index, orphans, p) || p == index[hash].parent.Hash()
  {
    var more := orphans[hash := index[hash]];
    forall p
      ensures ParentOfSome(index, more, p) <==> ParentOfSome(index, orphans, p) || p == index[hash].parent.Hash()
    {
      if ParentOfSome(index, orphans, p) {
        var c :| c in orphans && HasParent(index, c, p);
        assert c in more;
      }
      if p == index[hash].parent.Hash() {
        assert hash in more && HasParent(index, hash, p);
      }
    }
  }

  ghost predicate HasParent(index: Index, c: Hash, p: Hash)
  {
    c in index && index[c].parent != null && index[c].parent.Hash() == p
  }

  /** For a node off the branch, having no child off the branch is having no child at all. */
  lemma NoOrphanChild(index: Index, view: ChainView, orphans: Index, parents: map<Hash, BlockNode>, n: BlockNode)
    requires IsTree(index) && ViewOf(index, view) && Off(index, view, n)
    requires forall h :: h in orphans <==> h in index && !view.Contains(index[h])
    requires forall h :: h in parents <==> ParentOfSome(index, orphans, h)
    ensures n.Hash() !in parents <==> Childless(index, n)
  {
    assert IsEntry(index, n.Hash(), n);
    if c :| c in index && index[c].parent == n {
      assert IsEntry(index, c, index[c]);
      ChildOff(index, view, index[c], n);
      assert HasParent(index, c, n.Hash());
    }
    if c :| c in orphans && HasParent(index, c, n.Hash()) {
      assert IsEntry(index, c, index[c]);
    }
  }

  // ---------- every node off the branch lies under some tip ----------

  ghost function Above(index: Index, height: nat): set<Hash>
  {
    set h | h in index && index[h].height > height
  }

  /** Any node off the branch is one of the inactive tips or an ancestor of one. */
  lemma {:induction false} UnderSomeTip(index: Index, view: ChainView, n: BlockNode) returns (tip: BlockNode)
    requires IsTree(index) && ViewOf(index, view) && Off(index, view, n)
    ensures Off(index, view, tip) && Childless(index, tip)
    ensures tip.Linked() && n.height <= tip.height && tip.At(n.height) == n
    decreases |Above(index, n.height)|
  {
    assert IsEntry(index, n.Hash(), n);
    if Childless(index, n) {
      tip := n;
    } else {
      var c :| c in index && index[c].parent == n;
      assert IsEntry(index, c, index[c]);
      ChildOff(index, view, index[c], n);
      assert c in Above(index, n.height) && c !in Above(index, index[c].height);
      SubsetSize(Above(index, index[c].height), Above(index, n.height), c);
      tip := UnderSomeTip(index, view, index[c]);
      AtAt(tip, index[c].height, n.height);
    }
  }

  lemma {:induction false} SubsetSize<T>(a: set<T>, b: set<T>, x: T)
    requires a <= b && x in b && x !in a
    ensures |a| < |b|
  {
    SubsetLe(a, b - {x});
  }

  lemma {:induction false} SubsetLe<T>(a: set<T>, b: set<T>)
    requires a <= b
    ensures |a| <= |b|
  {
    if a != {} {
      var x :| x in a;
      SubsetLe(a - {x}, b - {x});
    }
  }
}
