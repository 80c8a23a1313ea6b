/**
 * Merkle paths of the airdrop and faucet trees.  Of the hash function only the
 * length of its output is assumed, and that it does not collide on the finitely
 * many byte strings that building the tree and checking the proof hash.
 */
module AirdropMerkle {
  import opened Basics
  import opened Wire
  import opened AirdropProofs

  type Hasher = Bytes -> Bytes

  ghost predicate Sized(H: Hasher)
  {
    forall x: Bytes {:trigger H(x)} :: |H(x)| == 32
  }

  /** The hash function tells the given byte strings apart. */
  ghost predicate NoCollision(H: Hasher, inputs: set<Bytes>)
  {
    forall x, y :: x in inputs && y in inputs && H(x) == H(y) ==> x == y
  }

  const ZERO: Bytes := [
    0, 0, 0, 0, 0, 0, 0, 0, 0, 0, 0, 0, 0, 0, 0, 0,
    0, 0, 0, 0, 0, 0, 0, 0, 0, 0, 0, 0, 0, 0, 0, 0]

  function LeafPreimage(data: Bytes): Bytes
  {
    [0] + data
  }

  function NodePreimage(left: Bytes, right: Bytes): Bytes
  {
    [1] + left + right
  }

  // ---------- deriving a root ----------

  /** One level up: the sibling goes to the side the index bit says. */
  function StepPreimage(node: Bytes, sibling: Bytes, index: nat): Bytes
  {
    if index % 2 == 1 then NodePreimage(sibling, node) else NodePreimage(node, sibling)
  }

  function StepUp(H: Hasher, node: Bytes, sibling: Bytes, index: nat): Bytes
  {
    H(StepPreimage(node, sibling, index))
  }

  function DeriveFrom(H: Hasher, node: Bytes, path: seq<Bytes>, index: nat): Bytes
    decreases |path|
  {
    if |path| == 0 then
      if index != 0 then ZERO else node
    else if index % 2 == 1 && path[0] == H([]) then ZERO
    else DeriveFrom(H, StepUp(H, node, path[0], index), path[1..], index / 2)
  }

  /** The root a leaf, a path and an index lead to; all zeros when they cannot belong together. */
  function Derive(H: Hasher, leaf: Bytes, path: seq<Bytes>, index: nat): Bytes
  {
    DeriveFrom(H, H(LeafPreimage(leaf)), path, index)
  }

  method DeriveMerkleRoot(H: Hasher, leaf: Bytes, path: seq<Bytes>, index: nat) returns (root: Bytes)
    ensures root == Derive(H, leaf, path, index)
  {
    var sentinel := H([]);
    root := H([0] + leaf);
    var left := index;
    for i := 0 to |path|
      invariant DeriveFrom(H, root, path[i..], left) == Derive(H, leaf, path, index)
    {
      assert path[i..][1..] == path[i + 1..];
      if left % 2 == 1 && path[i] == sentinel {
        return ZERO;
      }
      if left % 2 == 1 {
        root := H([1] + path[i] + root);
      } else {
        root := H([1] + root + path[i]);
      }
      left := left / 2;
    }
    if left != 0 {
      root := ZERO;
    }
  }

  // ---------- trees ----------

  /** A tree whose missing right branches are padding. */
  datatype Tree = Pad | Leaf(data: Bytes) | Node(left: Tree, right: Tree)

  function Preimage(H: Hasher, t: Tree): Bytes
    decreases t, 0
  {
    match t
    case Pad => []
    case Leaf(data) => LeafPreimage(data)
    case Node(l, r) => NodePreimage(TreeHash(H, l), TreeHash(H, r))
  }

  function TreeHash(H: Hasher, t: Tree): Bytes
    decreases t, 1
  {
    H(Preimage(H, t))
  }

  /** The level above: neighbours are joined, a last one without a neighbour is joined with padding. */
  function Up(nodes: seq<Tree>): (up: seq<Tree>)
    ensures |up| == (|nodes| + 1) / 2
    ensures forall q :: 0 <= q < |up| ==>
              up[q] == Node(nodes[2 * q], if 2 * q + 1 < |nodes| then nodes[2 * q + 1] else Pad)
  {
    seq((|nodes| + 1) / 2, q requires 0 <= q < (|nodes| + 1) / 2 =>
      Node(nodes[2 * q], if 2 * q + 1 < |nodes| then nodes[2 * q + 1] else Pad))
  }

  function Build(nodes: seq<Tree>): Tree
    requires |nodes| > 0
    decreases |nodes|
  {
    if |nodes| == 1 then nodes[0] else Build(Up(nodes))
  }

  function Depth(n: nat): nat
  {
    if n <= 1 then 0 else 1 + Depth((n + 1) / 2)
  }

  function Leaves(leaves: seq<Bytes>): (nodes: seq<Tree>)
    ensures |nodes| == |leaves| && forall i :: 0 <= i < |leaves| ==> nodes[i] == Leaf(leaves[i])
  {
    seq(|leaves|, i requires 0 <= i < |leaves| => Leaf(leaves[i]))
  }

  function RootOf(H: Hasher, leaves: seq<Bytes>): Bytes
    requires |leaves| > 0
  {
    TreeHash(H, Build(Leaves(leaves)))
  }

  // ---------- climbing without the checks ----------

  function Shift(i: nat, k: nat): nat
  {
    if k == 0 then i else Shift(i / 2, k - 1)
  }

  function Climb(H: Hasher, node: Bytes, path: seq<Bytes>, index: nat): Bytes
    decreases |path|
  {
    if |path| == 0 then node else Climb(H, StepUp(H, node, path[0], index), path[1..], index / 2)
  }

  /** No sibling on the left is the padding hash. */
  predicate NoPadOnLeft(H: Hasher, path: seq<Bytes>, index: nat)
    decreases |path|
  {
    |path| == 0 || (!(index % 2 == 1 && path[0] == H([])) && NoPadOnLeft(H, path[1..], index / 2))
  }

  /** Deriving is climbing, if no check fails on the way. */
  lemma {:induction false} DeriveIsClimb(H: Hasher, node: Bytes, path: seq<Bytes>, index: nat)
    ensures DeriveFrom(H, node, path, index)
         == if NoPadOnLeft(H, path, index) && Shift(index, |path|) == 0 then Climb(H, node, path, index) else ZERO
    decreases |path|
  {
    if |path| > 0 {
      DeriveIsClimb(H, StepUp(H, node, path[0], index), path[1..], index / 2);
    }
  }

  /** The last step of a climb uses the last sibling and the highest bit. */
  lemma {:induction false} ClimbLast(H: Hasher, node: Bytes, path: seq<Bytes>, index: nat)
    requires |path| > 0
    ensures var m := |path| - 1;
      Climb(H, node, path, index) == StepUp(H, Climb(H, node, path[..m], index), path[m], Shift(index, m))
    decreases |path|
  {
    if |path| > 1 {
      ClimbLast(H, StepUp(H, node, path[0], index), path[1..], index / 2);
      assert path[1..][..|path| - 2] == path[..|path| - 1][1..];
    }
  }

  /** What a climb hashes. */
  ghost function ClimbInputs(H: Hasher, node: Bytes, path: seq<Bytes>, index: nat): set<Bytes>
    decreases |path|
  {
    if |path| == 0 then {}
    else
      {StepPreimage(node, path[0], index)} + ClimbInputs(H, StepUp(H, node, path[0], index), path[1..], index / 2)
  }

  lemma {:induction false} ClimbInputsLast(H: Hasher, node: Bytes, path: seq<Bytes>, index: nat)
    requires |path| > 0
    ensures var m := |path| - 1;
      && ClimbInputs(H, node, path[..m], index) <= ClimbInputs(H, node, path, index)
      && StepPreimage(Climb(H, node, path[..m], index), path[m], Shift(index, m)) in ClimbInputs(H, node, path, index)
    decreases |path|
  {
    if |path| > 1 {
      ClimbInputsLast(H, StepUp(H, node, path[0], index), path[1..], index / 2);
      assert path[1..][..|path| - 2] == path[..|path| - 1][1..];
    }
  }

  lemma {:induction false} ClimbSize(H: Hasher, node: Bytes, path: seq<Bytes>, index: nat)
    requires Sized(H) && |node| == 32
    ensures |Climb(H, node, path, index)| == 32
    decreases |path|
  {
    if |path| > 0 {
      ClimbSize(H, StepUp(H, node, path[0], index), path[1..], index / 2);
    }
  }

  lemma NodePreimageInjective(a: Bytes, b: Bytes, c: Bytes, d: Bytes)
    requires |a| == |c| && NodePreimage(a, b) == NodePreimage(c, d)
    ensures a == c && b == d
  {
    var x := NodePreimage(a, b);
    assert x[1..|a| + 1] == a && x[1..|a| + 1] == c;
    assert x[|a| + 1..] == b && x[|a| + 1..] == d;
  }

  // ---------- where an index leads in a tree ----------

  /** What hashing a tree hashes. */
  ghost function TreeInputs(H: Hasher, t: Tree): set<Bytes>
  {
    {Preimage(H, t)} + match t
                       case Node(l, r) => TreeInputs(H, l) + TreeInputs(H, r)
                       case _ => {}
  }

  function Child(t: Tree, right: bool): Tree
    requires t.Node?
  {
    if right then t.right else t.left
  }

  /** The subtree reached from the top by the m lowest bits of the index, highest first. */
  function Follow(t: Tree, index: nat, m: nat): Option<Tree>
    decreases m
  {
    if m == 0 then Some(t)
    else if !t.Node? then None
    else Follow(Child(t, Shift(index, m - 1) % 2 == 1), index, m - 1)
  }

  /** The hashes beside that way, lowest first. */
  function PathTo(H: Hasher, t: Tree, index: nat, m: nat): seq<Bytes>
    decreases m
  {
    if m == 0 || !t.Node? then []
    else
      var right := Shift(index, m - 1) % 2 == 1;
      PathTo(H, Child(t, right), index, m - 1) + [TreeHash(H, Child(t, !right))]
  }

  /** The hash of an inner node is that of one step from either child. */
  lemma StepFromChild(H: Hasher, t: Tree, node: Bytes, sibling: Bytes, index: nat)
    requires Sized(H) && |node| == |sibling| == 32
    requires StepPreimage(node, sibling, index) == Preimage(H, t)
    ensures t.Node?
    ensures node == TreeHash(H, Child(t, index % 2 == 1)) && sibling == TreeHash(H, Child(t, index % 2 == 0))
  {
    assert Preimage(H, t)[0] == 1;
    if index % 2 == 1 {
      NodePreimageInjective(sibling, node, TreeHash(H, t.left), TreeHash(H, t.right));
    } else {
      NodePreimageInjective(node, sibling, TreeHash(H, t.left), TreeHash(H, t.right));
    }
  }

  /** A climb that ends in the hash of a tree started at the leaf its index leads to,
      and its path is the one beside that way. */
  lemma {:induction false} ClimbLeadsToLeaf(H: Hasher, S: set<Bytes>, t: Tree, leaf: Bytes, path: seq<Bytes>,
                                            index: nat)
    requires Sized(H) && AllHashes(path) && NoCollision(H, S) && TreeInputs(H, t) <= S
    requires LeafPreimage(leaf) in S && ClimbInputs(H, H(LeafPreimage(leaf)), path, index) <= S
    requires Climb(H, H(LeafPreimage(leaf)), path, index) == TreeHash(H, t)
    ensures Follow(t, index, |path|) == Some(Leaf(leaf)) && PathTo(H, t, index, |path|) == path
    decreases |path|
  {
    var start := H(LeafPreimage(leaf));
    assert Preimage(H, t) in S;
    if |path| == 0 {
      assert LeafPreimage(leaf) == Preimage(H, t);
      assert LeafPreimage(leaf)[0] == Preimage(H, t)[0];
      assert LeafPreimage(leaf)[1..] == Preimage(H, t)[1..];
    } else {
      var m := |path| - 1;
      ClimbLast(H, start, path, index);
      ClimbInputsLast(H, start, path, index);
      ClimbSize(H, start, path[..m], index);
      StepFromChild(H, t, Climb(H, start, path[..m], index), path[m], Shift(index, m));
      var child := Child(t, Shift(index, m) % 2 == 1);
      assert TreeInputs(H, child) <= TreeInputs(H, t);
      ClimbLeadsToLeaf(H, S, child, leaf, path[..m], index);
      PathToTop(H, t, index, path);
    }
  }

  lemma PathToTop(H: Hasher, t: Tree, index: nat, path: seq<Bytes>)
    requires |path| > 0 && t.Node?
    requires var m := |path| - 1; var right := Shift(index, m) % 2 == 1;
      PathTo(H, Child(t, right), index, m) == path[..m] && path[m] == TreeHash(H, Child(t, !right))
    ensures PathTo(H, t, index, |path|) == path
  {
    var m := |path| - 1;
    assert path == path[..m] + [path[m]];
  }

  // ---------- what lies where in a built tree ----------

  lemma {:induction false} ShiftNext(i: nat, k: nat)
    ensures Shift(i, k + 1) == Shift(i, k) / 2
  {
    if k > 0 {
      ShiftNext(i / 2, k - 1);
    }
  }

  ghost predicate IsNoLeaf(t: Option<Tree>)
  {
    t == None || t == Some(Pad)
  }

  /** Each index bit picks one of the two nodes below: depth D + k is node Shift(index, k) of the
      bottom level and k steps further, and beyond the last node there is only padding. */
  lemma {:induction false} FollowBuilt(nodes: seq<Tree>, index: nat, k: nat)
    requires |nodes| > 0 && Shift(index, Depth(|nodes|) + k) == 0
    ensures Shift(index, k) < |nodes| ==>
      Follow(Build(nodes), index, Depth(|nodes|) + k) == Follow(nodes[Shift(index, k)], index, k)
    ensures Shift(index, k) >= |nodes| ==> IsNoLeaf(Follow(Build(nodes), index, Depth(|nodes|) + k))
    decreases |nodes|
  {
    if |nodes| > 1 {
      ShiftNext(index, k);
      FollowBuilt(Up(nodes), index, k + 1);
    }
  }

  /** Above the bottom level there is no leaf. */
  lemma {:induction false} NoLeafAbove(nodes: seq<Tree>, index: nat, m: nat)
    requires m < Depth(|nodes|) && Shift(index, m) == 0
    ensures var at := Follow(Build(nodes), index, m); IsNoLeaf(at) || at.value.Node?
    decreases |nodes|
  {
    if m == Depth(|nodes|) - 1 {
      FollowBuilt(Up(nodes), index, 0);
    } else {
      NoLeafAbove(Up(nodes), index, m);
    }
  }

  /** At the bottom level there are the nodes. */
  lemma NodeAt(nodes: seq<Tree>, index: nat)
    requires |nodes| > 0 && Shift(index, Depth(|nodes|)) == 0
    ensures var at := Follow(Build(nodes), index, Depth(|nodes|));
      if index < |nodes| then at == Some(nodes[index]) else IsNoLeaf(at)
  {
    FollowBuilt(nodes, index, 0);
  }

  /** Below the leaves there is nothing. */
  lemma NoLeafBelow(nodes: seq<Tree>, index: nat, k: nat)
    requires |nodes| > 0 && 0 < k && Shift(index, Depth(|nodes|) + k) == 0
    requires forall i :: 0 <= i < |nodes| ==> nodes[i].Leaf?
    ensures IsNoLeaf(Follow(Build(nodes), index, Depth(|nodes|) + k))
  {
    FollowBuilt(nodes, index, k);
    var i := Shift(index, k);
    if i < |nodes| {
      assert Follow(nodes[i], index, k) == None;
    }
  }

  lemma LeafDepth(nodes: seq<Tree>, leaf: Bytes, index: nat, m: nat)
    requires |nodes| > 0 && Shift(index, m) == 0
    requires forall i :: 0 <= i < |nodes| ==> nodes[i].Leaf?
    requires Follow(Build(nodes), index, m) == Some(Leaf(leaf))
    ensures m == Depth(|nodes|)
  {
    if m < Depth(|nodes|) {
      NoLeafAbove(nodes, index, m);
    } else if m > Depth(|nodes|) {
      NoLeafBelow(nodes, index, m - Depth(|nodes|));
    }
  }

  /** The only way to a leaf of a built tree is Depth steps by an index below the number of leaves. */
  lemma LeafPosition(nodes: seq<Tree>, leaf: Bytes, index: nat, m: nat)
    requires |nodes| > 0 && Shift(index, m) == 0
    requires forall i :: 0 <= i < |nodes| ==> nodes[i].Leaf?
    requires Follow(Build(nodes), index, m) == Some(Leaf(leaf))
    ensures m == Depth(|nodes|) && index < |nodes| && nodes[index] == Leaf(leaf)
  {
    LeafDepth(nodes, leaf, index, m);
    NodeAt(nodes, index);
  }

  // ---------- honest paths ----------

  /** Padding is only ever on the right. */
  ghost predicate Solid(t: Tree)
  {
    t.Node? ==> t.left != Pad && Solid(t.left) && Solid(t.right)
  }

  lemma {:induction false} BuiltIsSolid(nodes: seq<Tree>)
    requires |nodes| > 0 && forall i :: 0 <= i < |nodes| ==> nodes[i] != Pad && Solid(nodes[i])
    ensures Solid(Build(nodes))
    decreases |nodes|
  {
    if |nodes| > 1 {
      BuiltIsSolid(Up(nodes));
    }
  }

  /** The path beside the way down to a subtree climbs from it to the root. */
  lemma {:induction false} PathClimbs(H: Hasher, t: Tree, index: nat, m: nat)
    requires Follow(t, index, m).Some?
    ensures |PathTo(H, t, index, m)| == m
    ensures Climb(H, TreeHash(H, Follow(t, index, m).value), PathTo(H, t, index, m), index) == TreeHash(H, t)
    decreases m
  {
    if m > 0 {
      var right := Shift(index, m - 1) % 2 == 1;
      PathClimbs(H, Child(t, right), index, m - 1);
      var path := PathTo(H, t, index, m);
      assert path[..m - 1] == PathTo(H, Child(t, right), index, m - 1);
      ClimbLast(H, TreeHash(H, Follow(t, index, m).value), path, index);
    }
  }

  /** It never has padding on the left. */
  lemma {:induction false} PathHasNoPad(H: Hasher, S: set<Bytes>, t: Tree, index: nat, m: nat)
    requires Follow(t, index, m).Some? && Solid(t)
    requires NoCollision(H, S) && TreeInputs(H, t) <= S && [] in S
    ensures NoPadOnLeft(H, PathTo(H, t, index, m), index)
    decreases m
  {
    if m > 0 {
      var right := Shift(index, m - 1) % 2 == 1;
      PathHasNoPad(H, S, Child(t, right), index, m - 1);
      PathClimbs(H, t, index, m);
      assert Preimage(H, t.left) in TreeInputs(H, t.left) && Preimage(H, t.left) != [];
      NoPadLast(H, PathTo(H, Child(t, right), index, m - 1), TreeHash(H, Child(t, !right)), index);
    }
  }

  lemma {:induction false} NoPadLast(H: Hasher, path: seq<Bytes>, h: Bytes, index: nat)
    ensures NoPadOnLeft(H, path + [h], index)
        <==> NoPadOnLeft(H, path, index) && !(Shift(index, |path|) % 2 == 1 && h == H([]))
    decreases |path|
  {
    if |path| > 0 {
      NoPadLast(H, path[1..], h, index / 2);
      assert (path + [h])[1..] == path[1..] + [h];
    }
  }

  // ---------- the single-level theorems ----------

  /** The path of a leaf. */
  function PathOf(H: Hasher, leaves: seq<Bytes>, i: nat): seq<Bytes>
    requires i < |leaves|
  {
    PathTo(H, Build(Leaves(leaves)), i, Depth(|leaves|))
  }

  ghost function LeavesInputs(H: Hasher, leaves: seq<Bytes>): set<Bytes>
    requires |leaves| > 0
  {
    TreeInputs(H, Build(Leaves(leaves)))
  }

  /** What deriving a root hashes. */
  ghost function DeriveInputs(H: Hasher, leaf: Bytes, path: seq<Bytes>, index: nat): set<Bytes>
  {
    {[], LeafPreimage(leaf)} + ClimbInputs(H, H(LeafPreimage(leaf)), path, index)
  }

  /** Every leaf's own path derives the root. */
  lemma DeriveComplete(H: Hasher, leaves: seq<Bytes>, i: nat)
    requires i < |leaves| && NoCollision(H, LeavesInputs(H, leaves) + {[]})
    ensures Derive(H, leaves[i], PathOf(H, leaves, i), i) == RootOf(H, leaves)
  {
    var nodes, t, m := Leaves(leaves), Build(Leaves(leaves)), Depth(|leaves|);
    ShiftedOut(i, |leaves|);
    NodeAt(nodes, i);
    PathClimbs(H, t, i, m);
    BuiltIsSolid(nodes);
    PathHasNoPad(H, LeavesInputs(H, leaves) + {[]}, t, i, m);
    DeriveIsClimb(H, H(LeafPreimage(leaves[i])), PathOf(H, leaves, i), i);
  }

  lemma {:induction false} ShiftedOut(i: nat, n: nat)
    requires i < n
    ensures Shift(i, Depth(n)) == 0
    decreases n
  {
    if n > 1 {
      ShiftedOut(i / 2, (n + 1) / 2);
    }
  }

  /** Whatever derives the root is a leaf, at its own index and with its own path. */
  lemma DeriveSound(H: Hasher, S: set<Bytes>, leaves: seq<Bytes>, leaf: Bytes, path: seq<Bytes>, index: nat)
    requires Sized(H) && |leaves| > 0 && AllHashes(path)
    requires NoCollision(H, S) && LeavesInputs(H, leaves) <= S && DeriveInputs(H, leaf, path, index) <= S
    requires RootOf(H, leaves) != ZERO
    requires Derive(H, leaf, path, index) == RootOf(H, leaves)
    ensures index < |leaves| && leaves[index] == leaf && path == PathOf(H, leaves, index)
  {
    DeriveIsClimb(H, H(LeafPreimage(leaf)), path, index);
    ClimbLeadsToLeaf(H, S, Build(Leaves(leaves)), leaf, path, index);
    LeafPosition(Leaves(leaves), leaf, index, |path|);
  }

  /** The condition on the root is needed: an all-zero root is derived by every leaf. */
  lemma ZeroRootProvesAnything(H: Hasher, leaves: seq<Bytes>, leaf: Bytes)
    requires |leaves| > 0 && RootOf(H, leaves) == ZERO
    ensures Derive(H, leaf, [], 1) == RootOf(H, leaves)
  {
  }

  // ---------- the two-level proof ----------

  predicate VerifyMerkle(H: Hasher, p: Proof, airdropRoot: Bytes, faucetRoot: Bytes)
  {
    if IsAddress(p) then Derive(H, H(p.key), p.proof, p.index) == faucetRoot
    else Derive(H, Derive(H, H(p.key), p.subproof, p.subindex as nat), p.proof, p.index) == airdropRoot
  }

  method CheckMerkle(H: Hasher, p: Proof, airdropRoot: Bytes, faucetRoot: Bytes) returns (ok: bool)
    ensures ok == VerifyMerkle(H, p, airdropRoot, faucetRoot)
  {
    var leaf := H(p.key);
    if IsAddress(p) {
      var root := DeriveMerkleRoot(H, leaf, p.proof, p.index);
      return root == faucetRoot;
    }
    var subroot := DeriveMerkleRoot(H, leaf, p.subproof, p.subindex as nat);
    var root := DeriveMerkleRoot(H, subroot, p.proof, p.index);
    return root == airdropRoot;
  }

  function KeyHashes(H: Hasher, keys: seq<Bytes>): (hashes: seq<Bytes>)
    ensures |hashes| == |keys| && forall i :: 0 <= i < |keys| ==> hashes[i] == H(keys[i])
  {
    seq(|keys|, i requires 0 <= i < |keys| => H(keys[i]))
  }

  predicate NoneEmpty(groups: seq<seq<Bytes>>)
  {
    forall i :: 0 <= i < |groups| ==> |groups[i]| > 0
  }

  /** The roots of the groups of keys, one subtree per group. */
  function Subroots(H: Hasher, groups: seq<seq<Bytes>>): (roots: seq<Bytes>)
    requires NoneEmpty(groups)
    ensures |roots| == |groups|
    ensures forall i :: 0 <= i < |groups| ==> roots[i] == RootOf(H, KeyHashes(H, groups[i]))
  {
    if groups == [] then [] else [RootOf(H, KeyHashes(H, groups[0]))] + Subroots(H, groups[1..])
  }

  /** No tree hashes to all zeros. */
  ghost predicate NoZeroRoot(H: Hasher, groups: seq<seq<Bytes>>)
    requires groups != [] && NoneEmpty(groups)
  {
    RootOf(H, Subroots(H, groups)) != ZERO && forall root :: root in Subroots(H, groups) ==> root != ZERO
  }

  /** What building the subtrees and the tree above them hashes. */
  ghost function GroupInputs(H: Hasher, groups: seq<seq<Bytes>>): set<Bytes>
    requires groups != [] && NoneEmpty(groups)
  {
    LeavesInputs(H, Subroots(H, groups)) +
    (set i, x | 0 <= i < |groups| && x in KeysInputs(H, groups[i]) :: x)
  }

  ghost function KeysInputs(H: Hasher, keys: seq<Bytes>): set<Bytes>
    requires keys != []
  {
    LeavesInputs(H, KeyHashes(H, keys)) + (set key | key in keys)
  }

  /** What checking a proof hashes. */
  ghost function ProofInputs(H: Hasher, p: Proof): set<Bytes>
  {
    var leaf := H(p.key);
    {p.key} +
    if IsAddress(p) then DeriveInputs(H, leaf, p.proof, p.index)
    else
      DeriveInputs(H, leaf, p.subproof, p.subindex as nat) +
      DeriveInputs(H, Derive(H, leaf, p.subproof, p.subindex as nat), p.proof, p.index)
  }

  /** An accepted airdrop proof names the group and the place in the group of its own key. */
  lemma AirdropSound(H: Hasher, groups: seq<seq<Bytes>>, p: Proof, faucetRoot: Bytes)
    requires Sized(H) && groups != [] && NoneEmpty(groups) && NoZeroRoot(H, groups)
    requires NoCollision(H, GroupInputs(H, groups) + ProofInputs(H, p))
    requires AllHashes(p.proof) && AllHashes(p.subproof) && !IsAddress(p)
    requires VerifyMerkle(H, p, RootOf(H, Subroots(H, groups)), faucetRoot)
    ensures p.index < |groups| && p.subindex as nat < |groups[p.index]| && groups[p.index][p.subindex] == p.key
  {
    var S, roots, leaf := GroupInputs(H, groups) + ProofInputs(H, p), Subroots(H, groups), H(p.key);
    DeriveSound(H, S, roots, Derive(H, leaf, p.subproof, p.subindex as nat), p.proof, p.index);
    assert roots[p.index] in roots;
    var keys := groups[p.index];
    assert KeysInputs(H, keys) <= S;
    DeriveSound(H, S, KeyHashes(H, keys), leaf, p.subproof, p.subindex as nat);
    assert keys[p.subindex] in S;
  }

  /** An accepted faucet proof names the place of its own key. */
  lemma FaucetSound(H: Hasher, keys: seq<Bytes>, p: Proof, airdropRoot: Bytes)
    requires Sized(H) && keys != [] && RootOf(H, KeyHashes(H, keys)) != ZERO
    requires NoCollision(H, KeysInputs(H, keys) + ProofInputs(H, p))
    requires AllHashes(p.proof) && IsAddress(p)
    requires VerifyMerkle(H, p, airdropRoot, RootOf(H, KeyHashes(H, keys)))
    ensures p.index < |keys| && keys[p.index] == p.key
  {
    var S := KeysInputs(H, keys) + ProofInputs(H, p);
    DeriveSound(H, S, KeyHashes(H, keys), H(p.key), p.proof, p.index);
    assert keys[p.index] in S;
  }

  /** The proof made of an address key's own path is accepted. */
  lemma FaucetComplete(H: Hasher, keys: seq<Bytes>, p: Proof, airdropRoot: Bytes)
    requires IsAddress(p) && p.index < |keys| && p.key == keys[p.index]
    requires NoCollision(H, KeysInputs(H, keys) + {[]})
    requires p.proof == PathOf(H, KeyHashes(H, keys), p.index)
    ensures VerifyMerkle(H, p, airdropRoot, RootOf(H, KeyHashes(H, keys)))
  {
    DeriveComplete(H, KeyHashes(H, keys), p.index);
  }

  /** The proof made of a key's own two paths is accepted. */
  lemma AirdropComplete(H: Hasher, groups: seq<seq<Bytes>>, p: Proof, faucetRoot: Bytes)
    requires groups != [] && NoneEmpty(groups) && !IsAddress(p)
    requires NoCollision(H, GroupInputs(H, groups) + {[]})
    requires p.index < |groups| && p.subindex as nat < |groups[p.index]| && p.key == groups[p.index][p.subindex]
    requires p.proof == PathOf(H, Subroots(H, groups), p.index)
    requires p.subproof == PathOf(H, KeyHashes(H, groups[p.index]), p.subindex as nat)
    ensures VerifyMerkle(H, p, RootOf(H, Subroots(H, groups)), faucetRoot)
  {
    assert KeysInputs(H, groups[p.index]) <= GroupInputs(H, groups);
    DeriveComplete(H, KeyHashes(H, groups[p.index]), p.subindex as nat);
    DeriveComplete(H, Subroots(H, groups), p.index);
  }

  // ---------- the stored tree ----------

  /** The stored hashes from the offset on are those of a level. */
  ghost predicate Holds(H: Hasher, store: seq<Bytes>, offset: nat, nodes: seq<Tree>, n: nat)
  {
    && n <= |nodes|
    && |store| == offset + n
    && forall q :: 0 <= q < n ==> store[offset + q] == TreeHash(H, nodes[q])
  }

  lemma UpHash(H: Hasher, nodes: seq<Tree>, q: nat)
    requires 2 * q < |nodes|
    ensures TreeHash(H, Up(nodes)[q])
         == H([1] + TreeHash(H, nodes[2 * q]) + if 2 * q + 1 < |nodes| then TreeHash(H, nodes[2 * q + 1]) else H([]))
  {
    var t := Up(nodes)[q];
    assert t == Node(nodes[2 * q], if 2 * q + 1 < |nodes| then nodes[2 * q + 1] else Pad);
    assert Preimage(H, t) == NodePreimage(TreeHash(H, t.left), TreeHash(H, t.right));
  }

  /** The hash of a pair, or of a last one and padding. */
  method JoinPair(H: Hasher, store: seq<Bytes>, offset: nat, size: nat, q: nat, ghost nodes: seq<Tree>)
    returns (joined: Bytes)
    requires size == |nodes| && Holds(H, store, offset, nodes, size) && 2 * q < size
    ensures joined == TreeHash(H, Up(nodes)[q])
  {
    var right := if 2 * q + 1 < size then store[offset + (2 * q + 1)] else H([]);
    joined := H([1] + store[offset + 2 * q] + right);
    UpHash(H, nodes, q);
  }

  lemma HoldsMore(H: Hasher, store: seq<Bytes>, offset: nat, nodes: seq<Tree>, n: nat)
    requires Holds(H, store, offset, nodes, n) && n < |nodes|
    ensures Holds(H, store + [TreeHash(H, nodes[n])], offset, nodes, n + 1)
  {
  }

  /** One level of the stored tree, appended after the level it joins. */
  method AppendLevel(H: Hasher, store: seq<Bytes>, offset: nat, ghost nodes: seq<Tree>) returns (longer: seq<Bytes>)
    requires Holds(H, store, offset, nodes, |nodes|)
    ensures Holds(H, longer, |store|, Up(nodes), |Up(nodes)|) && store <= longer
  {
    longer := store;
    var i, size := 0, |store| - offset;
    while i < size
      invariant i % 2 == 0 && 0 <= i <= size + 1
      invariant Holds(H, longer, |store|, Up(nodes), i / 2) && store <= longer
      decreases size - i
    {
      var joined := JoinPair(H, store, offset, size, i / 2, nodes);
      HoldsMore(H, longer, |store|, Up(nodes), i / 2);
      longer := longer + [joined];
      i := i + 2;
    }
  }

  /** The whole tree level by level; its last element is the root that proofs are checked against. */
  method BuildStore(H: Hasher, leaves: seq<Bytes>) returns (store: seq<Bytes>)
    ensures |store| > 0
    ensures leaves != [] ==> store[|store| - 1] == RootOf(H, leaves)
    ensures leaves == [] ==> store == [H([])]
  {
    if |leaves| == 0 {
      return [H([])];
    }
    ghost var nodes := Leaves(leaves);
    store := [];
    for i := 0 to |leaves|
      invariant Holds(H, store, 0, nodes, i)
    {
      HoldsMore(H, store, 0, nodes, i);
      store := store + [H([0] + leaves[i])];
    }
    var offset, size := 0, |leaves|;
    while size > 1
      invariant 1 <= size == |nodes| && Holds(H, store, offset, nodes, size)
      invariant Build(nodes) == Build(Leaves(leaves))
    {
      store := AppendLevel(H, store, offset, nodes);
      nodes := Up(nodes);
      offset := offset + size;
      size := (size + 1) / 2;
    }
    assert store[offset + 0] == TreeHash(H, nodes[0]);
  }
}
