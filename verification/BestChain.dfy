/**
 * How the best chain and the stored blocks change: blocks arrive, the chain is
 * extended, pruned while it is, and reorganised block by block, so that readers
 * that hold no lock see every chain in between.
 */
module BestChains {
  import opened Basics
  import opened BlockNodes
  import opened RescanWorlds
  import opened RescanRuns

  /** The best chain, the blocks in the database, and those whose node says that their data has been stored. */
  datatype Store = Store(chain: seq<Hash>, data: set<Hash>, flagged: set<Hash>)

  ghost predicate Sane(s: Store)
  {
    IsChain(s.chain) && s.data <= s.flagged && forall h :: h in s.chain ==> h in s.flagged
  }

  /** A change a reader can see. */
  datatype Move = Receive(h: Hash) | Prune(gone: set<Hash>) | Attach(h: Hash) | Detach

  /** Only new blocks are received, and only a tip whose data is there is detached. */
  ghost predicate Can(s: Store, m: Move)
  {
    match m
    case Receive(h) => h !in s.flagged
    case Prune(_) => true
    case Attach(h) => |s.chain| > 0 && h in s.flagged && h != ZeroHash && PrevOf(h) == s.chain[|s.chain| - 1]
    case Detach => |s.chain| > 1 && s.chain[|s.chain| - 1] in s.data
  }

  function Do(s: Store, m: Move): Store
  {
    match m
    case Receive(h) => s.(data := s.data + {h}, flagged := s.flagged + {h})
    case Prune(gone) => s.(data := s.data - gone)
    case Attach(h) => s.(chain := s.chain + [h])
    case Detach => if s.chain == [] then s else s.(chain := s.chain[..|s.chain| - 1])
  }

  /** Blocks of the best chain without data stay what they are. */
  ghost predicate Preserves(s: Store, t: Store)
  {
    forall h :: h in s.chain && h !in s.data ==> h in t.chain && h !in t.data
  }

  lemma MovePreserves(s: Store, m: Move)
    requires Sane(s) && Can(s, m)
    ensures Sane(Do(s, m)) && Preserves(s, Do(s, m))
  {
    var c := s.chain;
    if m.Detach? {
      ChainShorter(c);
      assert c == c[..|c| - 1] + [c[|c| - 1]];
    } else if m.Attach? {
      ChainLonger(c, m.h);
    }
  }

  lemma ChainShorter(c: seq<Hash>)
    requires IsChain(c) && |c| > 1
    ensures IsChain(c[..|c| - 1])
  {
  }

  lemma ChainLonger(c: seq<Hash>, h: Hash)
    requires IsChain(c) && h != ZeroHash && PrevOf(h) == c[|c| - 1]
    ensures IsChain(c + [h])
  {
  }

  ghost predicate CanAll(s: Store, moves: seq<Move>)
    decreases |moves|
  {
    moves == [] || (CanAll(s, moves[..|moves| - 1]) && Can(DoAll(s, moves[..|moves| - 1]), moves[|moves| - 1]))
  }

  function DoAll(s: Store, moves: seq<Move>): Store
    decreases |moves|
  {
    if moves == [] then s else Do(DoAll(s, moves[..|moves| - 1]), moves[|moves| - 1])
  }

  lemma MoveMore(s: Store, moves: seq<Move>, m: Move)
    requires CanAll(s, moves) && Can(DoAll(s, moves), m)
    ensures CanAll(s, moves + [m]) && DoAll(s, moves + [m]) == Do(DoAll(s, moves), m)
  {
    assert (moves + [m])[..|moves|] == moves;
  }

  lemma {:induction false} MovesPreserve(s: Store, moves: seq<Move>)
    requires Sane(s) && CanAll(s, moves)
    ensures Sane(DoAll(s, moves)) && Preserves(s, DoAll(s, moves))
    decreases |moves|
  {
    if moves != [] {
      var front := moves[..|moves| - 1];
      MovesPreserve(s, front);
      MovePreserves(DoAll(s, front), moves[|moves| - 1]);
    }
  }

  /** The store has come about by such changes; sealed. */
  ghost predicate Reached(first: Store, moves: seq<Move>, now: Store)
  {
    forall x {:trigger Unseal(x)} :: x == now ==> Sane(first) && CanAll(first, moves) && x == DoAll(first, moves)
  }

  lemma ReachedFirst(s: Store)
    requires Sane(s)
    ensures Reached(s, [], s)
  {
    assert CanAll(s, []) && DoAll(s, []) == s;
  }

  lemma ReachedMore(first: Store, moves: seq<Move>, now: Store, m: Move)
    requires Reached(first, moves, now) && Can(now, m)
    ensures Reached(first, moves + [m], Do(now, m))
  {
    assert Unseal(now) == now;
    MoveMore(first, moves, m);
  }

  /** What holds of every store that has come about. */
  lemma ReachedSane(first: Store, moves: seq<Move>, now: Store)
    requires Reached(first, moves, now)
    ensures Sane(now) && Preserves(first, now)
  {
    assert Unseal(now) == now;
    MovesPreserve(first, moves);
  }

  // ---------- what a rescan sees ----------

  /** Between two requests any number of changes happen. */
  ghost predicate Changing(stores: nat -> Store, moves: nat -> seq<Move>)
  {
    && Sane(stores(0))
    && forall t: nat {:trigger moves(t)} :: CanAll(stores(t), moves(t)) && stores(t + 1) == DoAll(stores(t), moves(t))
  }

  /** The world of a rescan whose chain and data are these. */
  function Seen(stores: nat -> Store, w: World): World
  {
    w.(chain := (t: nat) => stores(t).chain, stored := (t: nat, h: Hash) => h in stores(t).data)
  }

  lemma {:induction false} AlwaysSane(stores: nat -> Store, moves: nat -> seq<Move>, t: nat)
    requires Changing(stores, moves)
    ensures Sane(stores(t))
  {
    if t > 0 {
      AlwaysSane(stores, moves, t - 1);
      assert CanAll(stores(t - 1), moves(t - 1));
      MovesPreserve(stores(t - 1), moves(t - 1));
    }
  }

  /** Such a world meets what the theorems about rescans ask of one. */
  lemma SeenIsLasting(stores: nat -> Store, moves: nat -> seq<Move>, w: World)
    requires Changing(stores, moves)
    ensures Honest(Seen(stores, w)) && Lasting(Seen(stores, w))
  {
    var seen := Seen(stores, w);
    forall t: nat
      ensures IsChain(seen.chain(t)) && Lasts(seen, t)
    {
      AlwaysSane(stores, moves, t);
      assert CanAll(stores(t), moves(t));
      MovesPreserve(stores(t), moves(t));
    }
  }

  // ---------- the code that changes them ----------

  /** A block to be attached, and what the connection of it prunes. */
  datatype Link = Link(hash: Hash, pruned: set<Hash>)

  class BestChain {
    var chain: seq<Hash>
    var data: set<Hash>
    var flagged: set<Hash>
    /** The changes so far. */
    ghost var moves: seq<Move>
    ghost const first: Store

    ghost function Now(): Store
      reads this
    {
      Store(chain, data, flagged)
    }

    /** Everything that happened was one of the changes a reader may rely on. */
    ghost predicate Valid()
      reads this
    {
      Reached(first, moves, Now()) && |chain| > 0
    }

    constructor (genesis: Hash)
      requires genesis != ZeroHash && PrevOf(genesis) == ZeroHash
      ensures Valid() && Now() == Store([genesis], {genesis}, {genesis}) && moves == []
    {
      chain, data, flagged := [genesis], {genesis}, {genesis};
      first, moves := Store([genesis], {genesis}, {genesis}), [];
      ReachedFirst(Store([genesis], {genesis}, {genesis}));
    }

    ghost method Note(was: Store, m: Move)
      requires Reached(first, moves, was) && Can(was, m) && Now() == Do(was, m) && |chain| > 0
      modifies `moves
      ensures Valid() && moves == old(moves) + [m]
    {
      ReachedMore(first, moves, was, m);
      moves := moves + [m];
    }

    /** A block is stored unless its node says that it has been before. */
    method StoreBlock(h: Hash) returns (stored: bool)
      requires Valid()
      modifies this
      ensures Valid() && stored == (h !in old(flagged)) && old(moves) <= moves
      ensures Now() == if stored then Do(old(Now()), Receive(h)) else old(Now())
    {
      stored := h !in flagged;
      if stored {
        data, flagged := data + {h}, flagged + {h};
        Note(old(Now()), Receive(h));
      }
    }

    /** The block becomes the tip if it extends the chain; old blocks are pruned first. */
    method ConnectBlock(link: Link) returns (ok: bool)
      requires Valid() && link.hash in flagged && link.hash != ZeroHash
      modifies this
      ensures Valid() && old(moves) <= moves && flagged == old(flagged)
      ensures ok == (PrevOf(link.hash) == old(chain)[|old(chain)| - 1])
      ensures Now() == if ok then Do(Do(old(Now()), Prune(link.pruned)), Attach(link.hash)) else old(Now())
    {
      ok := PrevOf(link.hash) == chain[|chain| - 1];
      if ok {
        data := data - link.pruned;
        Note(old(Now()), Prune(link.pruned));
        ghost var pruned := Now();
        chain := chain + [link.hash];
        Note(pruned, Attach(link.hash));
      }
    }

    /** The tip goes if the data of its predecessor is there. */
    method DisconnectBlock() returns (ok: bool)
      requires Valid() && |chain| > 1 && chain[|chain| - 1] in data
      modifies this
      ensures Valid() && old(moves) <= moves
      ensures ok == (old(chain)[|old(chain)| - 2] in old(data))
      ensures Now() == if ok then Do(old(Now()), Detach) else old(Now())
    {
      ok := chain[|chain| - 2] in data;
      if ok {
        chain := chain[..|chain| - 1];
        Note(old(Now()), Detach);
      }
    }

    /** Every block to be detached and every one to be attached is loaded before anything changes. */
    method VerifyReorganizationValidity(detach: nat, attach: seq<Link>, valid: bool) returns (ok: bool)
      requires detach < |chain|
      ensures ok <==> valid && (forall i :: |chain| - detach <= i < |chain| ==> chain[i] in data)
                      && forall i :: 0 <= i < |attach| ==> attach[i].hash in data
    {
      ok := valid;
      for i := 0 to detach
        invariant ok <==> valid && forall j :: |chain| - i <= j < |chain| ==> chain[j] in data
      {
        ok := ok && chain[|chain| - 1 - i] in data;
      }
      for i := 0 to |attach|
        invariant ok <==> valid && (forall j :: |chain| - detach <= j < |chain| ==> chain[j] in data)
                          && forall j :: 0 <= j < i ==> attach[j].hash in data
      {
        ok := ok && attach[i].hash in data;
      }
    }

    /** Takes the blocks off the chain.  The data of the block below the last one is needed and may be missing. */
    method DetachAll(detach: nat) returns (ok: bool)
      requires Valid() && detach < |chain| && TopHasData(Now(), detach)
      modifies this
      ensures Valid() && old(moves) <= moves && data == old(data) && flagged == old(flagged)
      ensures ok <==> detach == 0 || ForkHasData(old(Now()), detach)
      ensures chain == old(chain)[..|old(chain)| - detach + if ok then 0 else 1]
    {
      for i := 0 to detach
        invariant Valid() && old(moves) <= moves && data == old(data) && flagged == old(flagged)
        invariant chain == old(chain)[..|old(chain)| - i]
        invariant i == detach && detach > 0 ==> ForkHasData(old(Now()), detach)
      {
        ok := DisconnectBlock();
        if !ok {
          return;
        }
      }
      ok := true;
    }

    /** Puts the blocks on the chain, up to one that does not extend it. */
    method AttachAll(attach: seq<Link>) returns (ok: bool)
      requires Valid() && forall i :: 0 <= i < |attach| ==> attach[i].hash in flagged && attach[i].hash != ZeroHash
      modifies this
      ensures Valid() && old(moves) <= moves
      ensures ok <==> Extends(old(chain)[|old(chain)| - 1], attach)
      ensures ok ==> chain == old(chain) + Hashes(attach)
    {
      ghost var was, tip := chain, chain[|chain| - 1];
      for i := 0 to |attach|
        invariant Valid() && old(moves) <= moves && flagged == old(flagged)
        invariant chain == was + Hashes(attach[..i]) && Extends(tip, attach[..i])
      {
        HashesMore(attach, i);
        ExtendsMore(tip, attach, i);
        LastHash(was, attach[..i]);
        ok := ConnectBlock(attach[i]);
        if !ok {
          return;
        }
        Assoc(was, Hashes(attach[..i]), [attach[i].hash]);
      }
      assert attach[..|attach|] == attach;
      ok := true;
    }

    /**
     * Takes blocks off the chain and puts others on it.  Nothing changes if a block concerned has no data.  Having
     * passed that check it fails exactly if the fork point itself has none, and then with one of the blocks left on
     * the chain, or if the blocks do not follow one another.  Every change is one a reader may rely on.
     */
    method ReorganizeChain(detach: nat, attach: seq<Link>, valid: bool) returns (ok: bool)
      requires Valid() && detach < |chain| && forall i :: 0 <= i < |attach| ==> attach[i].hash != ZeroHash
      modifies this
      ensures Valid() && old(moves) <= moves
      ensures var was := old(Now());
        var verified := valid && TopHasData(was, detach) && AllHaveData(was, attach);
        var fork := |was.chain| - detach - 1;
        && (ok <==> verified && (detach == 0 || ForkHasData(was, detach)) && Extends(was.chain[fork], attach))
        && (ok ==> chain == was.chain[..fork + 1] + Hashes(attach))
        && (!verified ==> Now() == was)
        && (verified && detach > 0 && !ForkHasData(was, detach) ==> Now() == was.(chain := was.chain[..fork + 2]))
    {
      ReachedSane(first, moves, Now());
      ok := VerifyReorganizationValidity(detach, attach, valid);
      if !ok {
        return;
      }
      assert TopHasData(Now(), detach) && AllHaveData(Now(), attach);
      assert forall i :: 0 <= i < |attach| ==> attach[i].hash in flagged;
      ghost var fork := |chain| - detach - 1;
      ok := DetachAll(detach);
      if ok {
        assert chain == old(chain)[..fork + 1] && chain[|chain| - 1] == old(chain)[fork];
        ok := AttachAll(attach);
      }
    }
  }

  ghost predicate TopHasData(s: Store, detach: nat)
    requires detach <= |s.chain|
  {
    forall i :: |s.chain| - detach <= i < |s.chain| ==> s.chain[i] in s.data
  }

  predicate ForkHasData(s: Store, detach: nat)
    requires detach < |s.chain|
  {
    s.chain[|s.chain| - detach - 1] in s.data
  }

  ghost predicate AllHaveData(s: Store, attach: seq<Link>)
  {
    forall i :: 0 <= i < |attach| ==> attach[i].hash in s.data
  }

  function LastOf(tip: Hash, links: seq<Link>): Hash
  {
    if links == [] then tip else links[|links| - 1].hash
  }

  /** The blocks follow one another from the given one. */
  predicate Extends(tip: Hash, links: seq<Link>)
    decreases |links|
  {
    links == [] ||
    (var front := links[..|links| - 1];
     Extends(tip, front) && PrevOf(links[|links| - 1].hash) == LastOf(tip, front))
  }

  lemma {:induction false} ExtendsBegin(tip: Hash, links: seq<Link>, i: nat)
    requires i <= |links| && Extends(tip, links)
    ensures Extends(tip, links[..i])
    decreases |links|
  {
    if i == |links| {
      assert links[..i] == links;
    } else {
      ExtendsBegin(tip, links[..|links| - 1], i);
      assert links[..|links| - 1][..i] == links[..i];
    }
  }

  lemma ExtendsMore(tip: Hash, links: seq<Link>, i: nat)
    requires i < |links| && Extends(tip, links[..i])
    ensures PrevOf(links[i].hash) == LastOf(tip, links[..i]) ==> Extends(tip, links[..i + 1])
    ensures PrevOf(links[i].hash) != LastOf(tip, links[..i]) ==> !Extends(tip, links)
  {
    assert links[..i + 1][..i] == links[..i];
    if Extends(tip, links) {
      ExtendsBegin(tip, links, i + 1);
    }
  }

  function Hashes(links: seq<Link>): (s: seq<Hash>)
    ensures |s| == |links| && forall i :: 0 <= i < |links| ==> s[i] == links[i].hash
  {
    seq(|links|, i requires 0 <= i < |links| => links[i].hash)
  }

  lemma HashesMore(links: seq<Link>, i: nat)
    requires i < |links|
    ensures Hashes(links[..i + 1]) == Hashes(links[..i]) + [links[i].hash]
  {
  }

  lemma LastHash(chain: seq<Hash>, links: seq<Link>)
    requires |chain| > 0
    ensures var c := chain + Hashes(links); c[|c| - 1] == LastOf(chain[|chain| - 1], links)
  {
  }

  function Nth(prev: Hash, n: nat): Hash
  {
    BlockHash(Header(prev, 0, 0, n))
  }

  /** A chain of four blocks whose first two have been pruned. */
  method PrunedChain(g: Hash, x1: Hash, x2: Hash, x3: Hash) returns (b: BestChain)
    requires g == Nth(ZeroHash, 0) && x1 == Nth(g, 1) && x2 == Nth(x1, 2) && x3 == Nth(x2, 3)
    ensures fresh(b) && b.Valid() && b.Now() == Store([g, x1, x2, x3], {x2, x3}, {g, x1, x2, x3})
  {
    b := new BestChain(g);
    var _ := b.StoreBlock(x1);
    var _ := b.ConnectBlock(Link(x1, {}));
    assert b.Now() == Store([g, x1], {g, x1}, {g, x1});
    var _ := b.StoreBlock(x2);
    var _ := b.ConnectBlock(Link(x2, {}));
    assert b.Now() == Store([g, x1, x2], {g, x1, x2}, {g, x1, x2});
    var _ := b.StoreBlock(x3);
    var _ := b.ConnectBlock(Link(x3, {g, x1}));
    assert b.data == {x2, x3};
  }

  /** A reorganisation from a pruned fork point passes the check and then stops half way. */
  method PrunedForkPoint() returns (b: BestChain, ok: bool)
    ensures b.Valid() && !ok && |b.chain| == 3
  {
    var g := Nth(ZeroHash, 0);
    var x1 := Nth(g, 1);
    var x2 := Nth(x1, 2);
    var x3 := Nth(x2, 3);
    b := PrunedChain(g, x1, x2, x3);
    var other := Nth(x1, 4);
    var _ := b.StoreBlock(other);
    ok := b.ReorganizeChain(2, [Link(other, {})], true);
  }
}
