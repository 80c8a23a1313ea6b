/**
 * A rescan while the chain changes underneath it, as a state machine.  The best
 * chain, the blocks whose data is stored and whether the client is still there
 * are functions of the moment, and each request of the scan happens at the next
 * moment.  A statement about every such world is one about every interleaving
 * with reorganisations and pruning.
 */
module RescanWorlds {
  import opened Basics
  import opened BlockNodes
  import opened RescanBlocks
  import opened Transactions

  const MAX_INV_PER_MSG := 50000
  const MAX_INT32 := 0x7fff_ffff

  /** The best chain at a moment lists its hashes by height. */
  datatype World = World(
    chain: nat -> seq<Hash>,
    txs: Hash -> seq<Tx>,
    stored: (nat, Hash) -> bool,
    unreadable: (nat, Hash) -> bool,
    gone: nat -> bool,
    progressLost: nat -> bool,
    alive: nat -> bool)

  // ---------- hashes and blocks ----------

  function PrevOf(h: Hash): Hash
  {
    match h
    case ZeroHash => ZeroHash
    case BlockHash(header) => header.prev
  }

  function HeightOf(h: Hash): nat
  {
    match h
    case ZeroHash => 0
    case BlockHash(header) => if header.prev == ZeroHash then 0 else HeightOf(header.prev) + 1
  }

  function BlockOf(w: World, h: Hash): Block
  {
    Block(h, PrevOf(h), HeightOf(h), w.txs(h))
  }

  /** A first block and then, each naming the one before, its successors. */
  ghost predicate IsChain(c: seq<Hash>)
  {
    && |c| > 0 && c[0] != ZeroHash && PrevOf(c[0]) == ZeroHash
    && forall k {:trigger c[k]} :: 0 < k < |c| ==> c[k] != ZeroHash && PrevOf(c[k]) == c[k - 1]
  }

  ghost predicate Honest(w: World)
  {
    forall t {:trigger w.chain(t)} :: IsChain(w.chain(t))
  }

  lemma {:induction false} ChainHeights(c: seq<Hash>, k: nat)
    requires IsChain(c) && k < |c|
    ensures HeightOf(c[k]) == k
  {
    if k > 0 {
      ChainHeights(c, k - 1);
      assert PrevOf(c[k]) == c[k - 1];
    }
  }

  // ---------- what the chain answers ----------

  /** The hashes from height a up to height b, as far as the chain goes. */
  function RangeOf(c: seq<Hash>, a: nat, b: nat): (list: seq<Hash>)
    ensures |list| <= if a <= b then b - a else 0
    ensures list == [] <==> a >= |c| || b <= a
    ensures forall k {:trigger list[k]} :: 0 <= k < |list| ==> a + k < |c| && list[k] == c[a + k]
  {
    if a >= |c| || b <= a then [] else c[a..if b < |c| then b else |c|]
  }

  datatype Fetch = Fetched | NotFound | NotInMainChain | Unreadable

  /** Only blocks of the best chain are looked up, and only those without data are not found. */
  function FetchAt(w: World, t: nat, h: Hash): Fetch
  {
    if h !in w.chain(t) then NotInMainChain
    else if !w.stored(t, h) then NotFound
    else if w.unreadable(t, h) then Unreadable
    else Fetched
  }

  function BestAt(w: World, t: nat): Hash
  {
    if |w.chain(t)| == 0 then ZeroHash else w.chain(t)[|w.chain(t)| - 1]
  }

  // ---------- the scan, one request at a time ----------

  /** Why a scan that did not fail is over; only a scan that has caught up registers the client. */
  datatype End = Complete | NoMoreBlocks | CaughtUp

  datatype Result = Finished(last: Option<Block>, end: End) | DatabaseError | Reorganize | ClientGone

  /** The next request: a range, block i of a list, a range after a missing block, the first block of such a
      range, or the best block. */
  datatype Phase =
    | AtRange
    | AtBlock(list: seq<Hash>, i: nat)
    | AtRecover
    | AtCheck(list: seq<Hash>)
    | AtBest
    | Over(result: Result)

  /** next is the height of the first hash of the list, or of the range to be asked for. */
  datatype Scan = Scan(phase: Phase, next: nat, blocks: seq<Block>)

  function Last(blocks: seq<Block>): Option<Block>
  {
    if blocks == [] then None else Some(blocks[|blocks| - 1])
  }

  /** The hash does not continue the blocks scanned so far. */
  predicate Breaks(blocks: seq<Block>, h: Hash)
  {
    blocks != [] && PrevOf(h) != blocks[|blocks| - 1].hash
  }

  function Stop(s: Scan, r: Result): Scan
  {
    s.(phase := Over(r))
  }

  /** The head of the outer loop. */
  function Loop(maxBlock: nat, next: nat, blocks: seq<Block>): Scan
  {
    Scan(if next < maxBlock then AtRange else Over(Finished(Last(blocks), Complete)), next, blocks)
  }

  function MaxLoopBlock(next: nat, maxBlock: nat): nat
  {
    if maxBlock > next + MAX_INV_PER_MSG then next + MAX_INV_PER_MSG else maxBlock
  }

  /** There is a hash to be looked up. */
  predicate Proper(s: Scan)
  {
    && (s.phase.AtBlock? ==> s.phase.i < |s.phase.list|)
    && (s.phase.AtCheck? ==> s.phase.list != [])
  }

  function AfterRange(w: World, maxBlock: nat, t: nat, s: Scan): (r: Scan)
    ensures Proper(r)
  {
    var list := RangeOf(w.chain(t), s.next, MaxLoopBlock(s.next, maxBlock));
    if list != [] then s.(phase := AtBlock(list, 0))
    else if maxBlock != MAX_INT32 then Stop(s, Finished(Last(s.blocks), NoMoreBlocks))
    else s.(phase := AtBest)
  }

  function AfterBlock(w: World, maxBlock: nat, t: nat, s: Scan): (r: Scan)
    requires s.phase.AtBlock? && Proper(s)
    ensures Proper(r)
  {
    var list, i := s.phase.list, s.phase.i;
    match FetchAt(w, t, list[i])
    case NotInMainChain => Stop(s, DatabaseError)
    case Unreadable => Stop(s, DatabaseError)
    case NotFound => if maxBlock != MAX_INT32 then Stop(s, Reorganize) else Scan(AtRecover, s.next + i, s.blocks)
    case Fetched =>
      if i == 0 && Breaks(s.blocks, list[0]) then Stop(s, Reorganize)
      else if w.gone(t) then Stop(s, ClientGone)
      else
        var more := s.(blocks := s.blocks + [BlockOf(w, list[i])]);
        if w.progressLost(t) then Stop(more, ClientGone)
        else if i + 1 < |list| then more.(phase := AtBlock(list, i + 1))
        else Loop(maxBlock, s.next + |list|, more.blocks)
  }

  /** A new range after a missing block; without a block scanned before there is nothing to check it against. */
  function AfterRecover(w: World, maxBlock: nat, t: nat, s: Scan): (r: Scan)
    ensures Proper(r)
  {
    var list := RangeOf(w.chain(t), s.next, maxBlock);
    if list == [] then Stop(s, Finished(Last(s.blocks), NoMoreBlocks))
    else if s.blocks == [] then s.(phase := AtBlock(list, 0))
    else s.(phase := AtCheck(list))
  }

  function AfterCheck(w: World, t: nat, s: Scan): (r: Scan)
    requires s.phase.AtCheck? && Proper(s)
    ensures Proper(r)
  {
    var list := s.phase.list;
    if !FetchAt(w, t, list[0]).Fetched? then Stop(s, DatabaseError)
    else if Breaks(s.blocks, list[0]) then Stop(s, Reorganize)
    else s.(phase := AtBlock(list, 0))
  }

  function AfterBest(w: World, t: nat, s: Scan): (r: Scan)
    ensures Proper(r)
  {
    if s.blocks == [] || s.blocks[|s.blocks| - 1].hash == BestAt(w, t) then Stop(s, Finished(Last(s.blocks), CaughtUp))
    else s.(phase := AtRange)
  }

  function Step(w: World, maxBlock: nat, t: nat, s: Scan): (r: Scan)
    requires Proper(s)
    ensures Proper(r)
  {
    match s.phase
    case AtRange => AfterRange(w, maxBlock, t, s)
    case AtBlock(_, _) => AfterBlock(w, maxBlock, t, s)
    case AtRecover => AfterRecover(w, maxBlock, t, s)
    case AtCheck(_) => AfterCheck(w, t, s)
    case AtBest => AfterBest(w, t, s)
    case Over(_) => s
  }

  datatype Job = Job(minBlock: nat, maxBlock: nat)

  /** The scan after n requests, the first of them at moment 0. */
  function Run(w: World, job: Job, n: nat): (s: Scan)
    ensures Proper(s)
  {
    if n == 0 then Loop(job.maxBlock, job.minBlock, []) else Step(w, job.maxBlock, n - 1, Run(w, job, n - 1))
  }
}
