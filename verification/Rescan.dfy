/** The rescan itself: its loops take exactly the steps of the state machine and follow what the blocks mean. */
module Rescans {
  import opened Basics
  import opened BlockNodes
  import opened ChainViews
  import opened RescanBlocks
  import opened RescanEnds
  import opened RescanRuns
  import opened RescanWorlds
  import opened Transactions

  // ---------- what the scanned blocks mean ----------

  function Txs(blocks: seq<Block>): seq<Tx>
    decreases |blocks|
  {
    if blocks == [] then [] else Txs(blocks[..|blocks| - 1]) + blocks[|blocks| - 1].txs
  }

  ghost function Following(addrs: set<Address>, blocks: seq<Block>, unspent: set<OutPoint>): set<OutPoint>
  {
    AfterTxs(addrs, unspent, Txs(blocks))
  }

  ghost function Told(addrs: set<Address>, blocks: seq<Block>, unspent: set<OutPoint>): seq<RescanNotice>
  {
    TxsNotices(addrs, unspent, Txs(blocks))
  }

  /** What the client follows and was told is what the scanned blocks mean. */
  ghost predicate Tracks(w: World, k: RescanKeys, blocks: seq<Block>, unspent: set<OutPoint>, sent: seq<RescanNotice>)
    reads k
  {
    Stays(w.alive) ==>
      k.unspent == Following(k.addrs, blocks, unspent) && k.sent == sent + Told(k.addrs, blocks, unspent)
  }

  lemma OneMoreBlock(addrs: set<Address>, blocks: seq<Block>, b: Block, unspent: set<OutPoint>, sent: seq<RescanNotice>)
    ensures Following(addrs, blocks + [b], unspent) == AfterTxs(addrs, Following(addrs, blocks, unspent), b.txs)
    ensures sent + Told(addrs, blocks + [b], unspent)
         == sent + Told(addrs, blocks, unspent) + TxsNotices(addrs, Following(addrs, blocks, unspent), b.txs)
  {
    AfterConcat(addrs, unspent, Txs(blocks), b.txs);
    NoticesConcat(addrs, unspent, Txs(blocks), b.txs);
    assert (blocks + [b])[..|blocks|] == blocks && (blocks + [b])[|blocks|] == b;
    Assoc(sent, Told(addrs, blocks, unspent), TxsNotices(addrs, Following(addrs, blocks, unspent), b.txs));
  }

  // ---------- the loops ----------

  /** How a part of the scan came out: on with the next one, out of time, or over. */
  datatype Halt = Go | TimeUp | Done(result: Result)

  /** Only the outer loop registers the client. */
  predicate Registers(r: Result)
  {
    r.Finished? && r.end.CaughtUp?
  }

  /** The state machine after as many requests as have been made. */
  ghost predicate Halted(run: Trace, now: nat, until: nat, halt: Halt, goes: bool)
  {
    match halt
    case Go => goes
    case TimeUp => now >= until && !run(now).phase.Over?
    case Done(r) => run(now).phase == Over(r) && !Registers(r)
  }

  /** One fetched block: the fork check where a list begins, the client, the transactions, the progress notice. */
  method ScanOne(w: World, k: RescanKeys, b: Block, first: bool, last: Option<Block>, t: nat, ghost blocks: seq<Block>,
                 ghost unspent: set<OutPoint>, ghost sent: seq<RescanNotice>)
    returns (stop: Option<Result>, ghost more: seq<Block>)
    requires last == Last(blocks) && Tracks(w, k, blocks, unspent, sent)
    modifies k
    ensures Tracks(w, k, more, unspent, sent)
    ensures if first && last.Some? && b.prev != last.value.hash then stop == Some(Reorganize) && more == blocks
            else if w.gone(t) then stop == Some(ClientGone) && more == blocks
            else stop == (if w.progressLost(t) then Some(ClientGone) else None) && more == blocks + [b]
  {
    if first && last.Some? && b.prev != last.value.hash {
      return Some(Reorganize), blocks;
    }
    if w.gone(t) {
      return Some(ClientGone), blocks;
    }
    OneMoreBlock(k.addrs, blocks, b, unspent, sent);
    var _ := k.RescanBlock(b, w.alive);
    more := blocks + [b];
    stop := if w.progressLost(t) then Some(ClientGone) else None;
  }

  /** A new range after a block of the old one went missing, which has to continue from the last block. */
  method RecoverFromReorg(w: World, job: Job, next: nat, last: Option<Block>, now: nat, ghost run: Trace)
    returns (halt: Halt, list: seq<Hash>, after: nat)
    requires IsRun(w, job, run)
    requires run(now).phase.AtRecover? && run(now).next == next && last == Last(run(now).blocks)
    ensures now < after <= now + 2 && run(after).blocks == run(now).blocks && run(after).next == next
    ensures forall m :: now <= m < after ==> !run(m).phase.Over?
    ensures Halted(run, after, after, halt, list != [] && run(after).phase == AtBlock(list, 0)) && !halt.TimeUp?
  {
    RunStep(w, job, run, now);
    after := now + 1;
    list := RangeOf(w.chain(now), next, job.maxBlock);
    if |list| == 0 {
      return Done(Finished(last, NoMoreBlocks)), list, after;
    }
    if last.None? {
      return Go, list, after;
    }
    RunStep(w, job, run, now + 1);
    var found := FetchAt(w, after, list[0]);
    after := now + 2;
    if !found.Fetched? {
      return Done(DatabaseError), list, after;
    }
    if PrevOf(list[0]) != last.value.hash {
      return Done(Reorganize), list, after;
    }
    halt := Go;
  }

  lemma FetchedStep(w: World, job: Job, run: Trace, now: nat)
    requires IsRun(w, job, run) && run(now).phase.AtBlock? && Proper(run(now))
    requires FetchAt(w, now, Wanted(run(now))).Fetched?
    ensures var s := run(now);
      var more := s.blocks + [BlockOf(w, Wanted(s))];
      if s.phase.i == 0 && Breaks(s.blocks, Wanted(s)) then run(now + 1) == Stop(s, Reorganize)
      else if w.gone(now) then run(now + 1) == Stop(s, ClientGone)
      else if w.progressLost(now) then run(now + 1) == Scan(Over(ClientGone), s.next, more)
      else if s.phase.i + 1 < |s.phase.list| then
        run(now + 1) == Scan(AtBlock(s.phase.list, s.phase.i + 1), s.next, more)
      else run(now + 1) == Loop(job.maxBlock, s.next + |s.phase.list|, more)
  {
    RunStep(w, job, run, now);
  }

  lemma UnfetchedStep(w: World, job: Job, run: Trace, now: nat)
    requires IsRun(w, job, run) && run(now).phase.AtBlock? && Proper(run(now))
    requires !FetchAt(w, now, Wanted(run(now))).Fetched?
    ensures var s := run(now);
      run(now + 1) == if !FetchAt(w, now, Wanted(s)).NotFound? then Stop(s, DatabaseError)
                      else if job.maxBlock != MAX_INT32 then Stop(s, Reorganize)
                      else Scan(AtRecover, s.next + s.phase.i, s.blocks)
  {
    RunStep(w, job, run, now);
  }

  /** All blocks of a list, or of the lists that replace it after a missing block. */
  method ScanList(w: World, k: RescanKeys, job: Job, hashes: seq<Hash>, first: nat, before: Option<Block>, start: nat,
                  until: nat, ghost run: Trace, ghost unspent: set<OutPoint>, ghost sent: seq<RescanNotice>)
    returns (halt: Halt, next: nat, last: Option<Block>, now: nat)
    requires IsRun(w, job, run) && |hashes| > 0
    requires run(start) == Scan(AtBlock(hashes, 0), first, run(start).blocks) && before == Last(run(start).blocks)
    requires Tracks(w, k, run(start).blocks, unspent, sent)
    modifies k
    ensures start <= now && Tracks(w, k, run(now).blocks, unspent, sent)
    ensures forall m :: start <= m < now ==> !run(m).phase.Over?
    ensures Halted(run, now, until, halt, run(now) == Loop(job.maxBlock, next, run(now).blocks))
    ensures halt.Go? ==> last == Last(run(now).blocks) && start < now
  {
    next, last, now := first, before, start;
    var list, i := hashes, 0;
    while true
      invariant i < |list| && run(now) == Scan(AtBlock(list, i), next, run(now).blocks)
      invariant start <= now && last == Last(run(now).blocks) && Tracks(w, k, run(now).blocks, unspent, sent)
      invariant forall m :: start <= m <= now ==> !run(m).phase.Over?
      decreases until - now
    {
      if now >= until {
        return TimeUp, next, last, now;
      }
      var found := FetchAt(w, now, list[i]);
      if found.Fetched? {
        FetchedStep(w, job, run, now);
      } else {
        UnfetchedStep(w, job, run, now);
      }
      if found.NotInMainChain? || found.Unreadable? {
        return Done(DatabaseError), next, last, now + 1;
      }
      if found.NotFound? {
        if job.maxBlock != MAX_INT32 {
          return Done(Reorganize), next, last, now + 1;
        }
        next := next + i;
        halt, list, now := RecoverFromReorg(w, job, next, last, now + 1, run);
        if halt.Done? {
          return;
        }
        i := 0;
        continue;
      }
      var b := BlockOf(w, list[i]);
      var stop;
      ghost var blocks := run(now).blocks;
      ghost var more;
      stop, more := ScanOne(w, k, b, i == 0, last, now, blocks, unspent, sent);
      now := now + 1;
      if stop.Some? {
        return Done(stop.value), next, last, now;
      }
      last := Some(b);
      i := i + 1;
      if i == |list| {
        return Go, next + |list|, last, now;
      }
    }
  }

  /** The chunked scan makes exactly the requests of the state machine, until it is over or `until` of them are made. */
  method ScanBlockChunks(w: World, k: RescanKeys, minBlock: nat, maxBlock: nat, until: nat, ghost run: Trace)
    returns (r: Option<Result>, registered: Option<set<OutPoint>>, now: nat)
    requires IsRun(w, Job(minBlock, maxBlock), run)
    modifies k
    ensures r.None? ==> now >= until && !run(now).phase.Over?
    ensures r.Some? ==> run(now).phase == Over(r.value)
    ensures forall m :: 0 <= m < now ==> !run(m).phase.Over?
    ensures Tracks(w, k, run(now).blocks, old(k.unspent), old(k.sent))
    ensures registered == if r.Some? && Registers(r.value) then Some(k.unspent) else None
  {
    ghost var unspent, sent := k.unspent, k.sent;
    var job := Job(minBlock, maxBlock);
    var next: nat, last: Option<Block> := minBlock, None;
    now, registered := 0, None;
    while next < maxBlock
      invariant run(now) == Loop(maxBlock, next, run(now).blocks) && last == Last(run(now).blocks)
      invariant Tracks(w, k, run(now).blocks, unspent, sent)
      invariant forall m :: 0 <= m < now ==> !run(m).phase.Over?
      decreases until - now
    {
      if now >= until {
        return None, None, now;
      }
      RunStep(w, job, run, now);
      var hashList := RangeOf(w.chain(now), next, MaxLoopBlock(next, maxBlock));
      now := now + 1;
      if |hashList| == 0 {
        if maxBlock != MAX_INT32 {
          return Some(Finished(last, NoMoreBlocks)), None, now;
        }
        RunStep(w, job, run, now);
        var best := BestAt(w, now);
        now := now + 1;
        if last.None? || last.value.hash == best {
          return Some(Finished(last, CaughtUp)), Some(k.unspent), now;
        }
        continue;
      }
      var halt;
      halt, next, last, now := ScanList(w, k, job, hashList, next, last, now, until, run, unspent, sent);
      if halt.TimeUp? {
        return None, None, now;
      }
      if halt.Done? {
        return Some(halt.result), None, now;
      }
    }
    r := Some(Finished(last, Complete));
  }

  /** With a stop block the scan needs no bound on its requests: it ends within two for each height. */
  method ScanToStop(w: World, k: RescanKeys, minBlock: nat, maxBlock: nat, ghost run: Trace)
    returns (r: Result, now: nat)
    requires Honest(w) && IsRun(w, Job(minBlock, maxBlock), run) && maxBlock != MAX_INT32
    modifies k
    ensures run(now).phase == Over(r) && now <= if minBlock < maxBlock then 2 * (maxBlock - minBlock) else 0
    ensures Tracks(w, k, run(now).blocks, old(k.unspent), old(k.sent))
  {
    var bound := if minBlock < maxBlock then 2 * (maxBlock - minBlock) else 0;
    EndsAtStop(w, Job(minBlock, maxBlock), run, bound);
    var result, _, requests := ScanBlockChunks(w, k, minBlock, maxBlock, bound, run);
    if result.None? {
      EndsAtStop(w, Job(minBlock, maxBlock), run, requests);
    }
    r, now := result.value, requests;
  }

  /** The client is registered at moment t, having been told of the best chain then exactly if it was told of any
      block or there was none to be told of. */
  ghost predicate RegisteredAt(w: World, minBlock: nat, run: Trace, t: nat, blocks: seq<Block>)
  {
    && run(t).phase.AtBest? && run(t + 1).phase.Over? && run(t + 1).blocks == blocks
    && (ScannedAll(w, minBlock, t, blocks) <==> blocks != [] || |w.chain(t)| <= minBlock)
  }

  /** A whole rescan: the blocks scanned are one chain of genuine blocks from the first height on, and the outputs
      followed at the end are those ever followed and never spent exactly if spends follow payments on that chain.
      Without anything to look for nothing is scanned. */
  method Rescan(w: World, addrs: set<Address>, outpoints: set<OutPoint>, minBlock: nat, maxBlock: nat, until: nat,
                ghost run: Trace)
    returns (k: RescanKeys, r: Option<Result>, registered: Option<set<OutPoint>>, ghost blocks: seq<Block>)
    requires Honest(w) && IsRun(w, Job(minBlock, maxBlock), run)
    ensures Linked(blocks, minBlock) && Genuine(w, blocks)
    ensures addrs == {} && outpoints == {} ==> blocks == [] && r.None?
    ensures r.Some? ==> exists n: nat :: run(n) == Scan(Over(r.value), run(n).next, blocks)
    ensures r.None? && (addrs != {} || outpoints != {}) ==>
      exists n: nat :: n >= until && !run(n).phase.Over? && run(n).blocks == blocks
    ensures registered == if r.Some? && Registers(r.value) then Some(k.unspent) else None
    ensures registered.Some? ==> exists t: nat :: RegisteredAt(w, minBlock, run, t, blocks)
    ensures Stays(w.alive) ==> k.sent == TxsNotices(addrs, outpoints, Txs(blocks))
    ensures Stays(w.alive) ==>
      (k.unspent == outpoints + Created(addrs, Txs(blocks)) - SpentBy(Txs(blocks))
       <==> SpentAfterCreation(addrs, Txs(blocks)))
  {
    k := new RescanKeys(addrs, outpoints);
    r, registered, blocks := None, None, [];
    if addrs != {} || outpoints != {} {
      var now;
      r, registered, now := ScanBlockChunks(w, k, minBlock, maxBlock, until, run);
      blocks := run(now).blocks;
      RunSound(w, Job(minBlock, maxBlock), run, now);
      SoundIsDetails(w, Job(minBlock, maxBlock), run(now));
      if registered.Some? {
        ghost var t := CaughtUpExactly(w, Job(minBlock, maxBlock), run, now);
        assert RegisteredAt(w, minBlock, run, t, blocks);
      }
    }
    UnspentLaw(addrs, outpoints, Txs(blocks));
  }

  // ---------- the command ----------

  /** What the client gets back; Ended is the notice that the rescan has finished. */
  datatype Reply = UnknownBlock | Failed(result: Result) | Silent | Ended(hash: Hash, height: nat) | Unended

  /** The height of a block of the best chain. */
  function HeightIn(c: seq<Hash>, h: Hash): Option<nat>
  {
    if h in c then Some(HeightOf(h)) else None
  }

  /** The heights the command names, or None if one of its blocks is not in the best chain when it is looked up. */
  function JobOf(begin: Hash, end: Option<Hash>, atBegin: seq<Hash>, atEnd: seq<Hash>): Option<Job>
  {
    var minBlock := HeightIn(atBegin, begin);
    if minBlock.None? then None
    else if end.None? then Some(Job(minBlock.value, MAX_INT32))
    else
      var maxBlock := HeightIn(atEnd, end.value);
      if maxBlock.None? then None else Some(Job(minBlock.value, maxBlock.value))
  }

  /** The notice about the end names the last block scanned: there is none if no block was. */
  function ReplyTo(r: Result): Reply
  {
    match r
    case Finished(None, _) => Silent
    case Finished(Some(b), _) => Ended(b.hash, b.height)
    case ClientGone => Silent
    case _ => Failed(r)
  }

  /** The client gets no reply exactly if it has gone, or if the rescan succeeded and scanned no block. */
  lemma SilentExactly(w: World, job: Job, run: Trace, n: nat)
    requires IsRun(w, job, run) && run(n).phase.Over?
    ensures ReplyTo(run(n).phase.result) == Silent
            <==> run(n).phase.result.ClientGone? || (run(n).phase.result.Finished? && run(n).blocks == [])
  {
    if run(0).phase.Over? {
      OverStays(w, job, run, 0, n);
    } else {
      var t := LastRequest(w, job, run, n);
      RunStep(w, job, run, t);
    }
  }

  /** So it is for a rescan that begins and ends with the same block, whatever the chain does. */
  lemma SameBlockSilent(w: World, begin: Hash, c: seq<Hash>)
    requires begin in c
    ensures JobOf(begin, Some(begin), c, c) == Some(Job(HeightOf(begin), HeightOf(begin)))
    ensures Run(w, Job(HeightOf(begin), HeightOf(begin)), 0).phase == Over(Finished(None, Complete))
    ensures ReplyTo(Finished(None, Complete)) == Silent
  {
  }

  /** A block is at a height of a best chain. */
  ghost predicate At(c: seq<Hash>, h: Hash, a: nat)
  {
    IsChain(c) && a < |c| && c[a] == h
  }

  ghost function BlocksOf(w: World, hashes: seq<Hash>): (blocks: seq<Block>)
    ensures |blocks| == |hashes| && forall k :: 0 <= k < |blocks| ==> blocks[k] == BlockOf(w, hashes[k])
  {
    seq(|hashes|, k requires 0 <= k < |hashes| => BlockOf(w, hashes[k]))
  }

  /** In every world the blocks scanned start at the height of the begin block and stay below that of the end block. */
  ghost predicate BetweenBlocks(begin: Hash, end: Option<Hash>, atBegin: seq<Hash>, atEnd: seq<Hash>,
                                blocks: seq<Block>)
  {
    && (forall a: nat :: At(atBegin, begin, a) ==> Linked(blocks, a))
    && (end.Some? ==> forall b: nat :: At(atEnd, end.value, b) ==> Below(blocks, b))
  }

  ghost predicate Below(blocks: seq<Block>, b: nat)
  {
    forall k :: 0 <= k < |blocks| ==> blocks[k].height < b
  }

  /** From height a to the end block at height b, on a chain that stands still: exactly the blocks from a up to b - 1
      are scanned and the last of them is named. */
  ghost predicate ScansToEnd(w: World, c: seq<Hash>, a: nat, b: nat, until: nat, reply: Reply, blocks: seq<Block>)
  {
    a < b <= |c| && until >= 2 * (b - a) ==> reply == Ended(c[b - 1], b - 1) && blocks == BlocksOf(w, c[a..b])
  }

  /** In every world there is nothing to scan, and no reply, if the end block is not above the begin block. */
  ghost predicate SilentIfEmpty(begin: Hash, end: Option<Hash>, atBegin: seq<Hash>, atEnd: seq<Hash>, reply: Reply,
                                blocks: seq<Block>)
  {
    end.Some? ==> forall a: nat, b: nat :: At(atBegin, begin, a) && At(atEnd, end.value, b) && b <= a ==>
      reply == Silent && blocks == []
  }

  /** Without an end block exactly the blocks from a up to the tip are scanned, and the tip is named. */
  ghost predicate ScansToTip(w: World, c: seq<Hash>, a: nat, until: nat, reply: Reply, blocks: seq<Block>)
  {
    a < |c| < MAX_INT32 && until >= 2 * (|c| - a) + 2 ==>
      reply == Ended(c[|c| - 1], |c| - 1) && blocks == BlocksOf(w, c[a..])
  }

  /** What a client that stays is told when the chain stands still and no data is missing. */
  ghost predicate ScansAll(w: World, begin: Hash, end: Option<Hash>, atBegin: seq<Hash>, atEnd: seq<Hash>, until: nat,
                           reply: Reply, blocks: seq<Block>)
  {
    Calm(w) ==> forall c, a: nat :: Still(w, c) && At(atBegin, begin, a) ==>
      if end.None? then ScansToTip(w, c, a, until, reply, blocks)
      else forall b: nat :: At(atEnd, end.value, b) ==> ScansToEnd(w, c, a, b, until, reply, blocks)
  }

  /** How a run came out when it was observed for so many requests. */
  ghost predicate CameOut(run: Trace, until: nat, r: Option<Result>, blocks: seq<Block>)
  {
    && (r.None? ==> exists n: nat :: n >= until && !run(n).phase.Over?)
    && (r.Some? ==> exists n: nat :: run(n).phase == Over(r.value) && run(n).blocks == blocks)
  }

  lemma OverByThen(w: World, job: Job, run: Trace, m: nat, until: nat, r: Option<Result>, blocks: seq<Block>)
    requires IsRun(w, job, run) && m <= until && run(m).phase.Over? && CameOut(run, until, r, blocks)
    ensures r == Some(run(m).phase.result) && blocks == run(m).blocks
  {
    if r.None? {
      var n: nat :| n >= until && !run(n).phase.Over?;
      OverStays(w, job, run, m, n);
    } else {
      var n: nat :| run(n).phase == Over(r.value) && run(n).blocks == blocks;
      if m <= n {
        OverStays(w, job, run, m, n);
      } else {
        OverStays(w, job, run, n, m);
      }
    }
  }

  lemma PartOfChain(w: World, c: seq<Hash>, a: nat, b: nat, blocks: seq<Block>)
    requires IsChain(c) && a < b <= |c| && |blocks| == b - a
    requires forall k :: 0 <= k < |blocks| ==> blocks[k] == BlockOf(w, c[a + k])
    ensures blocks == BlocksOf(w, c[a..b])
    ensures ReplyTo(Finished(Last(blocks), Complete)) == Ended(c[b - 1], b - 1)
    ensures ReplyTo(Finished(Last(blocks), CaughtUp)) == Ended(c[b - 1], b - 1)
  {
    assert blocks[b - 1 - a] == BlockOf(w, c[b - 1]);
    ChainHeights(c, b - 1);
  }

  lemma EndReply(w: World, c: seq<Hash>, job: Job, run: Trace, until: nat, r: Option<Result>, blocks: seq<Block>)
    requires Still(w, c) && Calm(w) && IsRun(w, job, run) && CameOut(run, until, r, blocks)
    ensures r.Some? ==> ScansToEnd(w, c, job.minBlock, job.maxBlock, until, ReplyTo(r.value), blocks)
    ensures r.None? ==> ScansToEnd(w, c, job.minBlock, job.maxBlock, until, Unended, blocks)
  {
    var a, b := job.minBlock, job.maxBlock;
    if a < b <= |c| && until >= 2 * (b - a) {
      var n := 2 * (b - a);
      ReachesStop(w, c, job, run, n);
      OverByThen(w, job, run, n, until, r, blocks);
      PartOfChain(w, c, a, b, blocks);
    }
  }

  lemma TipReply(w: World, c: seq<Hash>, job: Job, run: Trace, until: nat, r: Option<Result>, blocks: seq<Block>)
    requires Honest(w) && Still(w, c) && Calm(w) && IsRun(w, job, run) && CameOut(run, until, r, blocks)
    requires job.maxBlock == MAX_INT32
    ensures r.Some? ==> ScansToTip(w, c, job.minBlock, until, ReplyTo(r.value), blocks)
    ensures r.None? ==> ScansToTip(w, c, job.minBlock, until, Unended, blocks)
  {
    var a := job.minBlock;
    if a < |c| < MAX_INT32 && until >= 2 * (|c| - a) + 2 {
      var n := CatchesUp(w, c, job, run);
      OverByThen(w, job, run, n, until, r, blocks);
      PartOfChain(w, c, a, |c|, blocks);
      assert c[a..|c|] == c[a..];
    }
  }

  /** What the command found of its blocks. */
  lemma JobIs(begin: Hash, end: Option<Hash>, atBegin: seq<Hash>, atEnd: seq<Hash>, a: nat)
    requires At(atBegin, begin, a) && JobOf(begin, end, atBegin, atEnd).Some?
    ensures var job := JobOf(begin, end, atBegin, atEnd).value;
      && job.minBlock == a && (end.None? ==> job.maxBlock == MAX_INT32)
      && (end.Some? ==> forall b: nat :: At(atEnd, end.value, b) ==> job.maxBlock == b)
  {
    ChainHeights(atBegin, a);
    forall b: nat | end.Some? && At(atEnd, end.value, b)
      ensures HeightOf(end.value) == b
    {
      ChainHeights(atEnd, b);
    }
  }

  lemma RepliesAll(w: World, begin: Hash, end: Option<Hash>, atBegin: seq<Hash>, atEnd: seq<Hash>, until: nat,
                   run: Trace, r: Option<Result>, blocks: seq<Block>)
    requires Honest(w) && JobOf(begin, end, atBegin, atEnd).Some? && CameOut(run, until, r, blocks)
    requires IsRun(w, JobOf(begin, end, atBegin, atEnd).value, run)
    ensures var reply := if r.None? then Unended else ReplyTo(r.value);
      && ScansAll(w, begin, end, atBegin, atEnd, until, reply, blocks)
      && SilentIfEmpty(begin, end, atBegin, atEnd, reply, blocks)
  {
    var job := JobOf(begin, end, atBegin, atEnd).value;
    forall a: nat, b: nat | end.Some? && At(atBegin, begin, a) && At(atEnd, end.value, b) && b <= a
      ensures r == Some(Finished(None, Complete)) && blocks == []
    {
      JobIs(begin, end, atBegin, atEnd, a);
      OverByThen(w, job, run, 0, until, r, blocks);
    }
    if Calm(w) {
      forall c, a: nat | Still(w, c) && At(atBegin, begin, a)
        ensures var reply := if r.None? then Unended else ReplyTo(r.value);
          if end.None? then ScansToTip(w, c, a, until, reply, blocks)
          else forall b: nat :: At(atEnd, end.value, b) ==> ScansToEnd(w, c, a, b, until, reply, blocks)
      {
        JobIs(begin, end, atBegin, atEnd, a);
        if end.None? {
          TipReply(w, c, job, run, until, r, blocks);
        } else {
          EndReply(w, c, job, run, until, r, blocks);
        }
      }
    }
  }

  lemma StaysBetween(w: World, begin: Hash, end: Option<Hash>, atBegin: seq<Hash>, atEnd: seq<Hash>, run: Trace, n: nat)
    requires Honest(w) && JobOf(begin, end, atBegin, atEnd).Some?
    requires IsRun(w, JobOf(begin, end, atBegin, atEnd).value, run)
    ensures BetweenBlocks(begin, end, atBegin, atEnd, run(n).blocks)
  {
    var job := JobOf(begin, end, atBegin, atEnd).value;
    RunSound(w, job, run, n);
    SoundIsDetails(w, job, run(n));
    StopsBefore(w, job, run, n);
    forall a: nat | At(atBegin, begin, a)
      ensures Linked(run(n).blocks, a)
    {
      JobIs(begin, end, atBegin, atEnd, a);
    }
    forall b: nat | end.Some? && At(atEnd, end.value, b)
      ensures Below(run(n).blocks, b)
    {
      ChainHeights(atEnd, b);
    }
  }

  /**
   * The rescan command.  `best` is the best block as looked up when there is nothing to look for, and `until` the
   * number of requests to the chain after which it is no longer observed.
   */
  method HandleRescan(w: World, addrs: set<Address>, outpoints: set<OutPoint>, begin: Hash, end: Option<Hash>,
                      atBegin: seq<Hash>, atEnd: seq<Hash>, best: Option<Block>, until: nat)
    returns (reply: Reply, sent: seq<RescanNotice>, ghost blocks: seq<Block>)
    requires Honest(w)
    ensures reply == UnknownBlock <==>
      begin !in atBegin || (end.Some? && end.value !in atEnd) || (addrs == {} && outpoints == {} && best.None?)
    ensures addrs == {} && outpoints == {} ==>
      blocks == [] && (reply != UnknownBlock ==> best.Some? && reply == Ended(best.value.hash, best.value.height))
    ensures Genuine(w, blocks) && BetweenBlocks(begin, end, atBegin, atEnd, blocks)
    ensures Stays(w.alive) ==> sent == NoticesUpTo(addrs, outpoints, Txs(blocks), |Txs(blocks)|)
    ensures reply != UnknownBlock && (addrs != {} || outpoints != {}) ==>
      && ScansAll(w, begin, end, atBegin, atEnd, until, reply, blocks)
      && SilentIfEmpty(begin, end, atBegin, atEnd, reply, blocks)
    ensures reply != UnknownBlock && (addrs != {} || outpoints != {}) ==>
      var job := JobOf(begin, end, atBegin, atEnd);
      && job.Some?
      && if reply.Unended? then exists n: nat :: n >= until && !Run(w, job.value, n).phase.Over?
         else exists n: nat :: Run(w, job.value, n).phase.Over? && Run(w, job.value, n).blocks == blocks
                               && reply == ReplyTo(Run(w, job.value, n).phase.result)
  {
    var job := JobOf(begin, end, atBegin, atEnd);
    if job.None? {
      return UnknownBlock, [], [];
    }
    if addrs == {} && outpoints == {} {
      return if best.None? then UnknownBlock else Ended(best.value.hash, best.value.height), [], [];
    }
    ghost var run: Trace := (n: nat) => Run(w, job.value, n);
    RunIsRun(w, job.value);
    reply, sent, blocks := RescanJob(w, addrs, outpoints, begin, end, atBegin, atEnd, job.value, until, run);
  }

  /** The part of the command that makes the rescan. */
  method RescanJob(w: World, addrs: set<Address>, outpoints: set<OutPoint>, ghost begin: Hash, ghost end: Option<Hash>,
                   ghost atBegin: seq<Hash>, ghost atEnd: seq<Hash>, job: Job, until: nat, ghost run: Trace)
    returns (reply: Reply, sent: seq<RescanNotice>, ghost blocks: seq<Block>)
    requires Honest(w) && (addrs != {} || outpoints != {})
    requires JobOf(begin, end, atBegin, atEnd) == Some(job) && IsRun(w, job, run)
    ensures reply != UnknownBlock && Genuine(w, blocks) && BetweenBlocks(begin, end, atBegin, atEnd, blocks)
    ensures Stays(w.alive) ==> sent == NoticesUpTo(addrs, outpoints, Txs(blocks), |Txs(blocks)|)
    ensures ScansAll(w, begin, end, atBegin, atEnd, until, reply, blocks)
    ensures SilentIfEmpty(begin, end, atBegin, atEnd, reply, blocks)
    ensures if reply.Unended? then exists n: nat :: n >= until && !run(n).phase.Over?
            else exists n: nat :: run(n).phase.Over? && run(n).blocks == blocks
                                  && reply == ReplyTo(run(n).phase.result)
  {
    var k, r, _, scanned := Rescan(w, addrs, outpoints, job.minBlock, job.maxBlock, until, run);
    sent, blocks := k.sent, scanned;
    RepliesAll(w, begin, end, atBegin, atEnd, until, run, r, blocks);
    AllTold(addrs, outpoints, Txs(blocks));
    ghost var n: nat :| run(n).blocks == blocks;
    StaysBetween(w, begin, end, atBegin, atEnd, run, n);
    reply := if r.None? then Unended else ReplyTo(r.value);
  }

  lemma AllTold(addrs: set<Address>, unspent: set<OutPoint>, txs: seq<Tx>)
    ensures TxsNotices(addrs, unspent, txs) == NoticesUpTo(addrs, unspent, txs, |txs|)
  {
    ToldExactly(addrs, unspent, txs, |txs|);
    assert txs[..|txs|] == txs;
  }

  // ---------- worlds made of chain views ----------

  /** The hashes of the branch of a tip, by height. */
  ghost function HashesOf(tip: BlockNode): (c: seq<Hash>)
    requires tip.Linked()
    ensures |c| == tip.height + 1 && forall i :: 0 <= i <= tip.height ==> c[i] == tip.At(i).Hash()
  {
    seq(tip.height + 1, i requires 0 <= i <= tip.height => tip.At(i).Hash())
  }

  lemma ViewIsChain(tip: BlockNode)
    requires tip.WellFormed() && tip.At(0).header.prev == ZeroHash
    ensures IsChain(HashesOf(tip))
  {
    forall i | 0 < i <= tip.height
      ensures PrevOf(HashesOf(tip)[i]) == HashesOf(tip)[i - 1]
    {
      BranchNode(tip, i);
    }
  }

  /** What HeightRange gives for a view is what the scan is answered. */
  lemma HeightRangeAnswers(tip: BlockNode, hashes: seq<Hash>, a: nat, b: nat)
    requires tip.Linked() && a <= b && HashesFrom(Branch(tip), hashes, a)
    requires |hashes| == if a > tip.height then 0 else (if b > tip.height + 1 then tip.height + 1 else b) - a
    ensures hashes == RangeOf(HashesOf(tip), a, b)
  {
    var list := RangeOf(HashesOf(tip), a, b);
    forall k | 0 <= k < |hashes|
      ensures hashes[k] == tip.At(a + k).Hash()
    {
      assert Branch(tip)[a + k] == tip.At(a + k);
    }
  }

  /** The world in which the best chain's view has the given tip at each moment. */
  ghost function WorldOf(tips: nat -> BlockNode, w: World): World
    requires forall t: nat {:trigger tips(t)} :: tips(t).Linked()
  {
    w.(chain := (t: nat) => HashesOf(tips(t)))
  }

  lemma ViewsAreHonest(tips: nat -> BlockNode, w: World)
    requires forall t: nat {:trigger tips(t)} :: tips(t).Linked()
    requires forall t: nat {:trigger tips(t)} :: tips(t).WellFormed() && tips(t).At(0).header.prev == ZeroHash
    ensures Honest(WorldOf(tips, w))
  {
    forall t: nat
      ensures IsChain(HashesOf(tips(t)))
    {
      ViewIsChain(tips(t));
    }
  }
}
