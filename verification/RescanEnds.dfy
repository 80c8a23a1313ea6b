/** When a rescan recovers, when it ends, and when it does not. */
module RescanEnds {
  import opened Basics
  import opened BlockNodes
  import opened RescanBlocks
  import opened RescanWorlds
  import opened RescanRuns

  // ---------- recovery ----------

  /** A new range is asked for exactly after a block of the best chain whose data is gone, in a scan without stop
      block. */
  lemma RecoveryRuns(w: World, job: Job, run: Trace, n: nat)
    requires IsRun(w, job, run)
    ensures run(n + 1).phase.AtRecover? <==>
      && job.maxBlock == MAX_INT32 && run(n).phase.AtBlock? && Proper(run(n))
      && Wanted(run(n)) in w.chain(n) && !w.stored(n, Wanted(run(n)))
  {
    RunStep(w, job, run, n);
  }

  /** A block that has left the best chain since its range was answered ends the scan with a database error: the
      code meant for reorganisations does not run for it. */
  lemma ReorganisedBlockEnds(w: World, job: Job, run: Trace, n: nat)
    requires IsRun(w, job, run) && run(n).phase.AtBlock? && Proper(run(n)) && Wanted(run(n)) !in w.chain(n)
    ensures run(n + 1).phase == Over(DatabaseError)
  {
    RunStep(w, job, run, n);
  }

  /** If no block of the best chain ever lacks its data, no scan ever recovers, whatever is reorganised. */
  lemma {:induction false} NoPruningNoRecovery(w: World, job: Job, run: Trace, n: nat)
    requires IsRun(w, job, run)
    requires forall t: nat, h {:trigger w.stored(t, h)} :: h in w.chain(t) ==> w.stored(t, h)
    ensures !run(n).phase.AtRecover? && !run(n).phase.AtCheck?
  {
    if n > 0 {
      NoPruningNoRecovery(w, job, run, n - 1);
      RunStep(w, job, run, n - 1);
    }
  }

  // ---------- ranges and failures ----------

  /** The answer to a range request: as many hashes as there are, but at most 50000 and none at or above the stop. */
  lemma ChunkExactly(w: World, job: Job, run: Trace, n: nat)
    requires IsRun(w, job, run) && run(n).phase.AtRange? && run(n).next < job.maxBlock
    ensures run(n + 1).phase.AtBlock? <==> run(n).next < |w.chain(n)|
    ensures run(n + 1).phase.AtBlock? ==>
      var list, next := run(n + 1).phase.list, run(n).next;
      && run(n + 1).phase.i == 0 && next + |list| <= |w.chain(n)| && list == w.chain(n)[next..next + |list|]
      && |list| <= 50000 && next + |list| <= job.maxBlock
      && (|list| == 50000 || next + |list| == job.maxBlock || next + |list| == |w.chain(n)|)
  {
    RunStep(w, job, run, n);
  }

  /** A scan fails exactly for one of the causes of the failure. */
  lemma FailsExactly(w: World, job: Job, run: Trace, n: nat, r: Result)
    requires IsRun(w, job, run) && !run(n).phase.Over? && !r.Finished?
    ensures Proper(run(n)) && (run(n + 1).phase == Over(r) <==> Cause(w, job.maxBlock, n, run(n), r))
  {
    RunStep(w, job, run, n);
  }

  // ---------- where pruned blocks stay pruned ----------

  lemma InChainAt(c: seq<Hash>, h: Hash)
    requires IsChain(c) && h in c
    ensures HeightOf(h) < |c| && c[HeightOf(h)] == h
  {
    var k :| 0 <= k < |c| && c[k] == h;
    ChainHeights(c, k);
  }

  /** The scan is over without an error. */
  predicate EndsBy(s: Scan, end: End)
  {
    s.phase.Over? && s.phase.result.Finished? && s.phase.result.end == end
  }

  /** The request before a recovery wanted a block without data, at the height the recovery asks for. */
  lemma RecoveredFrom(w: World, job: Job, run: Trace, n: nat) returns (h: Hash)
    requires Honest(w) && IsRun(w, job, run) && run(n + 1).phase.AtRecover?
    ensures Missing(w, n, h) && HeightOf(h) == run(n + 1).next == job.minBlock + |run(n + 1).blocks| < job.maxBlock
    ensures run(n + 1).blocks == run(n).blocks && job.maxBlock == MAX_INT32
  {
    RunStep(w, job, run, n);
    RunSound(w, job, run, n);
    SoundIsDetails(w, job, run(n));
    h := Wanted(run(n));
  }

  /** The new range begins with the same block without data. */
  lemma SameBlockAgain(w: World, t: nat, h: Hash, b: nat)
    requires Honest(w) && Missing(w, t, h) && HeightOf(h) < b
    ensures RangeOf(w.chain(t), HeightOf(h), b) != [] && RangeOf(w.chain(t), HeightOf(h), b)[0] == h
  {
    assert IsChain(w.chain(t));
    InChainAt(w.chain(t), h);
  }

  /** A scan without stop block never ends without having registered the client for want of blocks. */
  lemma NeverUnregistered(w: World, job: Job, run: Trace, n: nat)
    requires Honest(w) && Lasting(w) && IsRun(w, job, run) && job.maxBlock == MAX_INT32
    ensures !EndsBy(run(n), NoMoreBlocks)
  {
    if EndsBy(run(n), NoMoreBlocks) {
      if run(0).phase.Over? {
        OverStays(w, job, run, 0, n);
      }
      var t := LastRequest(w, job, run, n);
      var h := RecoveredFrom(w, job, run, t - 1);
      StaysMissing(w, t - 1, h);
      SameBlockAgain(w, t, h, job.maxBlock);
    }
  }

  /** Once a block has been scanned a recovery never succeeds: its second request meets the same block. */
  lemma RecoveryFails(w: World, job: Job, run: Trace, n: nat)
    requires Honest(w) && Lasting(w) && IsRun(w, job, run) && run(n + 1).phase.AtRecover? && run(n).blocks != []
    ensures run(n + 3).phase == Over(DatabaseError)
  {
    var h := RecoveredFrom(w, job, run, n);
    StaysMissing(w, n, h);
    StaysMissing(w, n + 1, h);
    SameBlockAgain(w, n + 1, h, job.maxBlock);
    RunStep(w, job, run, n + 1);
    RunStep(w, job, run, n + 2);
  }

  /** Nothing has been scanned and the first block is wanted, or a range from it on, though it has no data. */
  ghost predicate Hangs(w: World, job: Job, t: nat, s: Scan, h: Hash)
  {
    && Missing(w, t, h) && HeightOf(h) == s.next == job.minBlock < job.maxBlock && s.blocks == []
    && (s.phase.AtRecover?
        || (s.phase.AtBlock? && s.phase.i == 0 && s.phase.list != [] && s.phase.list[0] == h))
  }

  lemma HangsOn(w: World, job: Job, run: Trace, n: nat, h: Hash)
    requires Honest(w) && Lasting(w) && IsRun(w, job, run) && job.maxBlock == MAX_INT32 && Hangs(w, job, n, run(n), h)
    ensures Hangs(w, job, n + 1, run(n + 1), h)
  {
    RunStep(w, job, run, n);
    StaysMissing(w, n, h);
    SameBlockAgain(w, n, h, job.maxBlock);
  }

  /** If nothing has been scanned it goes on for ever, however the chain changes. */
  lemma {:induction false} RecoveryHangs(w: World, job: Job, run: Trace, n: nat, m: nat)
    requires Honest(w) && Lasting(w) && IsRun(w, job, run) && run(n + 1).phase.AtRecover? && run(n).blocks == []
    requires n < m
    ensures exists h :: Hangs(w, job, m, run(m), h)
  {
    if m == n + 1 {
      var h := RecoveredFrom(w, job, run, n);
      StaysMissing(w, n, h);
      assert Hangs(w, job, m, run(m), h);
    } else {
      RecoveryHangs(w, job, run, n, m - 1);
      var h :| Hangs(w, job, m - 1, run(m - 1), h);
      RecoveryRuns(w, job, run, n);
      HangsOn(w, job, run, m - 1, h);
    }
  }

  /** So a scan that has to recover ends exactly if it has scanned a block before, and then with a database error. */
  lemma RecoveryOutcome(w: World, job: Job, run: Trace, n: nat)
    requires Honest(w) && Lasting(w) && IsRun(w, job, run) && run(n + 1).phase.AtRecover?
    ensures (exists m: nat :: run(m).phase.Over?) <==> run(n).blocks != []
    ensures run(n).blocks != [] ==> run(n + 3).phase == Over(DatabaseError)
  {
    if run(n).blocks != [] {
      RecoveryFails(w, job, run, n);
    } else {
      forall m: nat
        ensures !run(m).phase.Over?
      {
        if m > n {
          RecoveryHangs(w, job, run, n, m);
        } else if run(m).phase.Over? {
          OverStays(w, job, run, m, n + 1);
        }
      }
    }
  }

  /** In particular a scan whose first block is there without data never ends. */
  lemma FirstMissing(w: World, job: Job, run: Trace, h: Hash)
    requires Honest(w) && Lasting(w) && IsRun(w, job, run) && job.maxBlock == MAX_INT32
    requires Missing(w, 0, h) && HeightOf(h) == job.minBlock < job.maxBlock
    ensures forall n: nat :: !run(n).phase.Over?
  {
    FirstAnswer(w, job, run, h);
    StaysMissing(w, 0, h);
    RecoveryRuns(w, job, run, 1);
    RecoveryOutcome(w, job, run, 1);
  }

  lemma FirstAnswer(w: World, job: Job, run: Trace, h: Hash)
    requires Honest(w) && IsRun(w, job, run) && Missing(w, 0, h) && HeightOf(h) == job.minBlock < job.maxBlock
    ensures run(1).blocks == [] && run(1).phase.AtBlock? && Proper(run(1)) && Wanted(run(1)) == h
  {
    SameBlockAgain(w, 0, h, MaxLoopBlock(job.minBlock, job.maxBlock));
    RunStep(w, job, run, 0);
  }

  // ---------- a scan that has caught up ----------

  /** The blocks are those of the best chain at moment t from a height on. */
  ghost predicate ScannedAll(w: World, start: nat, t: nat, blocks: seq<Block>)
  {
    var list := RangeOf(w.chain(t), start, |w.chain(t)|);
    |blocks| == |list| && forall k {:trigger blocks[k]} :: 0 <= k < |blocks| ==> blocks[k] == BlockOf(w, list[k])
  }

  /** A chain of blocks that ends where another one does is part of it. */
  lemma {:induction false} SameChain(w: World, c: seq<Hash>, blocks: seq<Block>, start: nat, k: nat)
    requires IsChain(c) && Linked(blocks, start) && Genuine(w, blocks) && k < |blocks| && start + |blocks| == |c|
    requires blocks[|blocks| - 1].hash == c[|c| - 1]
    ensures blocks[k] == BlockOf(w, c[start + k])
    decreases |blocks| - k
  {
    if k + 1 < |blocks| {
      SameChain(w, c, blocks, start, k + 1);
      assert blocks[k + 1].prev == blocks[k].hash && PrevOf(c[start + k + 1]) == c[start + k];
    }
  }

  lemma TipScanned(w: World, job: Job, t: nat, s: Scan)
    requires IsChain(w.chain(t)) && Details(w, job, s) && s.blocks != []
    requires s.blocks[|s.blocks| - 1].hash == BestAt(w, t)
    ensures ScannedAll(w, job.minBlock, t, s.blocks)
  {
    var c, blocks := w.chain(t), s.blocks;
    ChainHeights(c, |c| - 1);
    assert blocks[|blocks| - 1].height == HeightOf(BestAt(w, t)) == |c| - 1;
    forall k | 0 <= k < |blocks|
      ensures blocks[k] == BlockOf(w, c[job.minBlock + k])
    {
      SameChain(w, c, blocks, job.minBlock, k);
    }
  }

  /**
   * A scan that ends caught up, and registers the client, has scanned exactly the best chain of that moment from its
   * first height on, if and only if it has scanned a block at all or the best chain does not reach that height.
   */
  lemma CaughtUpExactly(w: World, job: Job, run: Trace, n: nat) returns (t: nat)
    requires Honest(w) && IsRun(w, job, run) && EndsBy(run(n), CaughtUp)
    ensures t < n && run(t).phase.AtBest? && run(t + 1) == run(n)
    ensures ScannedAll(w, job.minBlock, t, run(n).blocks)
            <==> run(n).blocks != [] || |w.chain(t)| <= job.minBlock
  {
    if run(0).phase.Over? {
      OverStays(w, job, run, 0, n);
    }
    t := LastRequest(w, job, run, n);
    RunStep(w, job, run, t);
    RunSound(w, job, run, n);
    SoundIsDetails(w, job, run(n));
    if run(n).blocks != [] {
      TipScanned(w, job, t, run(n));
    }
  }

  /** A world in which a block is missed: the chain is one block long when its range is asked for and grows then. */
  function GrowsBetween(): World
  {
    var first := BlockHash(Header(ZeroHash, 0, 0, 0));
    var second := BlockHash(Header(first, 0, 0, 1));
    World(t => if t == 0 then [first] else [first, second], _ => [], (_, _) => true, (_, _) => false, _ => false,
          _ => false, _ => true)
  }

  lemma MissedExample(run: Trace)
    requires IsRun(GrowsBetween(), Job(1, MAX_INT32), run)
    ensures Honest(GrowsBetween()) && Lasting(GrowsBetween())
    ensures run(2).phase == Over(Finished(None, CaughtUp)) && !ScannedAll(GrowsBetween(), 1, 1, run(2).blocks)
  {
    var w, job := GrowsBetween(), Job(1, MAX_INT32);
    RunStep(w, job, run, 0);
    RunStep(w, job, run, 1);
    assert |w.chain(1)| == 2;
    forall t: nat
      ensures Lasts(w, t)
    {
      assert forall h :: !Missing(w, t, h);
    }
  }

  // ---------- a scan with a stop block ----------

  /** Requests a scan with a stop block has left at most. */
  function Left(job: Job, s: Scan): int
  {
    match s.phase
    case AtRange => 2 * (job.maxBlock - s.next)
    case AtBlock(_, i) => 2 * (job.maxBlock - s.next - i) - 1
    case _ => 0
  }

  predicate Plain(s: Scan)
  {
    s.phase.AtRange? || s.phase.AtBlock? || s.phase.Over?
  }

  lemma StepLeft(w: World, job: Job, t: nat, s: Scan)
    requires job.maxBlock != MAX_INT32 && Proper(s) && Sound(w, job, s) && Plain(s) && !s.phase.Over?
    ensures var r := Step(w, job.maxBlock, t, s); Plain(r) && (r.phase.Over? || Left(job, r) < Left(job, s))
    ensures Left(job, s) > 0
  {
    SoundIsDetails(w, job, s);
  }

  lemma {:induction false} RunLeft(w: World, job: Job, run: Trace, n: nat)
    requires Honest(w) && IsRun(w, job, run) && job.maxBlock != MAX_INT32
    ensures Plain(run(n)) && (run(n).phase.Over? || Left(job, run(n)) <= 2 * (job.maxBlock - job.minBlock) - n)
  {
    if n > 0 {
      RunLeft(w, job, run, n - 1);
      RunStep(w, job, run, n - 1);
      if !run(n - 1).phase.Over? {
        RunSound(w, job, run, n - 1);
        StepLeft(w, job, n - 1, run(n - 1));
      }
    }
  }

  /** With a stop block every scan ends, within two requests for each height it was asked to scan. */
  lemma EndsAtStop(w: World, job: Job, run: Trace, n: nat)
    requires Honest(w) && IsRun(w, job, run) && job.maxBlock != MAX_INT32
    requires n >= 2 * (job.maxBlock - job.minBlock)
    ensures run(n).phase.Over?
  {
    RunLeft(w, job, run, n);
    if !run(n).phase.Over? {
      RunSound(w, job, run, n);
      RunStep(w, job, run, n);
      StepLeft(w, job, n, run(n));
    }
  }

  /** The stop block itself is never scanned, and a scan that is complete has scanned every height below it. */
  lemma StopsBefore(w: World, job: Job, run: Trace, n: nat)
    requires Honest(w) && IsRun(w, job, run)
    ensures forall k :: 0 <= k < |run(n).blocks| ==> run(n).blocks[k].height < job.maxBlock
    ensures EndsBy(run(n), Complete) && job.minBlock <= job.maxBlock ==>
              |run(n).blocks| == job.maxBlock - job.minBlock
  {
    RunSound(w, job, run, n);
    SoundIsDetails(w, job, run(n));
    if run(0).phase.Over? {
      OverStays(w, job, run, 0, n);
    } else if EndsBy(run(n), Complete) {
      var t := LastRequest(w, job, run, n);
      RunStep(w, job, run, t);
      RunSound(w, job, run, t);
      SoundCounts(w, job, run(t));
    }
  }

  // ---------- a scan without stop block in a world that stands still ----------

  ghost predicate Still(w: World, c: seq<Hash>)
  {
    && IsChain(c)
    && (forall t {:trigger w.chain(t)} :: w.chain(t) == c)
    && (forall t: nat, h {:trigger w.stored(t, h)} :: w.stored(t, h) == w.stored(0, h))
  }

  /** The first block to be scanned is there but has no data. */
  ghost predicate FirstPruned(w: World, c: seq<Hash>, job: Job)
  {
    job.minBlock < |c| && job.minBlock < job.maxBlock && !w.stored(0, c[job.minBlock])
  }

  lemma StillLasts(w: World, c: seq<Hash>)
    requires Still(w, c)
    ensures Honest(w) && Lasting(w)
  {
    forall t: nat
      ensures Lasts(w, t)
    {
      assert w.chain(t) == w.chain(t + 1);
      assert forall h :: w.stored(t, h) == w.stored(0, h) && w.stored(t + 1, h) == w.stored(0, h);
    }
  }

  lemma Endless(w: World, c: seq<Hash>, job: Job, run: Trace)
    requires Still(w, c) && IsRun(w, job, run) && job.maxBlock == MAX_INT32 && FirstPruned(w, c, job)
    ensures forall n: nat :: !run(n).phase.Over?
  {
    StillLasts(w, c);
    ChainHeights(c, job.minBlock);
    assert w.chain(0) == c && w.chain(1) == c && Missing(w, 0, c[job.minBlock]);
    FirstMissing(w, job, run, c[job.minBlock]);
  }

  /** The blocks scanned and the lists are those of the chain, and recovery is about a block without data. */
  ghost predicate Along(w: World, c: seq<Hash>, job: Job, s: Scan)
  {
    && job.minBlock + |s.blocks| <= |c|
    && (forall k {:trigger s.blocks[k]} :: 0 <= k < |s.blocks| ==> s.blocks[k].hash == c[job.minBlock + k])
    && match s.phase
       case AtBlock(list, i) => InChain(c, list, s.next)
       case AtCheck(list) => InChain(c, list, s.next) && list != [] && !w.stored(0, list[0])
       case AtRecover => s.blocks != [] && s.next < |c| && !w.stored(0, c[s.next])
       case AtBest => s.next >= |c|
       case _ => true
  }

  ghost predicate InChain(c: seq<Hash>, list: seq<Hash>, next: nat)
  {
    next + |list| <= |c| && forall k {:trigger list[k]} :: 0 <= k < |list| ==> list[k] == c[next + k]
  }

  /** Requests left at most when the chain stands still. */
  function LeftStill(c: seq<Hash>, s: Scan): int
  {
    match s.phase
    case AtRange => 2 * (|c| - s.next) + 2
    case AtBlock(_, i) => 2 * (|c| - s.next - i) + 1
    case AtRecover => 2
    case AtCheck(_) => 1
    case AtBest => 1
    case Over(_) => 0
  }

  lemma AlongMore(c: seq<Hash>, job: Job, blocks: seq<Block>, b: Block)
    requires job.minBlock + |blocks| < |c| && b.hash == c[job.minBlock + |blocks|]
    requires forall k {:trigger blocks[k]} :: 0 <= k < |blocks| ==> blocks[k].hash == c[job.minBlock + k]
    ensures forall k {:trigger (blocks + [b])[k]} :: 0 <= k <= |blocks| ==>
              (blocks + [b])[k].hash == c[job.minBlock + k]
  {
  }

  lemma BlockAlong(w: World, c: seq<Hash>, job: Job, t: nat, s: Scan)
    requires w.chain(t) == c && job.maxBlock == MAX_INT32 && !FirstPruned(w, c, job) && job.minBlock < |c|
    requires s.phase.AtBlock? && Counted(job, s) && Along(w, c, job, s)
    requires w.stored(t, Wanted(s)) == w.stored(0, Wanted(s))
    ensures var r := AfterBlock(w, job.maxBlock, t, s);
      Along(w, c, job, r) && (r.phase.Over? || LeftStill(c, r) < LeftStill(c, s))
  {
    var h := Wanted(s);
    assert h == c[s.next + s.phase.i];
    AlongMore(c, job, s.blocks, BlockOf(w, h));
  }

  lemma RangeAlong(w: World, c: seq<Hash>, job: Job, t: nat, s: Scan)
    requires w.chain(t) == c && job.maxBlock == MAX_INT32 && job.minBlock < |c| && Counted(job, s)
    requires Along(w, c, job, s) && (s.phase.AtRange? || s.phase.AtRecover?)
    ensures var r := Step(w, job.maxBlock, t, s);
      Along(w, c, job, r) && (r.phase.Over? || LeftStill(c, r) < LeftStill(c, s))
  {
  }

  lemma StepAlong(w: World, c: seq<Hash>, job: Job, t: nat, s: Scan)
    requires Still(w, c) && job.maxBlock == MAX_INT32 && !FirstPruned(w, c, job) && job.minBlock < |c|
    requires Counted(job, s) && Proper(s) && Along(w, c, job, s) && !s.phase.Over?
    ensures var r := Step(w, job.maxBlock, t, s);
      Along(w, c, job, r) && (r.phase.Over? || LeftStill(c, r) < LeftStill(c, s))
    ensures LeftStill(c, s) > 0
  {
    assert w.chain(t) == c;
    if s.phase.AtBlock? || s.phase.AtCheck? {
      assert w.stored(t, Wanted(s)) == w.stored(0, Wanted(s));
    }
    if s.phase.AtBlock? {
      BlockAlong(w, c, job, t, s);
    } else if s.phase.AtRange? || s.phase.AtRecover? {
      RangeAlong(w, c, job, t, s);
    }
  }

  /** Along, and at most so many requests left; sealed. */
  ghost predicate Nearing(w: World, c: seq<Hash>, job: Job, s: Scan, left: int)
  {
    forall x {:trigger Unseal(x)} :: x == s ==> Along(w, c, job, x) && (x.phase.Over? || LeftStill(c, x) <= left)
  }

  lemma NearingIs(w: World, c: seq<Hash>, job: Job, s: Scan, left: int)
    ensures Nearing(w, c, job, s, left) <==> Along(w, c, job, s) && (s.phase.Over? || LeftStill(c, s) <= left)
  {
    assert Unseal(s) == s;
  }

  lemma NextNearing(w: World, c: seq<Hash>, job: Job, run: Trace, n: nat, left: int)
    requires Honest(w) && Still(w, c) && IsRun(w, job, run) && job.maxBlock == MAX_INT32 && job.minBlock < |c|
    requires !FirstPruned(w, c, job) && Nearing(w, c, job, run(n), left)
    ensures Nearing(w, c, job, run(n + 1), left - 1)
  {
    var s := Unseal(run(n));
    RunStep(w, job, run, n);
    if !s.phase.Over? {
      RunSound(w, job, run, n);
      SoundCounts(w, job, s);
      StepAlong(w, c, job, n, s);
    }
  }

  lemma {:induction false} RunNearing(w: World, c: seq<Hash>, job: Job, run: Trace, n: nat)
    requires Honest(w) && Still(w, c) && IsRun(w, job, run) && job.maxBlock == MAX_INT32 && job.minBlock < |c|
    requires !FirstPruned(w, c, job)
    ensures Nearing(w, c, job, run(n), 2 * (|c| - job.minBlock) + 2 - n)
  {
    if n > 0 {
      RunNearing(w, c, job, run, n - 1);
      NextNearing(w, c, job, run, n - 1, 2 * (|c| - job.minBlock) + 3 - n);
    } else {
      NearingIs(w, c, job, run(0), 2 * (|c| - job.minBlock) + 2);
    }
  }

  lemma RunAlong(w: World, c: seq<Hash>, job: Job, run: Trace, n: nat)
    requires Honest(w) && Still(w, c) && IsRun(w, job, run) && job.maxBlock == MAX_INT32 && job.minBlock < |c|
    requires !FirstPruned(w, c, job)
    ensures Along(w, c, job, run(n))
    ensures run(n).phase.Over? || LeftStill(c, run(n)) <= 2 * (|c| - job.minBlock) + 2 - n
  {
    RunNearing(w, c, job, run, n);
    NearingIs(w, c, job, run(n), 2 * (|c| - job.minBlock) + 2 - n);
  }

  lemma EndsStill(w: World, c: seq<Hash>, job: Job, run: Trace) returns (n: nat)
    requires Honest(w) && Still(w, c) && IsRun(w, job, run) && job.maxBlock == MAX_INT32
    requires !FirstPruned(w, c, job)
    ensures n <= 2 * (if job.minBlock < |c| then |c| - job.minBlock else 0) + 2 && run(n).phase.Over?
  {
    if job.minBlock < |c| {
      n := 2 * (|c| - job.minBlock) + 2;
      RunAlong(w, c, job, run, n);
      if !run(n).phase.Over? {
        RunSound(w, job, run, n);
        SoundCounts(w, job, run(n));
        StepAlong(w, c, job, n, run(n));
      }
    } else {
      n := 2;
      RunStep(w, job, run, 0);
      RunStep(w, job, run, 1);
      assert w.chain(0) == c;
    }
  }

  /** In a world that stands still a scan without stop block ends exactly unless the first block it has to scan is
      there without data. */
  lemma EndsExactly(w: World, c: seq<Hash>, job: Job, run: Trace)
    requires Honest(w) && Still(w, c) && IsRun(w, job, run) && job.maxBlock == MAX_INT32
    ensures (exists n: nat :: run(n).phase.Over?) <==> !FirstPruned(w, c, job)
  {
    if FirstPruned(w, c, job) {
      Endless(w, c, job, run);
    } else {
      var n := EndsStill(w, c, job, run);
    }
  }

  /** Nothing is missing and the client stays. */
  ghost predicate Calm(w: World)
  {
    && (forall t: nat, h {:trigger w.stored(t, h)} :: h in w.chain(t) ==> w.stored(t, h))
    && (forall t: nat, h {:trigger w.unreadable(t, h)} :: !w.unreadable(t, h))
    && (forall t: nat {:trigger w.gone(t)} :: !w.gone(t))
    && (forall t: nat {:trigger w.progressLost(t)} :: !w.progressLost(t))
  }

  /** If moreover nothing is missing and the client stays, the scan ends caught up, having scanned exactly the
      blocks of the chain from the first height on. */
  lemma CatchesUp(w: World, c: seq<Hash>, job: Job, run: Trace) returns (n: nat)
    requires Honest(w) && Still(w, c) && Calm(w) && IsRun(w, job, run)
    requires job.maxBlock == MAX_INT32 && job.minBlock < |c| < MAX_INT32
    ensures n <= 2 * (|c| - job.minBlock) + 2
    ensures run(n).phase == Over(Finished(Last(run(n).blocks), CaughtUp)) && |run(n).blocks| == |c| - job.minBlock
    ensures forall k :: 0 <= k < |run(n).blocks| ==> run(n).blocks[k] == BlockOf(w, c[job.minBlock + k])
  {
    assert c == w.chain(0) && c[job.minBlock] in w.chain(0);
    n := EndsStill(w, c, job, run);
    RunAlong(w, c, job, run, n);
    RunSound(w, job, run, n);
    SoundIsDetails(w, job, run(n));
    var t := LastRequest(w, job, run, n);
    NoPruningNoRecovery(w, job, run, t);
    RunAlong(w, c, job, run, t);
    RunSound(w, job, run, t);
    SoundCounts(w, job, run(t));
    CalmCause(w, c, job, t, run(t), run(n).phase.result);
    RunStep(w, job, run, t);
  }

  lemma CalmCause(w: World, c: seq<Hash>, job: Job, t: nat, s: Scan, r: Result)
    requires Still(w, c) && Calm(w) && Proper(s) && Counted(job, s) && Along(w, c, job, s)
    requires job.maxBlock == MAX_INT32 && job.minBlock < |c| < MAX_INT32
    requires !s.phase.AtRecover? && !s.phase.AtCheck? && Cause(w, job.maxBlock, t, s, r)
    ensures s.phase.AtBest? && r.Finished? && r.end.CaughtUp?
  {
    if s.phase.AtBlock? {
      CalmBlock(w, c, job, t, s);
    }
  }

  lemma CalmBlock(w: World, c: seq<Hash>, job: Job, t: nat, s: Scan)
    requires Still(w, c) && Calm(w) && Proper(s) && Counted(job, s) && Along(w, c, job, s) && s.phase.AtBlock?
    ensures FetchAt(w, t, Wanted(s)).Fetched? && !(Begins(s) && Breaks(s.blocks, Wanted(s)))
    ensures !w.gone(t) && !w.progressLost(t) && s.next + |s.phase.list| <= |c|
  {
    var h := Wanted(s);
    assert w.chain(t) == c && h == c[s.next + s.phase.i] && h in w.chain(t);
    assert w.stored(t, h) && !w.unreadable(t, h) && !w.gone(t) && !w.progressLost(t);
    if s.blocks != [] {
      assert s.blocks[|s.blocks| - 1].hash == c[job.minBlock + |s.blocks| - 1];
    }
  }

  /** The blocks of the chain one after the other, and over exactly when the end of the scan is reached. */
  ghost predicate Straight(w: World, c: seq<Hash>, job: Job, s: Scan)
  {
    && Counted(job, s) && job.minBlock + |s.blocks| <= |c|
    && (forall k {:trigger s.blocks[k]} :: 0 <= k < |s.blocks| ==> s.blocks[k] == BlockOf(w, c[job.minBlock + k]))
    && match s.phase
       case AtRange => true
       case AtBlock(list, i) => InChain(c, list, s.next)
       case Over(r) => r == Finished(Last(s.blocks), Complete) && |s.blocks| == job.maxBlock - job.minBlock
       case _ => false
  }

  lemma CalmFetch(w: World, c: seq<Hash>, job: Job, t: nat, s: Scan)
    requires Still(w, c) && Calm(w) && Straight(w, c, job, s) && s.phase.AtBlock?
    ensures s.phase.i < |s.phase.list| && s.phase.list[s.phase.i] == c[job.minBlock + |s.blocks|]
    ensures FetchAt(w, t, s.phase.list[s.phase.i]).Fetched? && !Breaks(s.blocks, s.phase.list[s.phase.i])
    ensures !w.gone(t) && !w.progressLost(t)
  {
    var h, m := s.phase.list[s.phase.i], job.minBlock + |s.blocks|;
    assert w.chain(t) == c && h == c[m] && h in w.chain(t);
    assert w.stored(t, h) && !w.unreadable(t, h) && !w.gone(t) && !w.progressLost(t);
    if s.blocks != [] {
      assert s.blocks[|s.blocks| - 1] == BlockOf(w, c[m - 1]);
    }
  }

  lemma StraightBlock(w: World, c: seq<Hash>, job: Job, t: nat, s: Scan)
    requires Still(w, c) && Calm(w) && job.minBlock < job.maxBlock <= |c|
    requires Straight(w, c, job, s) && s.phase.AtBlock?
    ensures var r := AfterBlock(w, job.maxBlock, t, s);
      Straight(w, c, job, r) && (r.phase.Over? || Left(job, r) < Left(job, s))
  {
    CalmFetch(w, c, job, t, s);
    StraightMore(w, c, job, s.blocks);
  }

  lemma StraightMore(w: World, c: seq<Hash>, job: Job, blocks: seq<Block>)
    requires job.minBlock + |blocks| < |c|
    requires forall k {:trigger blocks[k]} :: 0 <= k < |blocks| ==> blocks[k] == BlockOf(w, c[job.minBlock + k])
    ensures var more := blocks + [BlockOf(w, c[job.minBlock + |blocks|])];
      forall k {:trigger more[k]} :: 0 <= k < |more| ==> more[k] == BlockOf(w, c[job.minBlock + k])
  {
  }

  lemma StraightStep(w: World, c: seq<Hash>, job: Job, t: nat, s: Scan)
    requires Still(w, c) && Calm(w) && job.minBlock < job.maxBlock <= |c|
    requires Proper(s) && Straight(w, c, job, s) && !s.phase.Over?
    ensures var r := Step(w, job.maxBlock, t, s);
      Straight(w, c, job, r) && (r.phase.Over? || Left(job, r) < Left(job, s))
    ensures Left(job, s) > 0
  {
    assert w.chain(t) == c;
    if s.phase.AtBlock? {
      StraightBlock(w, c, job, t, s);
    }
  }

  /** Straight, and at most so many requests left; sealed. */
  ghost predicate Closing(w: World, c: seq<Hash>, job: Job, s: Scan, left: int)
  {
    forall x {:trigger Unseal(x)} :: x == s ==> Straight(w, c, job, x) && (x.phase.Over? || Left(job, x) <= left)
  }

  lemma ClosingIs(w: World, c: seq<Hash>, job: Job, s: Scan, left: int)
    ensures Closing(w, c, job, s, left) <==> Straight(w, c, job, s) && (s.phase.Over? || Left(job, s) <= left)
  {
    assert Unseal(s) == s;
  }

  lemma NextClosing(w: World, c: seq<Hash>, job: Job, t: nat, s: Scan, left: int)
    requires Still(w, c) && Calm(w) && job.minBlock < job.maxBlock <= |c| && Proper(s) && Closing(w, c, job, s, left)
    ensures Closing(w, c, job, Step(w, job.maxBlock, t, s), left - 1)
  {
    ClosingIs(w, c, job, s, left);
    if !s.phase.Over? {
      StraightStep(w, c, job, t, s);
    }
    ClosingIs(w, c, job, Step(w, job.maxBlock, t, s), left - 1);
  }

  lemma FirstClosing(w: World, c: seq<Hash>, job: Job)
    requires job.minBlock < job.maxBlock <= |c|
    ensures Closing(w, c, job, Loop(job.maxBlock, job.minBlock, []), 2 * (job.maxBlock - job.minBlock))
  {
    ClosingIs(w, c, job, Loop(job.maxBlock, job.minBlock, []), 2 * (job.maxBlock - job.minBlock));
  }

  lemma {:induction false} RunClosing(w: World, c: seq<Hash>, job: Job, run: Trace, n: nat)
    requires Still(w, c) && Calm(w) && IsRun(w, job, run) && job.minBlock < job.maxBlock <= |c|
    ensures Closing(w, c, job, run(n), 2 * (job.maxBlock - job.minBlock) - n)
  {
    if n == 0 {
      FirstClosing(w, c, job);
    } else {
      RunClosing(w, c, job, run, n - 1);
      RunStep(w, job, run, n - 1);
      NextClosing(w, c, job, n - 1, run(n - 1), 2 * (job.maxBlock - job.minBlock) - n + 1);
    }
  }

  /** With a stop block in a world that stands still, nothing missing, the scan completes, having scanned exactly the
      blocks from the first height up to the one before the stop block. */
  lemma ReachesStop(w: World, c: seq<Hash>, job: Job, run: Trace, n: nat)
    requires Still(w, c) && Calm(w) && IsRun(w, job, run) && job.minBlock < job.maxBlock <= |c|
    requires n >= 2 * (job.maxBlock - job.minBlock)
    ensures run(n).phase == Over(Finished(Last(run(n).blocks), Complete))
    ensures |run(n).blocks| == job.maxBlock - job.minBlock
    ensures forall k :: 0 <= k < |run(n).blocks| ==> run(n).blocks[k] == BlockOf(w, c[job.minBlock + k])
  {
    RunClosing(w, c, job, run, n);
    ClosingIs(w, c, job, run(n), 2 * (job.maxBlock - job.minBlock) - n);
    if !run(n).phase.Over? {
      RunStep(w, job, run, n);
      StraightStep(w, c, job, n, run(n));
    }
  }

  /** A world with an endless scan: a chain whose first block has been pruned and whose tip has not. */
  function FirstOfTwoPruned(): World
  {
    var first := BlockHash(Header(ZeroHash, 0, 0, 0));
    var second := BlockHash(Header(first, 0, 0, 1));
    World(_ => [first, second], _ => [], (_, h) => h == second, (_, _) => false, _ => false, _ => false, _ => true)
  }

  lemma EndlessExample(run: Trace, n: nat)
    requires IsRun(FirstOfTwoPruned(), Job(0, MAX_INT32), run)
    ensures Honest(FirstOfTwoPruned()) && Lasting(FirstOfTwoPruned()) && !run(n).phase.Over?
  {
    var w := FirstOfTwoPruned();
    assert IsChain(w.chain(0));
    StillLasts(w, w.chain(0));
    Endless(w, w.chain(0), Job(0, MAX_INT32), run);
  }
}
