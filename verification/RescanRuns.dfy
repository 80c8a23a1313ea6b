/** What holds of every rescan, whatever happens to the chain meanwhile. */
module RescanRuns {
  import opened Basics
  import opened BlockNodes
  import opened RescanBlocks
  import opened RescanWorlds

  // ---------- one chain ----------

  /** Each block is the parent of the next, at consecutive heights from `start`. */
  ghost predicate Linked(blocks: seq<Block>, start: nat)
  {
    && (forall k {:trigger blocks[k]} :: 0 <= k < |blocks| ==> blocks[k].height == start + k)
    && (forall k {:trigger blocks[k]} :: 0 < k < |blocks| ==> blocks[k].prev == blocks[k - 1].hash)
  }

  /** Every block is the one its hash stands for. */
  ghost predicate Genuine(w: World, blocks: seq<Block>)
  {
    forall k {:trigger blocks[k]} :: 0 <= k < |blocks| ==> blocks[k] == BlockOf(w, blocks[k].hash)
  }

  ghost predicate Segment(list: seq<Hash>, height: nat)
  {
    && (forall k {:trigger list[k]} :: 0 <= k < |list| ==> HeightOf(list[k]) == height + k)
    && (forall k {:trigger list[k]} :: 0 < k < |list| ==> PrevOf(list[k]) == list[k - 1])
  }

  lemma RangeIsSegment(c: seq<Hash>, a: nat, b: nat)
    requires IsChain(c)
    ensures Segment(RangeOf(c, a, b), a)
  {
    var list := RangeOf(c, a, b);
    forall k | 0 <= k < |list|
      ensures HeightOf(list[k]) == a + k && (k > 0 ==> PrevOf(list[k]) == list[k - 1])
    {
      ChainHeights(c, a + k);
    }
  }

  /** The height a scan is at is counted by the blocks scanned, and below the end of the scan. */
  ghost predicate Counted(job: Job, s: Scan)
  {
    var height := job.minBlock + |s.blocks|;
    match s.phase
    case AtBlock(list, i) => i < |list| && s.next + i == height && s.next + |list| <= job.maxBlock
    case AtCheck(list) => s.next == height && s.next + |list| <= job.maxBlock && s.blocks != []
    case Over(_) => job.minBlock <= job.maxBlock ==> height <= job.maxBlock
    case _ => s.next == height < job.maxBlock
  }

  /** The list is part of a chain, and what has been scanned of it was scanned last. */
  ghost predicate Continues(s: Scan)
    requires Proper(s)
  {
    match s.phase
    case AtBlock(list, i) =>
      Segment(list, s.next) && (i > 0 ==> s.blocks != [] && s.blocks[|s.blocks| - 1].hash == list[i - 1])
    case AtCheck(list) => Segment(list, s.next)
    case _ => true
  }

  ghost predicate Details(w: World, job: Job, s: Scan)
  {
    Linked(s.blocks, job.minBlock) && Genuine(w, s.blocks) && Proper(s) && Counted(job, s) && Continues(s)
  }

  /** Details, sealed. */
  ghost predicate Sound(w: World, job: Job, s: Scan)
  {
    forall x {:trigger Unseal(x)} :: x == s ==> Details(w, job, x)
  }

  lemma SoundIsDetails(w: World, job: Job, s: Scan)
    ensures Sound(w, job, s) <==> Details(w, job, s)
  {
    assert Unseal(s) == s;
  }

  lemma SoundCounts(w: World, job: Job, s: Scan)
    requires Sound(w, job, s)
    ensures Counted(job, s)
  {
    SoundIsDetails(w, job, s);
  }

  lemma LinkMore(w: World, blocks: seq<Block>, start: nat, h: Hash)
    requires Linked(blocks, start) && Genuine(w, blocks) && HeightOf(h) == start + |blocks|
    requires blocks != [] ==> PrevOf(h) == blocks[|blocks| - 1].hash
    ensures Linked(blocks + [BlockOf(w, h)], start) && Genuine(w, blocks + [BlockOf(w, h)])
  {
  }

  lemma FetchedLinks(w: World, job: Job, t: nat, s: Scan)
    requires Details(w, job, s) && s.phase.AtBlock? && FetchAt(w, t, s.phase.list[s.phase.i]).Fetched?
    ensures var r := AfterBlock(w, job.maxBlock, t, s); Linked(r.blocks, job.minBlock) && Genuine(w, r.blocks)
  {
    var list, i := s.phase.list, s.phase.i;
    assert HeightOf(list[i]) == s.next + i;
    assert i > 0 ==> PrevOf(list[i]) == list[i - 1];
    if i > 0 || !Breaks(s.blocks, list[0]) {
      LinkMore(w, s.blocks, job.minBlock, list[i]);
    }
  }

  lemma FetchedContinues(w: World, job: Job, t: nat, s: Scan)
    requires Proper(s) && Counted(job, s) && Continues(s) && s.phase.AtBlock?
    requires FetchAt(w, t, s.phase.list[s.phase.i]).Fetched?
    ensures var r := AfterBlock(w, job.maxBlock, t, s); Proper(r) && Counted(job, r) && Continues(r)
  {
  }

  lemma FetchedKeeps(w: World, job: Job, t: nat, s: Scan)
    requires Details(w, job, s) && s.phase.AtBlock? && FetchAt(w, t, s.phase.list[s.phase.i]).Fetched?
    ensures Details(w, job, AfterBlock(w, job.maxBlock, t, s))
  {
    FetchedLinks(w, job, t, s);
    FetchedContinues(w, job, t, s);
  }

  lemma BlockKeeps(w: World, job: Job, t: nat, s: Scan)
    requires Details(w, job, s) && s.phase.AtBlock?
    ensures Details(w, job, AfterBlock(w, job.maxBlock, t, s))
  {
    if FetchAt(w, t, s.phase.list[s.phase.i]).Fetched? {
      FetchedKeeps(w, job, t, s);
    }
  }

  lemma RangeKeeps(w: World, job: Job, t: nat, s: Scan)
    requires IsChain(w.chain(t)) && Details(w, job, s) && (s.phase.AtRange? || s.phase.AtRecover?)
    ensures Details(w, job, Step(w, job.maxBlock, t, s))
  {
    var b := if s.phase.AtRange? then MaxLoopBlock(s.next, job.maxBlock) else job.maxBlock;
    RangeIsSegment(w.chain(t), s.next, b);
  }

  lemma StepKeeps(w: World, job: Job, t: nat, s: Scan)
    requires Honest(w) && Sound(w, job, s) && Proper(s)
    ensures Sound(w, job, Step(w, job.maxBlock, t, s))
  {
    assert IsChain(w.chain(t));
    SoundIsDetails(w, job, s);
    if s.phase.AtRange? || s.phase.AtRecover? {
      RangeKeeps(w, job, t, s);
    } else if s.phase.AtBlock? {
      BlockKeeps(w, job, t, s);
    }
    SoundIsDetails(w, job, Step(w, job.maxBlock, t, s));
  }

  // ---------- runs ----------

  type Trace = nat -> Scan

  /** The identity, written only to be a trigger: the step of a run at moment n is seen where this is mentioned. */
  function UnsealStep(n: nat): nat
  {
    n
  }

  /** The states of the scan after each number of requests; the step from one to the next is sealed. */
  ghost predicate IsRun(w: World, job: Job, run: Trace)
  {
    && run(0) == Loop(job.maxBlock, job.minBlock, [])
    && forall n: nat {:trigger UnsealStep(n)} :: Proper(run(n)) && run(n + 1) == Step(w, job.maxBlock, n, run(n))
  }

  lemma RunStep(w: World, job: Job, run: Trace, n: nat)
    requires IsRun(w, job, run)
    ensures Proper(run(n)) && run(n + 1) == Step(w, job.maxBlock, n, run(n))
  {
    assert UnsealStep(n) == n;
  }

  /** The block is in the best chain but its data has been pruned. */
  predicate Missing(w: World, t: nat, h: Hash)
  {
    h in w.chain(t) && !w.stored(t, h)
  }

  /** A block without data cannot be disconnected and is not fetched again: it stays in the best chain, without data. */
  ghost predicate Lasts(w: World, t: nat)
  {
    forall h {:trigger Missing(w, t, h)} {:trigger Missing(w, t + 1, h)} :: Missing(w, t, h) ==> Missing(w, t + 1, h)
  }

  ghost predicate Lasting(w: World)
  {
    forall t: nat {:trigger UnsealStep(t)} :: Lasts(w, t)
  }

  lemma StaysMissing(w: World, t: nat, h: Hash)
    requires Lasting(w) && Missing(w, t, h)
    ensures Missing(w, t + 1, h)
  {
    assert Lasts(w, UnsealStep(t));
  }

  lemma {:induction false} OverStays(w: World, job: Job, run: Trace, m: nat, n: nat)
    requires IsRun(w, job, run) && run(m).phase.Over? && m <= n
    ensures run(n) == run(m)
  {
    if m < n {
      OverStays(w, job, run, m, n - 1);
      RunStep(w, job, run, n - 1);
    }
  }

  /** There is a run in every world. */
  lemma RunIsRun(w: World, job: Job)
    ensures IsRun(w, job, (n: nat) => Run(w, job, n))
  {
  }

  lemma {:induction false} OneRun(w: World, job: Job, run: Trace, n: nat)
    requires IsRun(w, job, run)
    ensures run(n) == Run(w, job, n)
  {
    if n > 0 {
      OneRun(w, job, run, n - 1);
      RunStep(w, job, run, n - 1);
    }
  }

  /** However the best chain changes, the blocks scanned are one chain of consecutive heights from the first, and
      no range is ever asked for whose end is before its start. */
  lemma {:induction false} RunSound(w: World, job: Job, run: Trace, n: nat)
    requires Honest(w) && IsRun(w, job, run)
    ensures Sound(w, job, run(n))
  {
    if n == 0 {
      SoundIsDetails(w, job, run(0));
    } else {
      RunSound(w, job, run, n - 1);
      RunStep(w, job, run, n - 1);
      StepKeeps(w, job, n - 1, run(n - 1));
    }
  }

  // ---------- where the blocks come from ----------

  /** The request that adds a block: it was fetched and continues the blocks scanned before. */
  ghost predicate Adds(w: World, t: nat, s: Scan, h: Hash)
  {
    && s.phase.AtBlock? && Proper(s) && h == s.phase.list[s.phase.i]
    && FetchAt(w, t, h).Fetched? && (s.phase.i == 0 ==> !Breaks(s.blocks, h)) && !w.gone(t)
  }

  lemma StepAdds(w: World, maxBlock: nat, t: nat, s: Scan)
    requires Proper(s)
    ensures var r := Step(w, maxBlock, t, s);
      if s.phase.AtBlock? && Adds(w, t, s, s.phase.list[s.phase.i])
      then r.blocks == s.blocks + [BlockOf(w, s.phase.list[s.phase.i])]
      else r.blocks == s.blocks
  {
  }

  /** A list is kept, or it is the answer to the request just made. */
  lemma StepLists(w: World, maxBlock: nat, t: nat, s: Scan)
    requires Proper(s)
    ensures var r := Step(w, maxBlock, t, s);
      r.phase.AtBlock? || r.phase.AtCheck? ==>
        && r.next == s.next
        && (s.phase.AtRange? ==> r.phase.list == RangeOf(w.chain(t), s.next, MaxLoopBlock(s.next, maxBlock)))
        && (s.phase.AtRecover? ==> r.phase.list == RangeOf(w.chain(t), s.next, maxBlock))
        && (!s.phase.AtRange? && !s.phase.AtRecover? ==>
              (s.phase.AtBlock? || s.phase.AtCheck?) && r.phase.list == s.phase.list)
  {
  }

  /** Every list was answered at an earlier moment by the best chain of that moment. */
  lemma {:induction false} ListAsked(w: World, job: Job, run: Trace, n: nat) returns (asked: nat, b: nat)
    requires IsRun(w, job, run) && (run(n).phase.AtBlock? || run(n).phase.AtCheck?)
    ensures asked < n && run(n).phase.list == RangeOf(w.chain(asked), run(n).next, b)
  {
    var before := run(n - 1);
    RunStep(w, job, run, n - 1);
    StepLists(w, job.maxBlock, n - 1, before);
    if before.phase.AtRange? {
      asked, b := n - 1, MaxLoopBlock(before.next, job.maxBlock);
    } else if before.phase.AtRecover? {
      asked, b := n - 1, job.maxBlock;
    } else {
      asked, b := ListAsked(w, job, run, n - 1);
    }
  }

  /** Every block scanned was in a range answered before, and was then fetched. */
  lemma {:induction false} Provenance(w: World, job: Job, run: Trace, n: nat, k: nat)
    returns (t: nat, asked: nat, b: nat)
    requires IsRun(w, job, run) && k < |run(n).blocks|
    ensures t < n && |run(t).blocks| == k && asked < t
    ensures var block := run(n).blocks[k];
      Adds(w, t, run(t), block.hash) && block == BlockOf(w, block.hash)
    ensures run(t).phase.list == RangeOf(w.chain(asked), run(t).next, b)
  {
    var before := run(n - 1);
    RunStep(w, job, run, n - 1);
    StepAdds(w, job.maxBlock, n - 1, before);
    if k < |before.blocks| {
      t, asked, b := Provenance(w, job, run, n - 1, k);
    } else {
      t := n - 1;
      asked, b := ListAsked(w, job, run, n - 1);
    }
  }

  // ---------- why a scan is over ----------

  /** What the request at moment t came upon when the scan ended with the result. */
  ghost predicate Cause(w: World, maxBlock: nat, t: nat, s: Scan, r: Result)
    requires Proper(s)
  {
    match r
    case DatabaseError =>
      || (s.phase.AtBlock? && !FetchAt(w, t, Wanted(s)).Fetched? && !FetchAt(w, t, Wanted(s)).NotFound?)
      || (s.phase.AtCheck? && !FetchAt(w, t, Wanted(s)).Fetched?)
    case Reorganize =>
      || (maxBlock != MAX_INT32 && s.phase.AtBlock? && FetchAt(w, t, Wanted(s)).NotFound?)
      || (Begins(s) && FetchAt(w, t, Wanted(s)).Fetched? && Breaks(s.blocks, Wanted(s)))
    case ClientGone =>
      && s.phase.AtBlock? && FetchAt(w, t, Wanted(s)).Fetched? && !(Begins(s) && Breaks(s.blocks, Wanted(s)))
      && (w.gone(t) || w.progressLost(t))
    case Finished(_, Complete) =>
      s.phase.AtBlock? && Adds(w, t, s, Wanted(s)) && s.next + |s.phase.list| >= maxBlock
    case Finished(_, NoMoreBlocks) =>
      && (s.phase.AtRecover? || (maxBlock != MAX_INT32 && s.phase.AtRange?))
      && (|w.chain(t)| <= s.next || maxBlock <= s.next)
    case Finished(last, CaughtUp) =>
      s.phase.AtBest? && (last.None? || last.value.hash == BestAt(w, t))
  }

  /** The hash of the block that is looked up next. */
  function Wanted(s: Scan): Hash
    requires Proper(s)
  {
    if s.phase.AtBlock? then s.phase.list[s.phase.i] else if s.phase.AtCheck? then s.phase.list[0] else ZeroHash
  }

  /** It is the first of a list, which has to continue the blocks scanned. */
  predicate Begins(s: Scan)
  {
    s.phase.AtCheck? || (s.phase.AtBlock? && s.phase.i == 0)
  }

  /** A scan ends only for a cause that its last request met. */
  lemma StepCause(w: World, maxBlock: nat, t: nat, s: Scan)
    requires Proper(s) && !s.phase.Over? && Step(w, maxBlock, t, s).phase.Over?
    ensures Cause(w, maxBlock, t, s, Step(w, maxBlock, t, s).phase.result)
  {
  }

  /** The request with which a scan ended, and its cause. */
  lemma {:induction false} LastRequest(w: World, job: Job, run: Trace, n: nat) returns (t: nat)
    requires IsRun(w, job, run) && run(n).phase.Over? && !run(0).phase.Over?
    ensures t < n && Proper(run(t)) && !run(t).phase.Over? && run(t + 1) == run(n)
    ensures Cause(w, job.maxBlock, t, run(t), run(n).phase.result)
  {
    RunStep(w, job, run, n - 1);
    if run(n - 1).phase.Over? {
      t := LastRequest(w, job, run, n - 1);
    } else {
      t := n - 1;
      assert t + 1 == n;
      StepCause(w, job.maxBlock, t, run(t));
    }
  }
}
