/**
 * The rules by which headers and blocks enter the block index and the header
 * chain with the most work is chosen, over values: a hash stands for its
 * header, so it also stands for the whole chain behind it.
 */
module AcceptanceRules {
  import opened Basics
  import opened BlockNodes

  datatype Error =
    | PreviousBlockUnknown
    | InvalidAncestorBlock
    | KnownInvalidBlock
    | SanityFailed
    | ContextFailed
    | StoreFailed

  datatype Gate = Stop(error: Error) | AlreadyBest | Proceed

  datatype Outcome = Accepted(isMainChain: bool) | Rejected(error: Error)

  /**
   * What lies outside the model: the sanity checks other than the range of the target, the checks that depend on
   * the chain behind a header or block, storing a block, and writing the index.
   */
  datatype Verdicts = Verdicts(sanity: bool, context: bool, store: bool, write: bool)

  /** Calls that can interleave; SetFlags stands for what connecting a block does to the status of a known node. */
  datatype Op =
    | AcceptHeader(header: Header, verdicts: Verdicts)
    | AcceptBlock(header: Header, verdicts: Verdicts, connect: Outcome)
    | SetFlags(hash: Hash, flags: Status)

  /** The indexed hashes with their status, those changed since the last flush, the rows written, and the tip. */
  datatype Ledger = Ledger(statuses: map<Hash, Status>, dirty: set<Hash>, rows: map<Hash, Status>, tip: Hash)

  /** The sum of the work of a header and all its predecessors. */
  function Work(h: Hash): nat
  {
    match h
    case ZeroHash => 0
    case BlockHash(header) => CalcWork(header.bits) + Work(header.prev)
  }

  /** h is tip or one of its predecessors. */
  predicate OnBranch(tip: Hash, h: Hash)
  {
    h == tip || (tip.BlockHash? && OnBranch(tip.header.prev, h))
  }

  predicate TargetWithin(powLimit: nat, bits: nat)
  {
    0 < CompactToBig(bits) <= powLimit
  }

  /** The checks of the header itself: its target must be positive and at most the limit, then the rest. */
  function CheckedBy(powLimit: nat, header: Header, verdicts: Verdicts): Option<Error>
  {
    if !TargetWithin(powLimit, header.bits) || !verdicts.sanity then Some(SanityFailed)
    else if !verdicts.context then Some(ContextFailed)
    else None
  }

  /** What the index alone decides about a header, before any check of the header itself. */
  function GateOf(l: Ledger, header: Header): Gate
  {
    if header.prev !in l.statuses then Stop(PreviousBlockUnknown)
    else if KnownInvalid(l.statuses[header.prev]) then Stop(InvalidAncestorBlock)
    else if BlockHash(header) !in l.statuses then Proceed
    else
      var status := l.statuses[BlockHash(header)];
      if status & STATUS_VALIDATE_FAILED != 0 then Stop(KnownInvalidBlock)
      else if status & STATUS_INVALID_ANCESTOR != 0 then Stop(InvalidAncestorBlock)
      else if OnBranch(l.tip, BlockHash(header)) then AlreadyBest
      else Proceed
  }

  /** Why a block is turned away before it gets a node. */
  function BlockGateOf(l: Ledger, header: Header, verdicts: Verdicts): Option<Error>
  {
    if header.prev !in l.statuses then Some(PreviousBlockUnknown)
    else if KnownInvalid(l.statuses[header.prev]) then Some(InvalidAncestorBlock)
    else if !verdicts.context then Some(ContextFailed)
    else if !verdicts.store then Some(StoreFailed)
    else None
  }

  /** A flush has something to write. */
  predicate NeedsWrite(l: Ledger)
  {
    exists h :: h in l.dirty && h in l.statuses && HasData(l.statuses[h])
  }

  /** The rows a flush writes: headers whose block is not stored are passed over. */
  function Rows(l: Ledger): map<Hash, Status>
  {
    map h | h in l.dirty && h in l.statuses && !HeaderOnly(l.statuses[h]) :: l.statuses[h]
  }

  predicate CanFlush(l: Ledger, write: bool)
  {
    write || !NeedsWrite(l)
  }

  function Flush(l: Ledger): Ledger
  {
    l.(dirty := {}, rows := if NeedsWrite(l) then l.rows + Rows(l) else l.rows)
  }

  function Mark(l: Ledger, h: Hash, status: Status): Ledger
  {
    l.(statuses := l.statuses[h := status], dirty := l.dirty + {h})
  }

  function AfterHeader(powLimit: nat, l: Ledger, header: Header, verdicts: Verdicts): (Ledger, Outcome)
  {
    match GateOf(l, header)
    case Stop(error) => (l, Rejected(error))
    case AlreadyBest => (l, Accepted(true))
    case Proceed =>
      match CheckedBy(powLimit, header, verdicts)
      case Some(error) => (l, Rejected(error))
      case None => Enter(l, header, verdicts.write)
  }

  /** A header that passed every check: it gets a node unless it has one, and becomes the tip if it has more work. */
  function Enter(l: Ledger, header: Header, write: bool): (Ledger, Outcome)
  {
    var h := BlockHash(header);
    var known := if h in l.statuses then l else Mark(l, h, STATUS_HEADER_STORED);
    if !CanFlush(known, write) then (known, Rejected(StoreFailed))
    else if Work(h) > Work(l.tip) then (Flush(known).(tip := h), Accepted(true))
    else (Flush(known), Accepted(false))
  }

  /** The stages of entering a header, one after the other. */
  lemma EnterIs(l: Ledger, header: Header, write: bool, known: Ledger, isMainChain: bool, after: Ledger)
    requires known == if BlockHash(header) in l.statuses then l else Mark(l, BlockHash(header), STATUS_HEADER_STORED)
    requires isMainChain <==> CanFlush(known, write) && Work(BlockHash(header)) > Work(l.tip)
    requires after == if !CanFlush(known, write) then known
                      else if isMainChain then Flush(known).(tip := BlockHash(header)) else Flush(known)
    ensures (after, if CanFlush(known, write) then Accepted(isMainChain) else Rejected(StoreFailed))
         == Enter(l, header, write)
  {
  }

  function AfterBlock(l: Ledger, header: Header, verdicts: Verdicts, connect: Outcome): (Ledger, Outcome)
  {
    match BlockGateOf(l, header, verdicts)
    case Some(error) => (l, Rejected(error))
    case None =>
      var h := BlockHash(header);
      var known := Mark(l, h, STATUS_DATA_STORED | if h in l.statuses then l.statuses[h] else STATUS_HEADER_STORED);
      if CanFlush(known, verdicts.write) then (Flush(known), connect) else (known, Rejected(StoreFailed))
  }

  function Next(powLimit: nat, l: Ledger, op: Op): (Ledger, Outcome)
  {
    match op
    case AcceptHeader(header, verdicts) => AfterHeader(powLimit, l, header, verdicts)
    case AcceptBlock(header, verdicts, connect) => AfterBlock(l, header, verdicts, connect)
    case SetFlags(hash, flags) =>
      (if hash in l.statuses then Mark(l, hash, l.statuses[hash] | flags) else l, Accepted(false))
  }

  function After(powLimit: nat, l: Ledger, ops: seq<Op>): Ledger
  {
    if ops == [] then l else Next(powLimit, After(powLimit, l, ops[..|ops| - 1]), ops[|ops| - 1]).0
  }

  /** What each call of a run returns. */
  function Outcomes(powLimit: nat, l: Ledger, ops: seq<Op>): (r: seq<Outcome>)
    ensures |r| == |ops|
  {
    if ops == [] then []
    else
      var front := ops[..|ops| - 1];
      Outcomes(powLimit, l, front) + [Next(powLimit, After(powLimit, l, front), ops[|ops| - 1]).1]
  }

  lemma RunSnoc(powLimit: nat, l: Ledger, front: seq<Op>, op: Op, before: Ledger, after: Ledger,
                outcomes: seq<Outcome>, outcome: Outcome)
    requires before == After(powLimit, l, front) && outcomes == Outcomes(powLimit, l, front)
    requires (after, outcome) == Next(powLimit, before, op)
    ensures after == After(powLimit, l, front + [op]) && outcomes + [outcome] == Outcomes(powLimit, l, front + [op])
  {
    assert (front + [op])[..|front|] == front;
  }

  // ---------- what every run keeps ----------

  /** Every indexed hash but the first has its predecessor indexed, and what is dirty or the tip is indexed. */
  predicate Rooted(l: Ledger)
  {
    && l.tip in l.statuses && l.dirty <= l.statuses.Keys
    && forall h :: h in l.statuses ==> h.BlockHash? && (h.header.prev == ZeroHash || h.header.prev in l.statuses)
  }

  lemma NextKeeps(powLimit: nat, l: Ledger, op: Op)
    requires Rooted(l)
    ensures Rooted(Next(powLimit, l, op).0)
    ensures l.statuses.Keys <= Next(powLimit, l, op).0.statuses.Keys
  {
  }

  lemma {:induction false} AfterKeeps(powLimit: nat, l: Ledger, ops: seq<Op>)
    requires Rooted(l)
    ensures Rooted(After(powLimit, l, ops))
    ensures l.statuses.Keys <= After(powLimit, l, ops).statuses.Keys
  {
    if ops != [] {
      AfterKeeps(powLimit, l, ops[..|ops| - 1]);
      NextKeeps(powLimit, After(powLimit, l, ops[..|ops| - 1]), ops[|ops| - 1]);
    }
  }

  lemma {:induction false} BranchIndexed(l: Ledger, tip: Hash, h: Hash)
    requires Rooted(l) && tip in l.statuses && OnBranch(tip, h) && h != ZeroHash
    ensures h in l.statuses
  {
    if h != tip && tip.header.prev != ZeroHash {
      BranchIndexed(l, tip.header.prev, h);
    }
  }

  /** An accepted header is said to be on the best header chain exactly if it then is. */
  lemma MainMeansOnBranch(powLimit: nat, l: Ledger, header: Header, verdicts: Verdicts)
    requires Rooted(l)
    ensures var (after, outcome) := AfterHeader(powLimit, l, header, verdicts);
      outcome.Accepted? ==>
        BlockHash(header) in after.statuses && (outcome.isMainChain <==> OnBranch(after.tip, BlockHash(header)))
  {
    if OnBranch(l.tip, BlockHash(header)) {
      BranchIndexed(l, l.tip, BlockHash(header));
    }
  }

  lemma {:induction false} OnBranchWork(tip: Hash, h: Hash)
    requires OnBranch(tip, h)
    ensures Work(h) <= Work(tip)
  {
    if h != tip {
      OnBranchWork(tip.header.prev, h);
    }
  }

  /** A call that accepts a header. */
  predicate Takes(op: Op, outcome: Outcome)
  {
    op.AcceptHeader? && outcome.Accepted?
  }

  /** One call: an accepted header has no more work than the tip, which moves only to a header with more work. */
  lemma NextTip(powLimit: nat, l: Ledger, op: Op)
    ensures var (after, outcome) := Next(powLimit, l, op);
      && (Takes(op, outcome) ==> Work(BlockHash(op.header)) <= Work(after.tip))
      && (after.tip != l.tip ==>
            Takes(op, outcome) && after.tip == BlockHash(op.header) && Work(after.tip) > Work(l.tip))
  {
    if op.AcceptHeader? && GateOf(l, op.header).AlreadyBest? {
      OnBranchWork(l.tip, BlockHash(op.header));
    }
  }

  /** Every header accepted so far has at most, or less than, the given work. */
  predicate Below(ops: seq<Op>, outcomes: seq<Outcome>, n: nat, work: nat)
    requires n <= |ops| == |outcomes|
  {
    forall i :: 0 <= i < n && Takes(ops[i], outcomes[i]) ==> Work(BlockHash(ops[i].header)) <= work
  }

  /** The tip is the i-th call's header and every header accepted before it has less work, and so had the first tip. */
  predicate FirstOfMost(ops: seq<Op>, outcomes: seq<Outcome>, first: Hash, tip: Hash, i: nat)
    requires i < |ops| == |outcomes|
  {
    && Takes(ops[i], outcomes[i]) && tip == BlockHash(ops[i].header) && Work(first) < Work(tip)
    && Below(ops, outcomes, i, Work(tip) - 1)
  }

  /** The tip is the first one or the first accepted header of the most work, and nothing accepted has more. */
  predicate Best(ops: seq<Op>, outcomes: seq<Outcome>, first: Hash, tip: Hash)
    requires |ops| == |outcomes|
  {
    && Below(ops, outcomes, |ops|, Work(tip)) && Work(first) <= Work(tip)
    && (tip == first || exists i: nat :: i < |ops| && FirstOfMost(ops, outcomes, first, tip, i))
  }

  lemma BelowMore(ops: seq<Op>, outcomes: seq<Outcome>, op: Op, outcome: Outcome, n: nat, work: nat, more: nat)
    requires n <= |ops| == |outcomes| && Below(ops, outcomes, n, work) && work <= more
    ensures Below(ops + [op], outcomes + [outcome], n, more)
    ensures n == |ops| && (Takes(op, outcome) ==> Work(BlockHash(op.header)) <= more) ==>
              Below(ops + [op], outcomes + [outcome], n + 1, more)
  {
  }

  lemma BestGrows(ops: seq<Op>, outcomes: seq<Outcome>, first: Hash, tip: Hash, op: Op, outcome: Outcome, next: Hash)
    requires |ops| == |outcomes| && Best(ops, outcomes, first, tip)
    requires Takes(op, outcome) ==> Work(BlockHash(op.header)) <= Work(next)
    requires next == tip || (Takes(op, outcome) && next == BlockHash(op.header) && Work(next) > Work(tip))
    ensures Best(ops + [op], outcomes + [outcome], first, next)
  {
    BelowMore(ops, outcomes, op, outcome, |ops|, Work(tip), Work(next));
    if next != tip {
      BelowMore(ops, outcomes, op, outcome, |ops|, Work(tip), Work(next) - 1);
      assert FirstOfMost(ops + [op], outcomes + [outcome], first, next, |ops|);
    } else if tip != first {
      var i: nat :| i < |ops| && FirstOfMost(ops, outcomes, first, tip, i);
      BelowMore(ops, outcomes, op, outcome, i, Work(tip) - 1, Work(tip) - 1);
      assert FirstOfMost(ops + [op], outcomes + [outcome], first, tip, i);
    }
  }

  /**
   * After any run the tip is the tip before it or else the first accepted header of the most work: no header accepted
   * at all has more, and none accepted earlier has as much.
   */
  lemma {:induction false} TipIsFirstOfMost(powLimit: nat, l: Ledger, ops: seq<Op>)
    ensures Best(ops, Outcomes(powLimit, l, ops), l.tip, After(powLimit, l, ops).tip)
  {
    if ops != [] {
      var front, op := ops[..|ops| - 1], ops[|ops| - 1];
      TipIsFirstOfMost(powLimit, l, front);
      var before := After(powLimit, l, front);
      NextTip(powLimit, before, op);
      BestGrows(front, Outcomes(powLimit, l, front), l.tip, before.tip, op, Next(powLimit, before, op).1,
                Next(powLimit, before, op).0.tip);
      assert front + [op] == ops;
    }
  }

  // ---------- what the status bits mean ----------

  /** The block is known to be invalid (4) or to have an invalid ancestor (8). */
  predicate Invalidated(status: Status)
  {
    status & 4 != 0 || status & 8 != 0
  }

  /** The predecessor is indexed and neither it nor the header, if that is indexed too, is known to be invalid. */
  predicate Clear(l: Ledger, header: Header)
  {
    && header.prev in l.statuses && !Invalidated(l.statuses[header.prev])
    && (BlockHash(header) in l.statuses ==> !Invalidated(l.statuses[BlockHash(header)]))
  }

  /** Already one of the best header chain. */
  predicate Known(l: Ledger, header: Header)
  {
    BlockHash(header) in l.statuses && OnBranch(l.tip, BlockHash(header))
  }

  /** Something that was changed since the last flush has its block stored (1). */
  predicate Unwritten(l: Ledger)
  {
    exists h :: h in l.dirty && h in l.statuses && l.statuses[h] & 1 != 0
  }

  lemma KnownInvalidBits(status: Status)
    ensures KnownInvalid(status) <==> Invalidated(status)
  {
  }

  lemma NewHeaderUnwritten(l: Ledger, h: Hash)
    requires Rooted(l)
    ensures NeedsWrite(if h in l.statuses then l else Mark(l, h, STATUS_HEADER_STORED)) <==> Unwritten(l)
  {
    var m := if h in l.statuses then l else Mark(l, h, STATUS_HEADER_STORED);
    if x :| x in l.dirty && x in l.statuses && l.statuses[x] & 1 != 0 {
      assert x in m.dirty && HasData(m.statuses[x]);
    }
    if x :| x in m.dirty && x in m.statuses && HasData(m.statuses[x]) {
      assert x in l.dirty && x in l.statuses;
    }
  }

  /** When a header is turned away and with which error, and when it is accepted. */
  lemma HeaderOutcome(powLimit: nat, l: Ledger, header: Header, verdicts: Verdicts, r: Outcome)
    requires Rooted(l) && r == AfterHeader(powLimit, l, header, verdicts).1
    ensures r == Rejected(PreviousBlockUnknown) <==> header.prev !in l.statuses
    ensures r == Rejected(KnownInvalidBlock)
            <==> header.prev in l.statuses && !Invalidated(l.statuses[header.prev])
                 && BlockHash(header) in l.statuses && l.statuses[BlockHash(header)] & 4 != 0
    ensures r == Rejected(InvalidAncestorBlock)
            <==> header.prev in l.statuses
                 && (Invalidated(l.statuses[header.prev])
                     || (BlockHash(header) in l.statuses && l.statuses[BlockHash(header)] & 4 == 0
                         && l.statuses[BlockHash(header)] & 8 != 0))
    ensures r == Rejected(SanityFailed)
            <==> Clear(l, header) && !Known(l, header)
                 && !(0 < CompactToBig(header.bits) <= powLimit && verdicts.sanity)
    ensures r == Rejected(ContextFailed)
            <==> Clear(l, header) && !Known(l, header) && 0 < CompactToBig(header.bits) <= powLimit
                 && verdicts.sanity && !verdicts.context
    ensures r == Rejected(StoreFailed)
            <==> Clear(l, header) && !Known(l, header) && 0 < CompactToBig(header.bits) <= powLimit
                 && verdicts.sanity && verdicts.context && !verdicts.write && Unwritten(l)
    ensures r.Accepted?
            <==> Clear(l, header)
                 && (Known(l, header)
                     || (0 < CompactToBig(header.bits) <= powLimit && verdicts.sanity && verdicts.context
                         && (verdicts.write || !Unwritten(l))))
  {
    if header.prev in l.statuses {
      KnownInvalidBits(l.statuses[header.prev]);
    }
    NewHeaderUnwritten(l, BlockHash(header));
  }

  /** When a block is turned away before it gets a node, and what it gets otherwise. */
  lemma BlockOutcome(l: Ledger, header: Header, verdicts: Verdicts, connect: Outcome, after: Ledger, r: Outcome)
    requires (after, r) == AfterBlock(l, header, verdicts, connect)
    ensures header.prev !in l.statuses ==> r == Rejected(PreviousBlockUnknown) && after == l
    ensures header.prev in l.statuses && Invalidated(l.statuses[header.prev]) ==>
              r == Rejected(InvalidAncestorBlock) && after == l
    ensures header.prev in l.statuses && !Invalidated(l.statuses[header.prev]) ==>
      if !verdicts.context then r == Rejected(ContextFailed) && after == l
      else if !verdicts.store then r == Rejected(StoreFailed) && after == l
      else if !verdicts.write then r == Rejected(StoreFailed) && BlockHash(header) in after.statuses
      else r == connect && BlockHash(header) in after.statuses && after.statuses[BlockHash(header)] & 1 != 0
           && after.dirty == {}
  {
    if header.prev in l.statuses {
      KnownInvalidBits(l.statuses[header.prev]);
    }
    var h := BlockHash(header);
    if BlockGateOf(l, header, verdicts).None? {
      var known := Mark(l, h, STATUS_DATA_STORED | if h in l.statuses then l.statuses[h] else STATUS_HEADER_STORED);
      assert h in known.dirty && HasData(known.statuses[h]);
      assert NeedsWrite(known);
    }
  }

  lemma HeaderStatuses(powLimit: nat, l: Ledger, header: Header, verdicts: Verdicts, after: Ledger, r: Outcome)
    requires (after, r) == AfterHeader(powLimit, l, header, verdicts)
    ensures after.statuses == l.statuses
            || (BlockHash(header) !in l.statuses && after.statuses == l.statuses[BlockHash(header) := 16])
    ensures r.Accepted? ==> BlockHash(header) in after.statuses && (Known(l, header) || after.dirty == {})
  {
  }

  lemma BlockStatuses(l: Ledger, header: Header, verdicts: Verdicts, connect: Outcome, after: Ledger, r: Outcome)
    requires (after, r) == AfterBlock(l, header, verdicts, connect)
    ensures var h := BlockHash(header);
      after.statuses == l.statuses
      || after.statuses == l.statuses[h := if h in l.statuses then l.statuses[h] | 1 else 17]
  {
  }

  /** What entering the index means: a new header has status 16, a stored block gains 1, and no other status changes. */
  lemma StatusesAfter(powLimit: nat, l: Ledger, op: Op, after: Ledger, r: Outcome)
    requires (after, r) == Next(powLimit, l, op) && !op.SetFlags?
    ensures var h := BlockHash(op.header);
      && (after.statuses == l.statuses
          || after.statuses == l.statuses[h := if op.AcceptHeader? then 16
                                              else if h in l.statuses then l.statuses[h] | 1 else 17])
      && (op.AcceptHeader? && h in l.statuses ==> after.statuses == l.statuses)
      && (op.AcceptHeader? && r.Accepted? ==> h in after.statuses && (Known(l, op.header) || after.dirty == {}))
  {
    match op
    case AcceptHeader(header, verdicts) => HeaderStatuses(powLimit, l, header, verdicts, after, r);
    case AcceptBlock(header, verdicts, connect) => BlockStatuses(l, header, verdicts, connect, after, r);
  }

  /** No bit of a status is ever taken away. */
  predicate Grows(l: Ledger, m: Ledger)
  {
    forall h :: h in l.statuses ==> h in m.statuses && m.statuses[h] & l.statuses[h] == l.statuses[h]
  }

  lemma NextGrows(powLimit: nat, l: Ledger, op: Op)
    requires Rooted(l)
    ensures Grows(l, Next(powLimit, l, op).0)
  {
    if !op.SetFlags? {
      StatusesAfter(powLimit, l, op, Next(powLimit, l, op).0, Next(powLimit, l, op).1);
    }
  }

  lemma GrowsOn(l: Ledger, m: Ledger, n: Ledger, h: Hash)
    requires Grows(l, m) && Grows(m, n) && h in l.statuses
    ensures h in n.statuses && n.statuses[h] & l.statuses[h] == l.statuses[h]
    ensures Invalidated(l.statuses[h]) ==> Invalidated(m.statuses[h])
  {
    BitsOn(l.statuses[h], m.statuses[h], n.statuses[h]);
  }

  lemma BitsOn(a: Status, b: Status, c: Status)
    requires b & a == a && c & b == b
    ensures c & a == a && (Invalidated(a) ==> Invalidated(b))
  {
  }

  lemma {:induction false} AfterGrows(powLimit: nat, l: Ledger, ops: seq<Op>)
    requires Rooted(l)
    ensures Grows(l, After(powLimit, l, ops))
  {
    if ops != [] {
      var front := ops[..|ops| - 1];
      var m, n := After(powLimit, l, front), After(powLimit, l, ops);
      AfterGrows(powLimit, l, front);
      AfterKeeps(powLimit, l, front);
      NextGrows(powLimit, m, ops[|ops| - 1]);
      forall h | h in l.statuses
        ensures h in n.statuses && n.statuses[h] & l.statuses[h] == l.statuses[h]
      {
        GrowsOn(l, m, n, h);
      }
    } else {
      assert Grows(l, l);
    }
  }

  /** Two runs one after the other are one run. */
  lemma {:induction false} AfterParts(powLimit: nat, l: Ledger, a: seq<Op>, b: seq<Op>)
    ensures After(powLimit, l, a + b) == After(powLimit, After(powLimit, l, a), b)
    decreases |b|
  {
    if b == [] {
      assert a + b == a;
    } else {
      AfterParts(powLimit, l, a, b[..|b| - 1]);
      assert (a + b)[..|a + b| - 1] == a + b[..|b| - 1];
    }
  }

  /** A header or block that names h as its predecessor. */
  predicate Names(op: Op, h: Hash)
  {
    !op.SetFlags? && op.header.prev == h
  }

  /** Whatever is accepted has an indexed predecessor that is not known to be invalid, and is not itself if a header. */
  lemma AcceptedIsClear(powLimit: nat, l: Ledger, ops: seq<Op>, i: nat, before: Ledger)
    requires Rooted(l) && i < |ops| && before == After(powLimit, l, ops[..i])
    requires !ops[i].SetFlags? && Outcomes(powLimit, l, ops)[i].Accepted?
    ensures var prev := ops[i].header.prev;
      && prev in before.statuses && !Invalidated(before.statuses[prev])
      && (ops[i].AcceptHeader? ==> Clear(before, ops[i].header))
  {
    OutcomeAt(powLimit, l, ops, i);
    AfterKeeps(powLimit, l, ops[..i]);
    var after, r := Next(powLimit, before, ops[i]).0, Next(powLimit, before, ops[i]).1;
    match ops[i]
    case AcceptHeader(header, verdicts) => HeaderOutcome(powLimit, before, header, verdicts, r);
    case AcceptBlock(header, verdicts, connect) => BlockOutcome(before, header, verdicts, connect, after, r);
  }

  lemma {:induction false} OutcomeAt(powLimit: nat, l: Ledger, ops: seq<Op>, i: nat)
    requires i < |ops|
    ensures Outcomes(powLimit, l, ops)[i] == Next(powLimit, After(powLimit, l, ops[..i]), ops[i]).1
    decreases |ops|
  {
    if i < |ops| - 1 {
      OutcomeAt(powLimit, l, ops[..|ops| - 1], i);
      assert ops[..|ops| - 1][..i] == ops[..i];
    }
  }

  lemma OnInvalid(powLimit: nat, l: Ledger, op: Op, h: Hash)
    requires Rooted(l) && h in l.statuses && Invalidated(l.statuses[h])
    ensures Names(op, h) ==> Next(powLimit, l, op) == (l, Rejected(InvalidAncestorBlock))
    ensures forall x :: x in Next(powLimit, l, op).0.statuses && x.BlockHash? && x.header.prev == h ==> x in l.statuses
  {
    KnownInvalidBits(l.statuses[h]);
    if !op.SetFlags? {
      StatusesAfter(powLimit, l, op, Next(powLimit, l, op).0, Next(powLimit, l, op).1);
    }
  }

  /**
   * Once one of the bits is set on a hash, from then on every header and block that names it as predecessor is turned
   * away, and nothing new is indexed directly on it.
   */
  lemma {:induction false} NothingOnInvalid(powLimit: nat, l: Ledger, ops: seq<Op>, h: Hash)
    requires Rooted(l) && h in l.statuses && Invalidated(l.statuses[h])
    ensures var after := After(powLimit, l, ops);
      && h in after.statuses && Invalidated(after.statuses[h])
      && forall x :: x in after.statuses && x.BlockHash? && x.header.prev == h ==> x in l.statuses
    ensures forall i :: 0 <= i < |ops| && Names(ops[i], h) ==>
              Outcomes(powLimit, l, ops)[i] == Rejected(InvalidAncestorBlock)
    decreases |ops|
  {
    if ops != [] {
      var front, op := ops[..|ops| - 1], ops[|ops| - 1];
      NothingOnInvalid(powLimit, l, front, h);
      AfterKeeps(powLimit, l, front);
      var m := After(powLimit, l, front);
      OnInvalid(powLimit, m, op, h);
      NextGrows(powLimit, m, op);
      StillGrows(Next(powLimit, m, op).0);
      GrowsOn(m, Next(powLimit, m, op).0, Next(powLimit, m, op).0, h);
    }
  }

  lemma StillGrows(l: Ledger)
    ensures Grows(l, l)
  {
  }

  // ---------- what the database holds ----------

  /** Whatever has its block stored and is not dirty is written as it is; nothing is written of a mere header. */
  predicate Written(l: Ledger)
  {
    && l.rows.Keys <= l.statuses.Keys
    && (forall h :: h in l.statuses && h !in l.dirty && l.statuses[h] & 1 != 0 ==>
        h in l.rows && l.rows[h] == l.statuses[h])
    && (forall h :: h in l.rows ==> l.rows[h] & 1 != 0 || l.rows[h] & 16 == 0)
  }

  lemma MarkWritten(l: Ledger, h: Hash, status: Status)
    requires Written(l)
    ensures Written(Mark(l, h, status))
  {
  }

  lemma FlushWritten(l: Ledger)
    requires Written(l) && l.dirty <= l.statuses.Keys
    ensures Written(Flush(l))
  {
    forall h | h in l.statuses && l.statuses[h] & 1 != 0
      ensures h in Flush(l).rows && Flush(l).rows[h] == l.statuses[h]
    {
      if h in l.dirty {
        assert HasData(l.statuses[h]) && NeedsWrite(l);
      }
    }
  }

  lemma HeaderWritten(powLimit: nat, l: Ledger, header: Header, verdicts: Verdicts)
    requires Rooted(l) && Written(l)
    ensures Written(AfterHeader(powLimit, l, header, verdicts).0)
  {
    var h := BlockHash(header);
    var known := if h in l.statuses then l else Mark(l, h, STATUS_HEADER_STORED);
    MarkWritten(l, h, STATUS_HEADER_STORED);
    FlushWritten(known);
    var r := AfterHeader(powLimit, l, header, verdicts).0;
    assert r == l || r == known || r == Flush(known).(tip := r.tip);
  }

  lemma BlockWritten(l: Ledger, header: Header, verdicts: Verdicts, connect: Outcome)
    requires Rooted(l) && Written(l)
    ensures Written(AfterBlock(l, header, verdicts, connect).0)
  {
    var h := BlockHash(header);
    var status := STATUS_DATA_STORED | if h in l.statuses then l.statuses[h] else STATUS_HEADER_STORED;
    MarkWritten(l, h, status);
    FlushWritten(Mark(l, h, status));
  }

  lemma NextWritten(powLimit: nat, l: Ledger, op: Op)
    requires Rooted(l) && Written(l)
    ensures Written(Next(powLimit, l, op).0)
  {
    match op
    case AcceptHeader(header, verdicts) => HeaderWritten(powLimit, l, header, verdicts);
    case AcceptBlock(header, verdicts, connect) => BlockWritten(l, header, verdicts, connect);
    case SetFlags(hash, flags) =>
      if hash in l.statuses {
        MarkWritten(l, hash, l.statuses[hash] | flags);
      }
  }

  /** So it is after every run. */
  lemma {:induction false} AlwaysWritten(powLimit: nat, l: Ledger, ops: seq<Op>)
    requires Rooted(l) && Written(l)
    ensures Written(After(powLimit, l, ops))
  {
    if ops != [] {
      var front := ops[..|ops| - 1];
      AlwaysWritten(powLimit, l, front);
      AfterKeeps(powLimit, l, front);
      NextWritten(powLimit, After(powLimit, l, front), ops[|ops| - 1]);
    }
  }
}
