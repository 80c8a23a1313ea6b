/** One block of a rescan: the outputs a client follows, and what it is told. */
module RescanBlocks {
  import opened Basics
  import opened BlockNodes
  import opened Transactions

  datatype Block = Block(hash: Hash, prev: Hash, height: nat, txs: seq<Tx>)

  datatype RescanNotice = RedeemingTx(tx: Tx) | RecvTx(tx: Tx)

  // ---------- what a transaction does to the outputs followed ----------

  ghost predicate Pays(addrs: set<Address>, output: seq<Address>)
  {
    exists a :: a in output && a in addrs
  }

  /** The outputs of a transaction that pay a followed address. */
  ghost function Followed(addrs: set<Address>, tx: Tx): set<OutPoint>
  {
    set i | 0 <= i < |tx.outputs| && Pays(addrs, tx.outputs[i]) :: OutPoint(tx.id, i)
  }

  function Spent(tx: Tx): set<OutPoint>
  {
    set op | op in tx.inputs
  }

  ghost function AfterTx(addrs: set<Address>, unspent: set<OutPoint>, tx: Tx): set<OutPoint>
  {
    unspent - Spent(tx) + Followed(addrs, tx)
  }

  ghost function AfterTxs(addrs: set<Address>, unspent: set<OutPoint>, txs: seq<Tx>): set<OutPoint>
    decreases |txs|
  {
    if txs == [] then unspent else AfterTx(addrs, AfterTxs(addrs, unspent, txs[..|txs| - 1]), txs[|txs| - 1])
  }

  /** An input spends a followed output or is signed by a followed address. */
  predicate Touches(addrs: set<Address>, unspent: set<OutPoint>, tx: Tx, i: nat)
    requires i < |tx.inputs|
  {
    tx.inputs[i] in unspent || (i < |tx.signers| && tx.signers[i].Some? && tx.signers[i].value in addrs)
  }

  ghost predicate Redeems(addrs: set<Address>, unspent: set<OutPoint>, tx: Tx)
  {
    exists i :: 0 <= i < |tx.inputs| && Touches(addrs, unspent, tx, i)
  }

  ghost predicate Receives(addrs: set<Address>, tx: Tx)
  {
    exists i :: 0 <= i < |tx.outputs| && Pays(addrs, tx.outputs[i])
  }

  /** At most one notice for the inputs of a transaction and one for its outputs. */
  ghost function TxNotices(addrs: set<Address>, unspent: set<OutPoint>, tx: Tx): seq<RescanNotice>
  {
    (if Redeems(addrs, unspent, tx) then [RedeemingTx(tx)] else []) +
    (if Receives(addrs, tx) then [RecvTx(tx)] else [])
  }

  ghost function TxsNotices(addrs: set<Address>, unspent: set<OutPoint>, txs: seq<Tx>): seq<RescanNotice>
    decreases |txs|
  {
    if txs == [] then []
    else
      var before := txs[..|txs| - 1];
      TxsNotices(addrs, unspent, before) + TxNotices(addrs, AfterTxs(addrs, unspent, before), txs[|txs| - 1])
  }

  // ---------- the scan ----------

  /** The client does not disconnect. */
  ghost predicate Stays(alive: nat -> bool)
  {
    forall n {:trigger alive(n)} :: alive(n)
  }

  /** Everything sent was sent to a client still there, and what failed to be sent was not. */
  ghost predicate SentWhile(alive: nat -> bool, before: seq<RescanNotice>, after: seq<RescanNotice>, ok: bool)
  {
    && |before| <= |after| && (forall k: nat :: |before| <= k < |after| ==> alive(k))
    && (!ok ==> !alive(|after|))
  }

  lemma {:induction false} NoticesBegin(addrs: set<Address>, unspent: set<OutPoint>, txs: seq<Tx>, i: nat)
    requires i <= |txs|
    ensures TxsNotices(addrs, unspent, txs[..i]) <= TxsNotices(addrs, unspent, txs)
    decreases |txs| - i
  {
    if i == |txs| {
      assert txs[..i] == txs;
    } else {
      NoticesBegin(addrs, unspent, txs, i + 1);
      assert txs[..i + 1][..i] == txs[..i];
    }
  }

  lemma CutShort(before: seq<RescanNotice>, some: seq<RescanNotice>, all: seq<RescanNotice>, sent: seq<RescanNotice>)
    requires sent < before + some && some <= all
    ensures sent < before + all
  {
    assert before + some <= before + all;
  }

  class RescanKeys {
    const addrs: set<Address>
    var unspent: set<OutPoint>
    var sent: seq<RescanNotice>

    constructor (addrs: set<Address>, unspent: set<OutPoint>)
      ensures this.addrs == addrs && this.unspent == unspent && sent == []
    {
      this.addrs, this.unspent, sent := addrs, unspent, [];
    }

    /** QueueNotification, which fails once the client has disconnected. */
    method Queue(n: RescanNotice, alive: nat -> bool) returns (ok: bool)
      modifies `sent
      ensures sent == if ok then old(sent) + [n] else old(sent)
      ensures ok == alive(|old(sent)|)
    {
      ok := alive(|sent|);
      if ok {
        sent := sent + [n];
      }
    }

    method ScanInputs(tx: Tx, alive: nat -> bool) returns (ok: bool)
      modifies `unspent, `sent
      ensures Stays(alive) ==> ok
      ensures ok ==> unspent == old(unspent) - Spent(tx)
      ensures ok ==> sent == old(sent) + if Redeems(addrs, old(unspent), tx) then [RedeemingTx(tx)] else []
      ensures !ok ==> sent == old(sent) && Redeems(addrs, old(unspent), tx)
      ensures SentWhile(alive, old(sent), sent, ok)
    {
      var notified := false;
      for i := 0 to |tx.inputs|
        invariant unspent == old(unspent) - set op | op in tx.inputs[..i]
        invariant notified <==> exists k :: 0 <= k < i && Touches(addrs, old(unspent), tx, k)
        invariant sent == old(sent) + if notified then [RedeemingTx(tx)] else []
        invariant SentWhile(alive, old(sent), sent, true)
      {
        assert Touches(addrs, unspent, tx, i) ==> Touches(addrs, old(unspent), tx, i);
        if tx.inputs[i] in old(unspent) && tx.inputs[i] !in unspent {
          ghost var k :| 0 <= k < i && tx.inputs[k] == tx.inputs[i];
          assert Touches(addrs, old(unspent), tx, k);
        }
        if tx.inputs[i] in unspent {
          unspent := unspent - {tx.inputs[i]};
          if notified {
            continue;
          }
          ok := Queue(RedeemingTx(tx), alive);
          if !ok {
            return;
          }
          notified := true;
        }
        if i >= |tx.signers| || tx.signers[i].None? {
          continue;
        }
        if tx.signers[i].value in addrs {
          if notified {
            continue;
          }
          ok := Queue(RedeemingTx(tx), alive);
          if !ok {
            return;
          }
          notified := true;
        }
      }
      assert tx.inputs[..|tx.inputs|] == tx.inputs;
      ok := true;
    }

    method ScanOutput(tx: Tx, i: nat, notified: bool, alive: nat -> bool) returns (ok: bool, told: bool)
      requires i < |tx.outputs|
      modifies `unspent, `sent
      ensures Stays(alive) ==> ok
      ensures ok ==> told == (notified || Pays(addrs, tx.outputs[i]))
      ensures ok ==> unspent == old(unspent) + if Pays(addrs, tx.outputs[i]) then {OutPoint(tx.id, i)} else {}
      ensures ok ==> sent == old(sent) + if told && !notified then [RecvTx(tx)] else []
      ensures !ok ==> sent == old(sent) && !notified && Pays(addrs, tx.outputs[i])
      ensures SentWhile(alive, old(sent), sent, ok)
    {
      told := notified;
      var output := tx.outputs[i];
      for j := 0 to |output|
        invariant told <==> notified || exists k :: 0 <= k < j && output[k] in addrs
        invariant unspent == old(unspent)
                  + if exists k :: 0 <= k < j && output[k] in addrs then {OutPoint(tx.id, i)} else {}
        invariant sent == old(sent) + if told && !notified then [RecvTx(tx)] else []
        invariant SentWhile(alive, old(sent), sent, true)
      {
        if output[j] !in addrs {
          continue;
        }
        unspent := unspent + {OutPoint(tx.id, i)};
        if told {
          continue;
        }
        ok := Queue(RecvTx(tx), alive);
        if !ok {
          return;
        }
        told := true;
      }
      ok := true;
      assert Pays(addrs, output) <==> exists k :: 0 <= k < |output| && output[k] in addrs;
    }

    method ScanOutputs(tx: Tx, alive: nat -> bool) returns (ok: bool)
      modifies `unspent, `sent
      ensures Stays(alive) ==> ok
      ensures ok ==> unspent == old(unspent) + Followed(addrs, tx)
      ensures ok ==> sent == old(sent) + if Receives(addrs, tx) then [RecvTx(tx)] else []
      ensures !ok ==> sent == old(sent) && Receives(addrs, tx)
      ensures SentWhile(alive, old(sent), sent, ok)
    {
      var notified := false;
      for i := 0 to |tx.outputs|
        invariant notified <==> exists k :: 0 <= k < i && Pays(addrs, tx.outputs[k])
        invariant unspent == old(unspent) + FollowedUpTo(addrs, tx, i)
        invariant sent == old(sent) + if notified then [RecvTx(tx)] else []
        invariant SentWhile(alive, old(sent), sent, true)
      {
        assert FollowedUpTo(addrs, tx, i + 1)
            == FollowedUpTo(addrs, tx, i) + if Pays(addrs, tx.outputs[i]) then {OutPoint(tx.id, i)} else {};
        var told;
        ok, told := ScanOutput(tx, i, notified, alive);
        if !ok {
          return;
        }
        notified := told;
      }
      ok := true;
    }

    /** One transaction: its inputs, then its outputs. */
    method ScanTx(tx: Tx, alive: nat -> bool) returns (ok: bool)
      modifies `unspent, `sent
      ensures Stays(alive) ==> ok
      ensures ok ==> unspent == AfterTx(addrs, old(unspent), tx)
      ensures ok ==> sent == old(sent) + TxNotices(addrs, old(unspent), tx)
      ensures !ok ==> old(sent) <= sent < old(sent) + TxNotices(addrs, old(unspent), tx)
      ensures SentWhile(alive, old(sent), sent, ok)
    {
      ok := ScanInputs(tx, alive);
      if ok {
        ok := ScanOutputs(tx, alive);
      }
    }

    /** All transactions of a block.  A client that has gone ends it early, having been told the first of the notices
        and none after the one that could not be queued. */
    method RescanBlock(block: Block, alive: nat -> bool) returns (ok: bool)
      modifies `unspent, `sent
      ensures Stays(alive) ==> ok
      ensures ok ==> unspent == AfterTxs(addrs, old(unspent), block.txs)
      ensures ok ==> sent == old(sent) + TxsNotices(addrs, old(unspent), block.txs)
      ensures !ok ==> old(sent) <= sent < old(sent) + TxsNotices(addrs, old(unspent), block.txs)
      ensures SentWhile(alive, old(sent), sent, ok)
    {
      var txs := block.txs;
      for i := 0 to |txs|
        invariant unspent == AfterTxs(addrs, old(unspent), txs[..i])
        invariant sent == old(sent) + TxsNotices(addrs, old(unspent), txs[..i])
        invariant SentWhile(alive, old(sent), sent, true)
      {
        assert txs[..i + 1][..i] == txs[..i];
        ghost var first, more := TxsNotices(addrs, old(unspent), txs[..i]), TxNotices(addrs, unspent, txs[i]);
        ok := ScanTx(txs[i], alive);
        Assoc(old(sent), first, more);
        if !ok {
          NoticesBegin(addrs, old(unspent), txs, i + 1);
          CutShort(old(sent), first + more, TxsNotices(addrs, old(unspent), txs), sent);
          return;
        }
      }
      ok := true;
      assert txs[..|txs|] == txs;
    }
  }

  ghost function FollowedUpTo(addrs: set<Address>, tx: Tx, n: nat): set<OutPoint>
    requires n <= |tx.outputs|
  {
    set i | 0 <= i < n && Pays(addrs, tx.outputs[i]) :: OutPoint(tx.id, i)
  }

  // ---------- the outputs left over ----------

  ghost predicate SpentFrom(op: OutPoint, txs: seq<Tx>, k: nat)
  {
    exists i :: k <= i < |txs| && op in txs[i].inputs
  }

  /** An output is left over when it was followed, at first or by a payment, and not spent since. */
  lemma {:induction false} LeftOver(addrs: set<Address>, unspent: set<OutPoint>, txs: seq<Tx>, op: OutPoint)
    ensures op in AfterTxs(addrs, unspent, txs) <==>
      || (op in unspent && !SpentFrom(op, txs, 0))
      || exists j :: 0 <= j < |txs| && op in Followed(addrs, txs[j]) && !SpentFrom(op, txs, j + 1)
    decreases |txs|
  {
    if txs != [] {
      var n := |txs| - 1;
      var before, last := txs[..n], txs[n];
      LeftOver(addrs, unspent, before, op);
      forall k | 0 <= k <= n
        ensures SpentFrom(op, txs, k) <==> SpentFrom(op, before, k) || op in last.inputs
      {
        SpentFromLast(op, txs, k);
      }
      assert !SpentFrom(op, txs, n + 1);
    }
  }

  lemma SpentFromLast(op: OutPoint, txs: seq<Tx>, k: nat)
    requires k < |txs|
    ensures SpentFrom(op, txs, k) <==> SpentFrom(op, txs[..|txs| - 1], k) || op in txs[|txs| - 1].inputs
  {
    if SpentFrom(op, txs, k) {
      var i :| k <= i < |txs| && op in txs[i].inputs;
      assert i == |txs| - 1 || txs[..|txs| - 1][i] == txs[i];
    }
  }

  ghost function Created(addrs: set<Address>, txs: seq<Tx>): set<OutPoint>
  {
    set j, op | 0 <= j < |txs| && op in Followed(addrs, txs[j]) :: op
  }

  ghost function SpentBy(txs: seq<Tx>): set<OutPoint>
  {
    set j, op | 0 <= j < |txs| && op in txs[j].inputs :: op
  }

  /** A followed output that is spent at all is spent after the transaction that creates it. */
  ghost predicate SpentAfterCreation(addrs: set<Address>, txs: seq<Tx>)
  {
    forall j, op :: 0 <= j < |txs| && op in Followed(addrs, txs[j]) && SpentFrom(op, txs, 0) ==>
      SpentFrom(op, txs, j + 1)
  }

  /** What is left over is everything ever followed and never spent, exactly when spends come after
      the payments they spend. */
  lemma UnspentLaw(addrs: set<Address>, unspent: set<OutPoint>, txs: seq<Tx>)
    ensures AfterTxs(addrs, unspent, txs) == unspent + Created(addrs, txs) - SpentBy(txs)
       <==> SpentAfterCreation(addrs, txs)
  {
    var left, law := AfterTxs(addrs, unspent, txs), unspent + Created(addrs, txs) - SpentBy(txs);
    forall op
      ensures op in SpentBy(txs) <==> SpentFrom(op, txs, 0)
    {
    }
    if SpentAfterCreation(addrs, txs) {
      forall op
        ensures op in left <==> op in law
      {
        LeftOver(addrs, unspent, txs, op);
      }
    } else {
      var j, op :| 0 <= j < |txs| && op in Followed(addrs, txs[j]) && SpentFrom(op, txs, 0)
                   && !SpentFrom(op, txs, j + 1);
      LeftOver(addrs, unspent, txs, op);
      assert op in left && op !in law;
    }
  }

  // ---------- which transactions are told of ----------

  /** One of the transactions from a up to b - 1 spends the output. */
  ghost predicate SpentBetween(op: OutPoint, txs: seq<Tx>, a: nat, b: nat)
  {
    exists i :: a <= i < b && i < |txs| && op in txs[i].inputs
  }

  /** An output of a transaction that one of the addresses can spend. */
  ghost predicate PaidBy(addrs: set<Address>, tx: Tx, op: OutPoint)
  {
    op.tx == tx.id && op.index < |tx.outputs| && exists a :: a in tx.outputs[op.index] && a in addrs
  }

  /** When transaction j comes the output is one to watch: given at first or paid by an earlier one, and not spent in
      between. */
  ghost predicate WatchedAt(addrs: set<Address>, unspent: set<OutPoint>, txs: seq<Tx>, j: nat, op: OutPoint)
  {
    || (op in unspent && !SpentBetween(op, txs, 0, j))
    || exists m :: 0 <= m < j && m < |txs| && PaidBy(addrs, txs[m], op) && !SpentBetween(op, txs, m + 1, j)
  }

  /** An input of transaction j spends such an output or its witness belongs to one of the addresses. */
  ghost predicate RedeemedAt(addrs: set<Address>, unspent: set<OutPoint>, txs: seq<Tx>, j: nat)
    requires j < |txs|
  {
    || (exists op :: op in txs[j].inputs && WatchedAt(addrs, unspent, txs, j, op))
    || exists i :: 0 <= i < |txs[j].inputs| && i < |txs[j].signers| && SignedBy(addrs, txs[j].signers[i])
  }

  ghost predicate SignedBy(addrs: set<Address>, signer: Option<Address>)
  {
    signer.Some? && signer.value in addrs
  }

  ghost predicate PaidAt(addrs: set<Address>, tx: Tx)
  {
    exists op :: PaidBy(addrs, tx, op)
  }

  /** In the order of the transactions, the redeeming notice before the other. */
  ghost function NoticesUpTo(addrs: set<Address>, unspent: set<OutPoint>, txs: seq<Tx>, n: nat): seq<RescanNotice>
    requires n <= |txs|
  {
    if n == 0 then []
    else
      NoticesUpTo(addrs, unspent, txs, n - 1)
      + ((if RedeemedAt(addrs, unspent, txs, n - 1) then [RedeemingTx(txs[n - 1])] else [])
         + (if PaidAt(addrs, txs[n - 1]) then [RecvTx(txs[n - 1])] else []))
  }

  lemma WatchedExactly(addrs: set<Address>, unspent: set<OutPoint>, txs: seq<Tx>, j: nat, op: OutPoint)
    requires j <= |txs|
    ensures op in AfterTxs(addrs, unspent, txs[..j]) <==> WatchedAt(addrs, unspent, txs, j, op)
  {
    var before := txs[..j];
    LeftOver(addrs, unspent, before, op);
    forall a: nat
      ensures SpentFrom(op, before, a) <==> SpentBetween(op, txs, a, j)
    {
      SpentBefore(op, txs, a, j);
    }
    forall m | 0 <= m < j
      ensures op in Followed(addrs, before[m]) <==> PaidBy(addrs, txs[m], op)
    {
      FollowedExactly(addrs, txs[m], op);
    }
  }

  lemma SpentBefore(op: OutPoint, txs: seq<Tx>, a: nat, j: nat)
    requires j <= |txs|
    ensures SpentFrom(op, txs[..j], a) <==> SpentBetween(op, txs, a, j)
  {
    if SpentBetween(op, txs, a, j) {
      var i :| a <= i < j && i < |txs| && op in txs[i].inputs;
      assert txs[..j][i] == txs[i];
    }
  }

  lemma FollowedExactly(addrs: set<Address>, tx: Tx, op: OutPoint)
    ensures op in Followed(addrs, tx) <==> PaidBy(addrs, tx, op)
  {
    if PaidBy(addrs, tx, op) {
      assert op == OutPoint(tx.id, op.index) && Pays(addrs, tx.outputs[op.index]);
    }
  }

  lemma RedeemsExactly(addrs: set<Address>, unspent: set<OutPoint>, txs: seq<Tx>, j: nat)
    requires j < |txs|
    ensures Redeems(addrs, AfterTxs(addrs, unspent, txs[..j]), txs[j]) <==> RedeemedAt(addrs, unspent, txs, j)
  {
    var now, tx := AfterTxs(addrs, unspent, txs[..j]), txs[j];
    forall op
      ensures op in now <==> WatchedAt(addrs, unspent, txs, j, op)
    {
      WatchedExactly(addrs, unspent, txs, j, op);
    }
    if Redeems(addrs, now, tx) {
      var i :| 0 <= i < |tx.inputs| && Touches(addrs, now, tx, i);
      assert tx.inputs[i] in now || SignedBy(addrs, tx.signers[i]);
    }
    if op :| op in tx.inputs && WatchedAt(addrs, unspent, txs, j, op) {
      var i :| 0 <= i < |tx.inputs| && tx.inputs[i] == op;
      assert Touches(addrs, now, tx, i);
    }
    if i :| 0 <= i < |tx.inputs| && i < |tx.signers| && SignedBy(addrs, tx.signers[i]) {
      assert Touches(addrs, now, tx, i);
    }
  }

  lemma ReceivesExactly(addrs: set<Address>, tx: Tx)
    ensures Receives(addrs, tx) <==> PaidAt(addrs, tx)
  {
    if Receives(addrs, tx) {
      var i :| 0 <= i < |tx.outputs| && Pays(addrs, tx.outputs[i]);
      assert PaidBy(addrs, tx, OutPoint(tx.id, i));
    }
  }

  /** A client is told of exactly the transactions that spend what was watched when they came, or are signed by an
      address, and of those that pay one, in their order. */
  lemma {:induction false} ToldExactly(addrs: set<Address>, unspent: set<OutPoint>, txs: seq<Tx>, n: nat)
    requires n <= |txs|
    ensures TxsNotices(addrs, unspent, txs[..n]) == NoticesUpTo(addrs, unspent, txs, n)
  {
    if n > 0 {
      ToldExactly(addrs, unspent, txs, n - 1);
      assert txs[..n][..n - 1] == txs[..n - 1];
      RedeemsExactly(addrs, unspent, txs, n - 1);
      ReceivesExactly(addrs, txs[n - 1]);
    }
  }

  // ---------- one list of transactions after another ----------

  lemma {:induction false} AfterConcat(addrs: set<Address>, unspent: set<OutPoint>, a: seq<Tx>, b: seq<Tx>)
    ensures AfterTxs(addrs, unspent, a + b) == AfterTxs(addrs, AfterTxs(addrs, unspent, a), b)
    decreases |b|
  {
    if b == [] {
      assert a + b == a;
    } else {
      AfterConcat(addrs, unspent, a, b[..|b| - 1]);
      assert (a + b)[..|a + b| - 1] == a + b[..|b| - 1];
    }
  }

  lemma {:induction false} NoticesConcat(addrs: set<Address>, unspent: set<OutPoint>, a: seq<Tx>, b: seq<Tx>)
    ensures TxsNotices(addrs, unspent, a + b)
         == TxsNotices(addrs, unspent, a) + TxsNotices(addrs, AfterTxs(addrs, unspent, a), b)
    decreases |b|
  {
    if b == [] {
      assert a + b == a;
    } else {
      var c := b[..|b| - 1];
      NoticesConcat(addrs, unspent, a, c);
      AfterConcat(addrs, unspent, a, c);
      assert (a + b)[..|a + b| - 1] == a + c && (a + b)[|a + b| - 1] == b[|b| - 1];
      var from := AfterTxs(addrs, unspent, a);
      Assoc(TxsNotices(addrs, unspent, a), TxsNotices(addrs, from, c),
            TxNotices(addrs, AfterTxs(addrs, from, c), b[|b| - 1]));
    }
  }
}
