/** Who waits for what after any messages, told by the messages themselves. */
module WatchHistories {
  import opened Basics
  import opened NotificationManagers
  import opened Transactions

  // ---------- one transaction at a time ----------

  /** A block as the blocks of its transactions. */
  function One(m: Message): seq<Message>
  {
    if m.Block? then seq(|m.txs|, i requires 0 <= i < |m.txs| => Block([m.txs[i]], m.mempool)) else [m]
  }

  function Flat(messages: seq<Message>): seq<Message>
    decreases |messages|
  {
    if messages == [] then [] else Flat(messages[..|messages| - 1]) + One(messages[|messages| - 1])
  }

  lemma {:induction false} AfterConcat(r: Requests, a: seq<Message>, b: seq<Message>)
    ensures After(r, a + b) == After(After(r, a), b)
    decreases |b|
  {
    if b == [] {
      assert a + b == a;
    } else {
      AfterConcat(r, a, b[..|b| - 1]);
      assert (a + b)[..|a + b| - 1] == a + b[..|b| - 1] && (a + b)[|a + b| - 1] == b[|b| - 1];
    }
  }

  lemma {:induction false} OneByOne(r: Requests, m: Message, k: nat)
    requires m.Block? && k <= |m.txs|
    ensures After(r, One(m)[..k]) == r.(spent := RequestsAfterBlock(r.spent, r.paid, m.txs[..k]))
  {
    if k > 0 {
      OneByOne(r, m, k - 1);
      var tx := m.txs[k - 1];
      assert One(m)[..k][..k - 1] == One(m)[..k - 1] && One(m)[..k][k - 1] == Block([tx], m.mempool);
      assert m.txs[..k][..k - 1] == m.txs[..k - 1];
      SingleBlock(RequestsAfterBlock(r.spent, r.paid, m.txs[..k - 1]), r.paid, tx);
    }
  }

  lemma SingleBlock(spent: Spent, paid: Paid, tx: Tx)
    ensures RequestsAfterBlock(spent, paid, [tx]) == RequestsAfterTx(spent, paid, tx, true)
  {
    assert [tx][..0] == [];
  }

  /** Blocks may as well come one transaction at a time. */
  lemma {:induction false} FlatSame(r: Requests, messages: seq<Message>)
    ensures After(r, Flat(messages)) == After(r, messages)
    decreases |messages|
  {
    if messages != [] {
      var before, last := messages[..|messages| - 1], messages[|messages| - 1];
      FlatSame(r, before);
      AfterConcat(r, Flat(before), One(last));
      var s := After(r, before);
      if last.Block? {
        OneByOne(s, last, |last.txs|);
        assert One(last)[..|last.txs|] == One(last) && last.txs[..|last.txs|] == last.txs;
      } else {
        assert One(last)[..0] == [];
      }
    }
  }

  ghost predicate Singles(messages: seq<Message>)
  {
    forall i :: 0 <= i < |messages| && messages[i].Block? ==> |messages[i].txs| == 1
  }

  lemma {:induction false} FlatSingles(messages: seq<Message>)
    ensures Singles(Flat(messages))
    decreases |messages|
  {
    if messages != [] {
      FlatSingles(messages[..|messages| - 1]);
    }
  }

  /** The transaction a message is about. */
  function TxOf(m: Message): Option<Tx>
  {
    match m
    case Block(txs, _) => if |txs| == 1 then Some(txs[0]) else None
    case MempoolTx(tx, _) => Some(tx)
    case _ => None
  }

  // ---------- addresses ----------

  predicate AsksAddr(m: Message, c: Client, a: Address)
  {
    m.RegisterAddr? && m.client == c && a in m.addrs
  }

  predicate DropsAddr(m: Message, c: Client, a: Address)
  {
    (m.UnregisterAddr? && m.client == c && m.addr == a) || (m.Leave? && m.client == c)
  }

  ghost predicate AddrKept(ms: seq<Message>, c: Client, a: Address, i: int, n: nat)
    requires -1 <= i && n <= |ms|
  {
    forall j :: i < j < n ==> !DropsAddr(ms[j], c, a)
  }

  /** Before message n the client waits for payments to the address: it waited at first or asked for them, and has
      neither withdrawn that nor left since. */
  ghost predicate AddrWatched(r: Requests, ms: seq<Message>, n: nat, c: Client, a: Address)
    requires n <= |ms|
  {
    || ((c, a) in r.paid && AddrKept(ms, c, a, -1, n))
    || exists i :: 0 <= i < n && AsksAddr(ms[i], c, a) && AddrKept(ms, c, a, i, n)
  }

  lemma AddrStep(r: Requests, ms: seq<Message>, n: nat, c: Client, a: Address)
    requires n < |ms|
    ensures AddrWatched(r, ms, n + 1, c, a) <==>
      AsksAddr(ms[n], c, a) || (AddrWatched(r, ms, n, c, a) && !DropsAddr(ms[n], c, a))
  {
    forall i | -1 <= i < n
      ensures AddrKept(ms, c, a, i, n + 1) <==> AddrKept(ms, c, a, i, n) && !DropsAddr(ms[n], c, a)
    {
    }
    assert AddrKept(ms, c, a, n, n + 1);
  }

  lemma {:induction false} AddrLaw(r: Requests, ms: seq<Message>, n: nat, c: Client, a: Address)
    requires n <= |ms|
    ensures (c, a) in After(r, ms[..n]).paid <==> AddrWatched(r, ms, n, c, a)
  {
    if n == 0 {
      assert AddrKept(ms, c, a, -1, 0);
    } else {
      AddrLaw(r, ms, n - 1, c, a);
      AddrStep(r, ms, n - 1, c, a);
      assert ms[..n][..n - 1] == ms[..n - 1];
    }
  }

  // ---------- outputs ----------

  predicate AsksSpent(m: Message, c: Client, op: OutPoint)
  {
    m.RegisterSpent? && m.client == c && op in m.ops
  }

  /** Message i brings a transaction whose output pays an address the client waits for. */
  ghost predicate PaysClient(r: Requests, ms: seq<Message>, i: nat, c: Client, op: OutPoint)
    requires i < |ms|
  {
    && TxOf(ms[i]).Some? && op.tx == TxOf(ms[i]).value.id && op.index < |TxOf(ms[i]).value.outputs|
    && exists a :: a in TxOf(ms[i]).value.outputs[op.index] && AddrWatched(r, ms, i, c, a)
  }

  /** Withdrawn, left, or spent in a block; a spend that is not confirmed does not end the wait. */
  predicate DropsSpent(m: Message, c: Client, op: OutPoint)
  {
    || (m.UnregisterSpent? && m.client == c && m.op == op)
    || (m.Leave? && m.client == c)
    || (m.Block? && TxOf(m).Some? && op in TxOf(m).value.inputs)
  }

  ghost predicate SpentKept(ms: seq<Message>, c: Client, op: OutPoint, i: int, n: nat)
    requires -1 <= i && n <= |ms|
  {
    forall j :: i < j < n ==> !DropsSpent(ms[j], c, op)
  }

  /** The client waits for a spend of the output: it did at first, asked for it, or was paid by it, and since then it
      has neither withdrawn that nor left and no block has spent it. */
  ghost predicate SpentWatched(r: Requests, ms: seq<Message>, n: nat, c: Client, op: OutPoint)
    requires n <= |ms|
  {
    || ((c, op) in r.spent && SpentKept(ms, c, op, -1, n))
    || exists i :: 0 <= i < n && (AsksSpent(ms[i], c, op) || PaysClient(r, ms, i, c, op)) && SpentKept(ms, c, op, i, n)
  }

  lemma SpentStep(r: Requests, ms: seq<Message>, n: nat, c: Client, op: OutPoint)
    requires n < |ms|
    ensures SpentWatched(r, ms, n + 1, c, op) <==>
      || AsksSpent(ms[n], c, op) || PaysClient(r, ms, n, c, op)
      || (SpentWatched(r, ms, n, c, op) && !DropsSpent(ms[n], c, op))
  {
    forall i | -1 <= i < n
      ensures SpentKept(ms, c, op, i, n + 1) <==> SpentKept(ms, c, op, i, n) && !DropsSpent(ms[n], c, op)
    {
    }
    assert SpentKept(ms, c, op, n, n + 1);
  }

  lemma ReceivesExactly(paid: Paid, tx: Tx, c: Client, op: OutPoint)
    ensures (c, op) in Receives(paid, tx.id, tx.outputs) <==>
      op.tx == tx.id && op.index < |tx.outputs| && exists a :: a in tx.outputs[op.index] && (c, a) in paid
  {
    if op.tx == tx.id && op.index < |tx.outputs| {
      var i := op.index;
      assert op == OutPoint(tx.id, i);
      if a :| a in tx.outputs[i] && (c, a) in paid {
        assert c in Payees(paid, tx.outputs[i]);
        assert (c, op) in Waits(Payees(paid, tx.outputs[i]), OutPoint(tx.id, i));
      }
    }
  }

  lemma TxStep(r: Requests, ms: seq<Message>, n: nat, c: Client, op: OutPoint)
    requires n < |ms| && TxOf(ms[n]).Some?
    ensures var s := After(r, ms[..n]);
      (c, op) in Apply(s, ms[n]).spent <==>
        PaysClient(r, ms, n, c, op) || ((c, op) in s.spent && !DropsSpent(ms[n], c, op))
  {
    var s, tx := After(r, ms[..n]), TxOf(ms[n]).value;
    if ms[n].Block? {
      assert ms[n].txs == [tx];
      SingleBlock(s.spent, s.paid, tx);
    }
    ReceivesExactly(s.paid, tx, c, op);
    forall a
      ensures (c, a) in s.paid <==> AddrWatched(r, ms, n, c, a)
    {
      AddrLaw(r, ms, n, c, a);
    }
  }

  lemma {:induction false} SpentLaw(r: Requests, ms: seq<Message>, n: nat, c: Client, op: OutPoint)
    requires Singles(ms) && n <= |ms|
    ensures (c, op) in After(r, ms[..n]).spent <==> SpentWatched(r, ms, n, c, op)
  {
    if n == 0 {
      assert SpentKept(ms, c, op, -1, 0);
    } else {
      SpentLaw(r, ms, n - 1, c, op);
      SpentStep(r, ms, n - 1, c, op);
      assert ms[..n][..n - 1] == ms[..n - 1];
      if TxOf(ms[n - 1]).Some? {
        TxStep(r, ms, n - 1, c, op);
      }
    }
  }

  /** After any messages a client waits for exactly the addresses and outputs that the messages give it. */
  lemma WatchedExactly(r: Requests, messages: seq<Message>, c: Client, a: Address, op: OutPoint)
    ensures var ms, now := Flat(messages), After(r, messages);
      && ((c, a) in now.paid <==> AddrWatched(r, ms, |ms|, c, a))
      && ((c, op) in now.spent <==> SpentWatched(r, ms, |ms|, c, op))
  {
    var ms := Flat(messages);
    FlatSame(r, messages);
    FlatSingles(messages);
    assert ms[..|ms|] == ms;
    AddrLaw(r, ms, |ms|, c, a);
    SpentLaw(r, ms, |ms|, c, op);
  }
}
