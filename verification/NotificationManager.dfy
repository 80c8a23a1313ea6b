/** The notification manager's watch requests: which client waits for which outpoint or address. */
module NotificationManagers {
  import opened Basics
  import opened Transactions
  import opened WatchIndexes

  datatype Kind = RedeemingTx | RecvTx

  /** What each client keeps of its own requests. */
  class Client {
    var spentRequests: set<OutPoint>
    var addrRequests: set<Address>

    constructor ()
      ensures spentRequests == {} && addrRequests == {}
    {
      spentRequests, addrRequests := {}, {};
    }
  }

  datatype Notice = Notice(to: Client, kind: Kind, tx: Tx, inBlock: bool)

  type Spent = set<(Client, OutPoint)>
  type Paid = set<(Client, Address)>

  // ---------- what a transaction does to the requests ----------

  /** The clients waiting for one of the outpoints. */
  ghost function Redeemers(spent: Spent, inputs: seq<OutPoint>): set<Client>
  {
    set p | p in spent && p.1 in inputs :: p.0
  }

  /** The clients waiting for a payment to one of the addresses. */
  ghost function Payees(paid: Paid, addrs: seq<Address>): set<Client>
  {
    set p | p in paid && p.1 in addrs :: p.0
  }

  ghost function Receivers(paid: Paid, outputs: seq<seq<Address>>): set<Client>
  {
    set i, c | 0 <= i < |outputs| && c in Payees(paid, outputs[i]) :: c
  }

  /** A confirmed spend answers the request for the outpoint. */
  ghost function Answered(spent: Spent, inputs: seq<OutPoint>): Spent
  {
    set p | p in spent && p.1 !in inputs
  }

  ghost function Waits(who: set<Client>, op: OutPoint): Spent
  {
    set c | c in who :: (c, op)
  }

  /** Every output paying a watched address becomes watched by the same clients. */
  ghost function Receives(paid: Paid, id: nat, outputs: seq<seq<Address>>): Spent
  {
    set i, p | 0 <= i < |outputs| && p in Waits(Payees(paid, outputs[i]), OutPoint(id, i)) :: p
  }

  ghost function RequestsAfterTx(spent: Spent, paid: Paid, tx: Tx, inBlock: bool): Spent
  {
    (if inBlock then Answered(spent, tx.inputs) else spent) + Receives(paid, tx.id, tx.outputs)
  }

  ghost function RequestsAfterBlock(spent: Spent, paid: Paid, txs: seq<Tx>): Spent
    decreases |txs|
  {
    if txs == [] then spent
    else RequestsAfterTx(RequestsAfterBlock(spent, paid, txs[..|txs| - 1]), paid, txs[|txs| - 1], true)
  }

  /** A transaction of the memory pool that spends the outpoint, if any. */
  type Mempool = OutPoint -> Option<Tx>

  ghost predicate Spends(mempool: Mempool)
  {
    forall op {:trigger mempool(op)} :: mempool(op).Some? ==> op in mempool(op).value.inputs
  }

  // ---------- who was told what ----------

  ghost function Same(who: set<Client>, kind: Kind, tx: Tx, inBlock: bool): set<Notice>
  {
    set c | c in who :: Notice(c, kind, tx, inBlock)
  }

  /** The new notices are the given ones, each once, in any order. */
  ghost predicate Adds(before: seq<Notice>, after: seq<Notice>, notices: set<Notice>)
  {
    before <= after && multiset(after[|before|..]) == multiset(notices)
  }

  /** The new notices tell each of the clients the same thing once. */
  ghost predicate EachOnce(before: seq<Notice>, after: seq<Notice>, who: set<Client>, kind: Kind, tx: Tx, inBlock: bool)
  {
    Adds(before, after, Same(who, kind, tx, inBlock))
  }

  lemma AddsMore(before: seq<Notice>, between: seq<Notice>, after: seq<Notice>, some: set<Notice>, more: set<Notice>)
    requires Adds(before, between, some) && Adds(between, after, more) && some !! more
    ensures Adds(before, after, some + more)
  {
    assert after[|before|..] == between[|before|..] + after[|between|..];
  }

  /** EachOnce with its parts out of sight until the notices are unsealed. */
  ghost predicate Told(before: seq<Notice>, after: seq<Notice>, who: set<Client>, kind: Kind, tx: Tx, inBlock: bool)
  {
    forall t {:trigger Unseal(t)} :: t == after ==> EachOnce(before, t, who, kind, tx, inBlock)
  }

  lemma ToldIsEachOnce(before: seq<Notice>, after: seq<Notice>, who: set<Client>, kind: Kind, tx: Tx, inBlock: bool)
    ensures Told(before, after, who, kind, tx, inBlock) <==> EachOnce(before, after, who, kind, tx, inBlock)
  {
    assert Unseal(after) == after;
  }

  lemma ToldMore(before: seq<Notice>, after: seq<Notice>, who: set<Client>, kind: Kind, tx: Tx, inBlock: bool,
                 c: Client)
    requires Told(before, after, who, kind, tx, inBlock) && c !in who
    ensures Told(before, after + [Notice(c, kind, tx, inBlock)], who + {c}, kind, tx, inBlock)
  {
    var n := Notice(c, kind, tx, inBlock);
    var longer := after + [n];
    ToldIsEachOnce(before, after, who, kind, tx, inBlock);
    ToldIsEachOnce(before, longer, who + {c}, kind, tx, inBlock);
    assert Same(who + {c}, kind, tx, inBlock) == Same(who, kind, tx, inBlock) + {n};
    assert longer[|after|..] == [n];
    AddsMore(before, after, longer, Same(who, kind, tx, inBlock), {n});
  }

  // ---------- the manager ----------

  class NotificationManager {
    var watchedOutPoints: map<OutPoint, set<Client>>
    var watchedAddrs: map<Address, set<Client>>
    var sent: seq<Notice>
    var clients: set<Client>
    /** All clients there will ever be, whether they have joined yet or left already. */
    ghost var known: set<Client>
    ghost var spent: Spent
    ghost var paid: Paid

    constructor (ghost all: set<Client>)
      requires forall c :: c in all ==> c.spentRequests == {} && c.addrRequests == {}
      ensures Valid() && clients == {} && known == all && spent == {} && paid == {} && sent == []
    {
      watchedOutPoints, watchedAddrs, sent, clients := map[], map[], [], {};
      known, spent, paid := all, {}, {};
      new;
      assert SpentMirrored() && AddrMirrored();
    }

    ghost function Now(): Requests
      reads `clients, `spent, `paid
    {
      Requests(clients, spent, paid)
    }

    /** Both directions of the outpoint index hold the same requests. */
    ghost predicate SpentMirrored()
      reads `watchedOutPoints, `known, `spent, known`spentRequests
    {
      && Mirrors(watchedOutPoints, spent)
      && (forall p :: p in spent ==> p.0 in known && p.1 in p.0.spentRequests)
      && (forall c, op :: c in known && op in c.spentRequests ==> (c, op) in spent)
    }

    ghost predicate AddrMirrored()
      reads `watchedAddrs, `known, `paid, known`addrRequests
    {
      && Mirrors(watchedAddrs, paid)
      && (forall p :: p in paid ==> p.0 in known && p.1 in p.0.addrRequests)
      && (forall c, addr :: c in known && addr in c.addrRequests ==> (c, addr) in paid)
    }

    /** SpentMirrored and AddrMirrored, out of sight until the clients are unsealed. */
    ghost predicate SpentValid()
      reads `watchedOutPoints, `known, `spent, known`spentRequests
    {
      forall t {:trigger Unseal(t)} :: t == known ==> SpentMirrored()
    }

    ghost predicate AddrValid()
      reads `watchedAddrs, `known, `paid, known`addrRequests
    {
      forall t {:trigger Unseal(t)} :: t == known ==> AddrMirrored()
    }

    ghost predicate Valid()
      reads `watchedOutPoints, `watchedAddrs, `known, `spent, `paid, known`spentRequests, known`addrRequests
    {
      SpentValid() && AddrValid()
    }

    /** The loop body of addSpentRequests. */
    method AddSpent(c: Client, op: OutPoint)
      requires SpentValid() && c in known
      modifies `watchedOutPoints, `spent, known`spentRequests
      ensures SpentValid() && spent == old(spent) + {(c, op)}
    {
      assert Unseal(known) == known && SpentMirrored();
      InsertMirrors(watchedOutPoints, spent, c, op);
      c.spentRequests := c.spentRequests + {op};
      if op !in watchedOutPoints {
        watchedOutPoints := watchedOutPoints[op := {}];
      }
      watchedOutPoints := watchedOutPoints[op := watchedOutPoints[op] + {c}];
      assert watchedOutPoints == Insert(old(watchedOutPoints), c, op);
      spent := spent + {(c, op)};
      assert SpentMirrored();
    }

    method RemoveSpentRequest(c: Client, op: OutPoint)
      requires SpentValid() && c in known
      modifies `watchedOutPoints, `spent, known`spentRequests
      ensures SpentValid() && spent == old(spent) - {(c, op)}
    {
      assert Unseal(known) == known && SpentMirrored();
      DeleteMirrors(watchedOutPoints, spent, c, op);
      c.spentRequests := c.spentRequests - {op};
      if op in watchedOutPoints {
        watchedOutPoints := watchedOutPoints[op := watchedOutPoints[op] - {c}];
        if watchedOutPoints[op] == {} {
          watchedOutPoints := watchedOutPoints - {op};
        }
      }
      assert watchedOutPoints == Delete(old(watchedOutPoints), c, op);
      spent := spent - {(c, op)};
      assert SpentMirrored();
    }

    /** The index gives the clients that wait for an outpoint. */
    lemma WatchersOf(op: OutPoint)
      requires SpentValid()
      ensures Watchers(watchedOutPoints, op) == Redeemers(spent, [op]) <= known
    {
      assert Unseal(known) == known && SpentMirrored();
      var w := Watchers(watchedOutPoints, op);
      forall c | c in w
        ensures c in Redeemers(spent, [op])
      {
        assert (c, op) in spent && (c, op).1 in [op];
      }
    }

    method NotifyOnce(notified: set<Client>, c: Client, kind: Kind, tx: Tx, inBlock: bool, ghost before: seq<Notice>)
      returns (more: set<Client>)
      requires Told(before, sent, notified, kind, tx, inBlock)
      modifies `sent
      ensures Told(before, sent, more, kind, tx, inBlock) && more == notified + {c}
    {
      more := notified;
      if c !in notified {
        ToldMore(before, sent, notified, kind, tx, inBlock, c);
        more := notified + {c};
        sent := sent + [Notice(c, kind, tx, inBlock)];
      } else {
        assert more == notified + {c};
      }
    }

    /** The loop over the clients watching one input. */
    method NotifyInput(notified: set<Client>, tx: Tx, op: OutPoint, inBlock: bool, ghost before: seq<Notice>)
      returns (more: set<Client>)
      requires SpentValid() && Told(before, sent, notified, RedeemingTx, tx, inBlock)
      modifies `watchedOutPoints, `spent, `sent, known`spentRequests
      ensures SpentValid() && Told(before, sent, more, RedeemingTx, tx, inBlock)
      ensures more == notified + Redeemers(old(spent), [op])
      ensures spent == if inBlock then Answered(old(spent), [op]) else old(spent)
    {
      more := notified;
      WatchersOf(op);
      var cmap := Watchers(watchedOutPoints, op);
      ghost var done: set<Client> := {};
      NoneWait(spent, op);
      while cmap != {}
        invariant SpentValid() && Told(before, sent, more, RedeemingTx, tx, inBlock)
        invariant done + cmap == Redeemers(old(spent), [op]) <= known && done !! cmap
        invariant more == notified + done
        invariant spent == if inBlock then old(spent) - Waits(done, op) else old(spent)
        decreases cmap
      {
        var c :| c in cmap;
        if inBlock {
          OneMoreWaits(old(spent), done, c, op);
          RemoveSpentRequest(c, op);
        }
        more := NotifyOnce(more, c, RedeemingTx, tx, inBlock, before);
        done, cmap := done + {c}, cmap - {c};
      }
      AllAnswered(old(spent), op);
      assert done == Redeemers(old(spent), [op]);
    }

    /** Tells the clients that wait for an input of the transaction, once each, and when the
        transaction is confirmed drops their requests for its inputs. */
    method NotifyForTxIns(tx: Tx, inBlock: bool)
      requires SpentValid()
      modifies `watchedOutPoints, `spent, `sent, known`spentRequests
      ensures SpentValid()
      ensures Told(old(sent), sent, Redeemers(old(spent), tx.inputs), RedeemingTx, tx, inBlock)
      ensures spent == if inBlock then Answered(old(spent), tx.inputs) else old(spent)
    {
      var notified: set<Client> := {};
      NoInputs(spent);
      ToldNobody(sent, RedeemingTx, tx, inBlock);
      for i := 0 to |tx.inputs|
        invariant SpentValid() && Told(old(sent), sent, notified, RedeemingTx, tx, inBlock)
        invariant notified == Redeemers(old(spent), tx.inputs[..i])
        invariant spent == if inBlock then Answered(old(spent), tx.inputs[..i]) else old(spent)
      {
        OneMoreInput(old(spent), tx.inputs[..i], tx.inputs[i]);
        assert tx.inputs[..i] + [tx.inputs[i]] == tx.inputs[..i + 1];
        notified := NotifyInput(notified, tx, tx.inputs[i], inBlock, old(sent));
      }
      assert tx.inputs[..|tx.inputs|] == tx.inputs;
    }

    /** Watches the outpoints for the client, and tells everyone concerned of the transactions of
        the memory pool that spend them already. */
    method AddSpentRequests(c: Client, ops: seq<OutPoint>, mempool: Mempool)
      requires SpentValid() && c in known && Spends(mempool)
      modifies `watchedOutPoints, `spent, `sent, known`spentRequests
      ensures SpentValid() && spent == old(spent) + WaitsFor(c, ops)
      ensures Adds(old(sent), sent, SpendNotices(spent, SpendsOf(ops, mempool)))
    {
      for i := 0 to |ops|
        invariant SpentValid() && spent == old(spent) + WaitsFor(c, ops[..i]) && sent == old(sent)
      {
        assert WaitsFor(c, ops[..i + 1]) == WaitsFor(c, ops[..i]) + {(c, ops[i])};
        AddSpent(c, ops[i]);
      }
      assert ops[..|ops|] == ops;
      var spends: set<Tx> := {};
      for i := 0 to |ops|
        invariant spends == SpendsOf(ops[..i], mempool)
      {
        var spend := mempool(ops[i]);
        assert ops[..i + 1] == ops[..i] + [ops[i]];
        if spend.Some? {
          spends := spends + {spend.value};
        }
      }
      NotifySpends(spends);
    }

    method NotifySpends(spends: set<Tx>)
      requires SpentValid()
      modifies `watchedOutPoints, `spent, `sent, known`spentRequests
      ensures SpentValid() && spent == old(spent) && Adds(old(sent), sent, SpendNotices(spent, spends))
    {
      var left := spends;
      assert SpendNotices(spent, spends - left) == {};
      while left != {}
        invariant SpentValid() && spent == old(spent) && left <= spends
        invariant Adds(old(sent), sent, SpendNotices(spent, spends - left))
        decreases left
      {
        var tx :| tx in left;
        ghost var was := sent;
        NotifyForTxIns(tx, false);
        OneMoreSpend(old(sent), was, sent, spent, spends - left, tx);
        assert spends - (left - {tx}) == spends - left + {tx};
        left := left - {tx};
      }
      assert spends - left == spends;
    }

    /** The index gives the clients that wait for an address. */
    lemma PayeesOf(addr: Address)
      requires AddrValid()
      ensures Watchers(watchedAddrs, addr) == Payees(paid, [addr]) <= known
    {
      assert Unseal(known) == known && AddrMirrored();
      var w := Watchers(watchedAddrs, addr);
      forall c | c in w
        ensures c in Payees(paid, [addr])
      {
        assert (c, addr) in paid && (c, addr).1 in [addr];
      }
    }

    method NotifyRecvOnce(notified: set<Client>, c: Client, tx: Tx, inBlock: bool, ghost mempool: Mempool,
                          ghost start: seq<Notice>, ghost pairs: Spent)
      returns (more: set<Client>)
      requires Told(Recvs(start), Recvs(sent), notified, RecvTx, tx, inBlock)
      requires Redeemed(start, sent, pairs, spent, mempool)
      modifies `sent
      ensures Told(Recvs(start), Recvs(sent), more, RecvTx, tx, inBlock) && more == notified + {c}
      ensures Redeemed(start, sent, pairs, spent, mempool)
    {
      more := notified;
      if c !in notified {
        ToldMore(Recvs(start), Recvs(sent), notified, RecvTx, tx, inBlock, c);
        RedeemedRecv(start, sent, pairs, spent, mempool, Notice(c, RecvTx, tx, inBlock));
        more := notified + {c};
        RecvsConcat(sent, [Notice(c, RecvTx, tx, inBlock)]);
        assert Recvs([Notice(c, RecvTx, tx, inBlock)]) == [Notice(c, RecvTx, tx, inBlock)];
        sent := sent + [Notice(c, RecvTx, tx, inBlock)];
      } else {
        assert more == notified + {c};
      }
    }

    /** The loop over the clients watching one address of one output. */
    method NotifyAddr(notified: set<Client>, tx: Tx, op: OutPoint, addr: Address, inBlock: bool, mempool: Mempool,
                      ghost start: seq<Notice>, ghost pairs: Spent)
      returns (more: set<Client>)
      requires Valid() && Spends(mempool) && Told(Recvs(start), Recvs(sent), notified, RecvTx, tx, inBlock)
      requires Redeemed(start, sent, pairs, spent, mempool)
      modifies `watchedOutPoints, `spent, `sent, known`spentRequests
      ensures Valid() && Told(Recvs(start), Recvs(sent), more, RecvTx, tx, inBlock)
      ensures more == notified + Payees(paid, [addr])
      ensures spent == old(spent) + Waits(Payees(paid, [addr]), op)
      ensures Redeemed(start, sent, pairs + Waits(Payees(paid, [addr]), op), spent, mempool)
    {
      more := notified;
      PayeesOf(addr);
      var cmap := Watchers(watchedAddrs, addr);
      ghost var done: set<Client> := {};
      assert spent == spent + Waits({}, op) && pairs == pairs + Waits({}, op);
      while cmap != {}
        invariant Valid() && Told(Recvs(start), Recvs(sent), more, RecvTx, tx, inBlock)
        invariant done + cmap == Payees(paid, [addr]) <= known
        invariant more == notified + done
        invariant spent == old(spent) + Waits(done, op)
        invariant Redeemed(start, sent, pairs + Waits(done, op), spent, mempool)
        decreases cmap
      {
        var c :| c in cmap;
        WatchFor(c, op, mempool, start, pairs + Waits(done, op));
        OneMorePayee(old(spent), done, c, op);
        OneMorePayee(pairs, done, c, op);
        more := NotifyRecvOnce(more, c, tx, inBlock, mempool, start, pairs + Waits(done + {c}, op));
        done, cmap := done + {c}, cmap - {c};
      }
      assert done == Payees(paid, [addr]);
    }

    /** Watches one outpoint for one client; no receive notices are sent. */
    method WatchFor(c: Client, op: OutPoint, mempool: Mempool, ghost start: seq<Notice>, ghost pairs: Spent)
      requires SpentValid() && c in known && Spends(mempool) && Redeemed(start, sent, pairs, spent, mempool)
      modifies `watchedOutPoints, `spent, `sent, known`spentRequests
      ensures SpentValid() && spent == old(spent) + WaitsFor(c, [op]) && Recvs(sent) == old(Recvs(sent))
      ensures Redeemed(start, sent, pairs + WaitsFor(c, [op]), spent, mempool)
    {
      AddSpentRequests(c, [op], mempool);
      RecvsKept(old(sent), sent, SpendNotices(spent, SpendsOf([op], mempool)));
      RedeemedSpends(start, old(sent), sent, pairs, old(spent), c, op, mempool);
    }

    /** The loop over the addresses of one output. */
    method NotifyOutput(notified: set<Client>, tx: Tx, i: nat, inBlock: bool, mempool: Mempool,
                        ghost start: seq<Notice>, ghost pairs: Spent)
      returns (more: set<Client>)
      requires Valid() && Spends(mempool) && i < |tx.outputs|
      requires Told(Recvs(start), Recvs(sent), notified, RecvTx, tx, inBlock)
      requires Redeemed(start, sent, pairs, spent, mempool)
      modifies `watchedOutPoints, `spent, `sent, known`spentRequests
      ensures Valid() && Told(Recvs(start), Recvs(sent), more, RecvTx, tx, inBlock)
      ensures more == notified + Payees(paid, tx.outputs[i])
      ensures spent == old(spent) + Waits(Payees(paid, tx.outputs[i]), OutPoint(tx.id, i))
      ensures Redeemed(start, sent, pairs + Waits(Payees(paid, tx.outputs[i]), OutPoint(tx.id, i)), spent, mempool)
    {
      more := notified;
      var addrs, op := tx.outputs[i], OutPoint(tx.id, i);
      NoPayees(paid, spent, op);
      NoPayees(paid, pairs, op);
      for j := 0 to |addrs|
        invariant Valid() && Told(Recvs(start), Recvs(sent), more, RecvTx, tx, inBlock)
        invariant more == notified + Payees(paid, addrs[..j])
        invariant spent == old(spent) + Waits(Payees(paid, addrs[..j]), op)
        invariant Redeemed(start, sent, pairs + Waits(Payees(paid, addrs[..j]), op), spent, mempool)
      {
        MorePayees(paid, addrs[..j], addrs[j], op);
        assert addrs[..j] + [addrs[j]] == addrs[..j + 1];
        ghost var got := pairs + Waits(Payees(paid, addrs[..j]), op);
        more := NotifyAddr(more, tx, op, addrs[j], inBlock, mempool, start, got);
        assert got + Waits(Payees(paid, [addrs[j]]), op) == pairs + Waits(Payees(paid, addrs[..j + 1]), op);
      }
      assert addrs[..|addrs|] == addrs;
    }

    /**
     * Tells the clients that wait for a payment to one of the outputs, once each, and watches the outputs for them.
     * Everything else sent tells of unconfirmed spends of these outputs.
     */
    method NotifyForTxOuts(tx: Tx, inBlock: bool, mempool: Mempool)
      requires Valid() && Spends(mempool)
      modifies `watchedOutPoints, `spent, `sent, known`spentRequests
      ensures Valid()
      ensures Told(Recvs(old(sent)), Recvs(sent), Receivers(paid, tx.outputs), RecvTx, tx, inBlock)
      ensures spent == old(spent) + Receives(paid, tx.id, tx.outputs)
      ensures Redeemed(old(sent), sent, Receives(paid, tx.id, tx.outputs), spent, mempool)
    {
      var notified: set<Client> := {};
      ToldNobody(Recvs(sent), RecvTx, tx, inBlock);
      RedeemedNothing(sent, spent, mempool);
      assert Receivers(paid, []) == {} && Receives(paid, tx.id, []) == {};
      for i := 0 to |tx.outputs|
        invariant Valid() && Told(Recvs(old(sent)), Recvs(sent), notified, RecvTx, tx, inBlock)
        invariant notified == Receivers(paid, tx.outputs[..i])
        invariant spent == old(spent) + Receives(paid, tx.id, tx.outputs[..i])
        invariant Redeemed(old(sent), sent, Receives(paid, tx.id, tx.outputs[..i]), spent, mempool)
      {
        OneMoreOutput(paid, tx.id, tx.outputs[..i], tx.outputs[i]);
        assert tx.outputs[..i] + [tx.outputs[i]] == tx.outputs[..i + 1];
        notified := NotifyOutput(notified, tx, i, inBlock, mempool, old(sent), Receives(paid, tx.id, tx.outputs[..i]));
      }
      assert tx.outputs[..|tx.outputs|] == tx.outputs;
    }

    lemma NobodyWaits()
      requires Valid()
      ensures watchedOutPoints == map[] ==> spent == {}
      ensures watchedAddrs == map[] ==> paid == {}
    {
      assert Unseal(known) == known && SpentMirrored() && AddrMirrored();
    }

    /** One transaction, confirmed or not. */
    method NotifyForTx(tx: Tx, inBlock: bool, mempool: Mempool)
      requires Valid() && Spends(mempool)
      modifies `watchedOutPoints, `spent, `sent, known`spentRequests
      ensures Valid() && spent == RequestsAfterTx(old(spent), paid, tx, inBlock)
      ensures ToldOfTx(old(sent), sent, old(spent), paid, tx, inBlock, mempool)
    {
      NobodyWaits();
      ToldNobody(sent, RedeemingTx, tx, inBlock);
      if watchedOutPoints != map[] {
        NotifyForTxIns(tx, inBlock);
      } else {
        assert Redeemers(spent, tx.inputs) == {};
      }
      ghost var between := sent;
      ToldNobody(Recvs(sent), RecvTx, tx, inBlock);
      RedeemedNothing(sent, spent, mempool);
      if watchedAddrs != map[] {
        NotifyForTxOuts(tx, inBlock, mempool);
      } else {
        NobodyPaid(tx);
      }
      assert spent == RequestsAfterTx(old(spent), paid, tx, inBlock);
      ToldInOrder(old(sent), between, sent, old(spent), paid, tx, inBlock, mempool);
    }

    /** A block joins the main chain: its transactions one after the other.  `marks` is what was sent after each. */
    method BlockConnected(txs: seq<Tx>, mempool: Mempool) returns (ghost marks: seq<seq<Notice>>)
      requires Valid() && Spends(mempool)
      modifies `watchedOutPoints, `spent, `sent, known`spentRequests
      ensures Valid() && spent == RequestsAfterBlock(old(spent), paid, txs)
      ensures ToldOfBlock(marks, old(spent), paid, txs, mempool) && marks[0] == old(sent) && marks[|txs|] == sent
    {
      NobodyWaits();
      marks := [sent];
      if watchedOutPoints != map[] || watchedAddrs != map[] {
        for i := 0 to |txs|
          invariant Valid() && spent == RequestsAfterBlock(old(spent), paid, txs[..i])
          invariant ToldOfBlock(marks, old(spent), paid, txs[..i], mempool)
          invariant marks[0] == old(sent) && marks[i] == sent
        {
          NotifyForTx(txs[i], true, mempool);
          ToldOfOneMore(marks, old(spent), paid, txs[..i], txs[i], mempool, sent);
          assert txs[..i + 1] == txs[..i] + [txs[i]] && txs[..i + 1][..i] == txs[..i];
          marks := marks + [sent];
        }
        assert txs[..|txs|] == txs;
      } else {
        NothingToWatch(txs);
        marks := NobodyTold(sent, txs, mempool);
      }
    }

    // ---------- address requests ----------

    method AddAddr(c: Client, addr: Address)
      requires AddrValid() && c in known
      modifies `watchedAddrs, `paid, known`addrRequests
      ensures AddrValid() && paid == old(paid) + {(c, addr)}
    {
      assert Unseal(known) == known && AddrMirrored();
      InsertMirrors(watchedAddrs, paid, c, addr);
      c.addrRequests := c.addrRequests + {addr};
      if addr !in watchedAddrs {
        watchedAddrs := watchedAddrs[addr := {}];
      }
      watchedAddrs := watchedAddrs[addr := watchedAddrs[addr] + {c}];
      assert watchedAddrs == Insert(old(watchedAddrs), c, addr);
      paid := paid + {(c, addr)};
      assert AddrMirrored();
    }

    method AddAddrRequests(c: Client, addrs: seq<Address>)
      requires AddrValid() && c in known
      modifies `watchedAddrs, `paid, known`addrRequests
      ensures AddrValid() && paid == old(paid) + PaidTo(c, addrs)
    {
      for i := 0 to |addrs|
        invariant AddrValid() && paid == old(paid) + PaidTo(c, addrs[..i])
      {
        assert PaidTo(c, addrs[..i + 1]) == PaidTo(c, addrs[..i]) + {(c, addrs[i])};
        AddAddr(c, addrs[i]);
      }
      assert addrs[..|addrs|] == addrs;
    }

    method RemoveAddrRequest(c: Client, addr: Address)
      requires AddrValid() && c in known
      modifies `watchedAddrs, `paid, known`addrRequests
      ensures AddrValid() && paid == old(paid) - {(c, addr)}
    {
      assert Unseal(known) == known && AddrMirrored();
      DeleteMirrors(watchedAddrs, paid, c, addr);
      c.addrRequests := c.addrRequests - {addr};
      if addr in watchedAddrs {
        watchedAddrs := watchedAddrs[addr := watchedAddrs[addr] - {c}];
        if watchedAddrs[addr] == {} {
          watchedAddrs := watchedAddrs - {addr};
        }
      }
      assert watchedAddrs == Delete(old(watchedAddrs), c, addr);
      paid := paid - {(c, addr)};
      assert AddrMirrored();
    }

    // ---------- clients ----------

    method RegisterClient(c: Client)
      requires Valid() && c in known
      modifies `clients
      ensures Valid() && clients == old(clients) + {c}
    {
      clients := clients + {c};
    }

    /** A client that goes leaves no trace. */
    method UnregisterClient(c: Client)
      requires Valid() && c in known
      modifies `clients, `watchedOutPoints, `watchedAddrs, `spent, `paid, known`spentRequests, known`addrRequests
      ensures Valid() && clients == old(clients) - {c}
      ensures spent == (set p | p in old(spent) && p.0 != c) && paid == (set p | p in old(paid) && p.0 != c)
      ensures c.spentRequests == {} && c.addrRequests == {}
      ensures forall op :: c !in Watchers(watchedOutPoints, op)
      ensures forall addr :: c !in Watchers(watchedAddrs, addr)
    {
      RemoveAllSpent(c);
      RemoveAllAddrs(c);
      clients := clients - {c};
      assert Unseal(known) == known && SpentMirrored() && AddrMirrored();
    }

    /** A client is found under an outpoint or address exactly if it has it among its requests, and nothing is kept
        that nobody waits for. */
    lemma WatchedIffRequested(c: Client)
      requires Valid() && c in known
      ensures forall op :: op in c.spentRequests <==> op in watchedOutPoints && c in watchedOutPoints[op]
      ensures forall addr :: addr in c.addrRequests <==> addr in watchedAddrs && c in watchedAddrs[addr]
      ensures forall op :: op in watchedOutPoints ==> watchedOutPoints[op] != {} && watchedOutPoints[op] <= known
      ensures forall addr :: addr in watchedAddrs ==> watchedAddrs[addr] != {} && watchedAddrs[addr] <= known
    {
      assert Unseal(known) == known && SpentMirrored() && AddrMirrored();
    }

    method RemoveAllSpent(c: Client)
      requires SpentValid() && c in known
      modifies `watchedOutPoints, `spent, known`spentRequests
      ensures SpentValid() && spent == (set p | p in old(spent) && p.0 != c)
    {
      OwnSpent(c);
      var ops := c.spentRequests;
      assert spent == (set p | p in spent && (p.0 != c || p.1 in ops));
      while ops != {}
        invariant SpentValid() && c in known
        invariant spent == set p | p in old(spent) && (p.0 != c || p.1 in ops)
        decreases ops
      {
        var op :| op in ops;
        RemoveSpentRequest(c, op);
        ops := ops - {op};
      }
    }

    method RemoveAllAddrs(c: Client)
      requires AddrValid() && c in known
      modifies `watchedAddrs, `paid, known`addrRequests
      ensures AddrValid() && paid == (set p | p in old(paid) && p.0 != c)
    {
      OwnPaid(c);
      var addrs := c.addrRequests;
      assert paid == (set p | p in paid && (p.0 != c || p.1 in addrs));
      while addrs != {}
        invariant AddrValid() && c in known
        invariant paid == set p | p in old(paid) && (p.0 != c || p.1 in addrs)
        decreases addrs
      {
        var addr :| addr in addrs;
        RemoveAddrRequest(c, addr);
        addrs := addrs - {addr};
      }
    }

    lemma OwnSpent(c: Client)
      requires SpentValid() && c in known
      ensures forall p :: p in spent && p.0 == c ==> p.1 in c.spentRequests
    {
      assert Unseal(known) == known && SpentMirrored();
    }

    lemma OwnPaid(c: Client)
      requires AddrValid() && c in known
      ensures forall p :: p in paid && p.0 == c ==> p.1 in c.addrRequests
    {
      assert Unseal(known) == known && AddrMirrored();
    }
  }

  lemma NobodyPaid(tx: Tx)
    ensures Receivers({}, tx.outputs) == {} && Receives({}, tx.id, tx.outputs) == {}
  {
  }

  lemma {:induction false} NothingToWatch(txs: seq<Tx>)
    ensures RequestsAfterBlock({}, {}, txs) == {}
  {
    if txs != [] {
      NothingToWatch(txs[..|txs| - 1]);
      NobodyPaid(txs[|txs| - 1]);
    }
  }

  // ---------- set algebra of the loops ----------

  lemma NoneWait(spent: Spent, op: OutPoint)
    ensures spent - Waits({}, op) == spent
  {
  }

  lemma OneMoreWaits(spent: Spent, done: set<Client>, c: Client, op: OutPoint)
    ensures spent - Waits(done, op) - {(c, op)} == spent - Waits(done + {c}, op)
  {
    assert Waits(done + {c}, op) == Waits(done, op) + {(c, op)};
  }

  lemma AllAnswered(spent: Spent, op: OutPoint)
    ensures spent - Waits(Redeemers(spent, [op]), op) == Answered(spent, [op])
  {
    forall p | p in spent
      ensures p in Waits(Redeemers(spent, [op]), op) <==> p.1 in [op]
    {
      assert p == (p.0, p.1);
      if p.1 in [op] {
        assert p.0 in Redeemers(spent, [op]);
      }
    }
  }

  ghost function PaidTo(c: Client, addrs: seq<Address>): Paid
  {
    set addr | addr in addrs :: (c, addr)
  }

  ghost function WaitsFor(c: Client, ops: seq<OutPoint>): Spent
  {
    set op | op in ops :: (c, op)
  }

  lemma ToldNobody(sent: seq<Notice>, kind: Kind, tx: Tx, inBlock: bool)
    ensures Told(sent, sent, {}, kind, tx, inBlock)
  {
    ToldIsEachOnce(sent, sent, {}, kind, tx, inBlock);
  }

  lemma NoInputs(spent: Spent)
    ensures Redeemers(spent, []) == {} && Answered(spent, []) == spent
  {
  }

  /** One more input, whether its requests were already answered by the ones before or not. */
  lemma OneMoreInput(spent: Spent, inputs: seq<OutPoint>, op: OutPoint)
    ensures Answered(Answered(spent, inputs), [op]) == Answered(spent, inputs + [op])
    ensures Redeemers(spent, inputs) + Redeemers(Answered(spent, inputs), [op]) == Redeemers(spent, inputs + [op])
    ensures Redeemers(spent, inputs) + Redeemers(spent, [op]) == Redeemers(spent, inputs + [op])
  {
    var all := Redeemers(spent, inputs + [op]);
    forall c | c in all
      ensures c in Redeemers(spent, inputs) + Redeemers(Answered(spent, inputs), [op])
    {
      var p :| p in spent && p.1 in inputs + [op] && p.0 == c;
      if p.1 !in inputs {
        assert p in Answered(spent, inputs) && p.1 in [op];
      }
    }
    forall p | p in spent && p.1 in [op]
      ensures p.0 in all
    {
      assert p.1 in inputs + [op];
    }
  }

  // ---------- spends in the memory pool ----------

  ghost function SpendsOf(ops: seq<OutPoint>, mempool: Mempool): set<Tx>
  {
    set op | op in ops && mempool(op).Some? :: mempool(op).value
  }

  /** Everyone waiting for an input of one of the transactions, told of it as unconfirmed. */
  ghost function SpendNotices(spent: Spent, txs: set<Tx>): set<Notice>
  {
    set tx, c | tx in txs && c in Redeemers(spent, tx.inputs) :: Notice(c, RedeemingTx, tx, false)
  }

  lemma OneMoreSpend(before: seq<Notice>, between: seq<Notice>, after: seq<Notice>, spent: Spent, txs: set<Tx>, tx: Tx)
    requires Adds(before, between, SpendNotices(spent, txs)) && tx !in txs
    requires Told(between, after, Redeemers(spent, tx.inputs), RedeemingTx, tx, false)
    ensures Adds(before, after, SpendNotices(spent, txs + {tx}))
  {
    ToldIsEachOnce(between, after, Redeemers(spent, tx.inputs), RedeemingTx, tx, false);
    var more := Same(Redeemers(spent, tx.inputs), RedeemingTx, tx, false);
    assert SpendNotices(spent, txs + {tx}) == SpendNotices(spent, txs) + more;
    AddsMore(before, between, after, SpendNotices(spent, txs), more);
  }

  /**
   * What is sent about spends in the memory pool while the pairs of clients and outpoints become watched: only of
   * unconfirmed spends of those outpoints and to clients waiting for an input of them, and to each client of a pair.
   */
  ghost predicate AboutSpends(notices: seq<Notice>, pairs: Spent, spent: Spent, mempool: Mempool)
  {
    && (forall n :: n in notices && n.kind == RedeemingTx ==>
          !n.inBlock && n.to in Redeemers(spent, n.tx.inputs) && exists p :: p in pairs && mempool(p.1) == Some(n.tx))
    && (forall p :: p in pairs && mempool(p.1).Some? ==>
          Notice(p.0, RedeemingTx, mempool(p.1).value, false) in notices)
  }

  /** AboutSpends for what was sent since `start`, out of sight until what was sent is unsealed. */
  ghost predicate Redeemed(start: seq<Notice>, sent: seq<Notice>, pairs: Spent, spent: Spent, mempool: Mempool)
  {
    forall t {:trigger Unseal(t)} :: t == sent ==> start <= t && AboutSpends(t[|start|..], pairs, spent, mempool)
  }

  lemma RedeemedIs(start: seq<Notice>, sent: seq<Notice>, pairs: Spent, spent: Spent, mempool: Mempool)
    ensures Redeemed(start, sent, pairs, spent, mempool)
            <==> start <= sent && AboutSpends(sent[|start|..], pairs, spent, mempool)
  {
    assert Unseal(sent) == sent;
  }

  lemma RedeemedNothing(sent: seq<Notice>, spent: Spent, mempool: Mempool)
    ensures Redeemed(sent, sent, {}, spent, mempool)
  {
    RedeemedIs(sent, sent, {}, spent, mempool);
  }

  lemma RedeemedRecv(start: seq<Notice>, sent: seq<Notice>, pairs: Spent, spent: Spent, mempool: Mempool, n: Notice)
    requires Redeemed(start, sent, pairs, spent, mempool) && n.kind == RecvTx
    ensures Redeemed(start, sent + [n], pairs, spent, mempool)
  {
    RedeemedIs(start, sent, pairs, spent, mempool);
    RedeemedIs(start, sent + [n], pairs, spent, mempool);
    assert (sent + [n])[|start|..] == sent[|start|..] + [n];
  }

  lemma RedeemedSpends(start: seq<Notice>, before: seq<Notice>, after: seq<Notice>, pairs: Spent, spent: Spent,
                       c: Client, op: OutPoint, mempool: Mempool)
    requires Redeemed(start, before, pairs, spent, mempool) && Spends(mempool)
    requires Adds(before, after, SpendNotices(spent + WaitsFor(c, [op]), SpendsOf([op], mempool)))
    ensures Redeemed(start, after, pairs + WaitsFor(c, [op]), spent + WaitsFor(c, [op]), mempool)
  {
    RedeemedIs(start, before, pairs, spent, mempool);
    RedeemedIs(start, after, pairs + WaitsFor(c, [op]), spent + WaitsFor(c, [op]), mempool);
    assert after[|start|..] == before[|start|..] + after[|before|..];
    MoreAboutSpends(before[|start|..], after[|before|..], pairs, spent, c, op, mempool);
  }

  lemma MoreAboutSpends(some: seq<Notice>, more: seq<Notice>, pairs: Spent, spent: Spent, c: Client, op: OutPoint,
                        mempool: Mempool)
    requires AboutSpends(some, pairs, spent, mempool) && Spends(mempool)
    requires multiset(more) == multiset(SpendNotices(spent + WaitsFor(c, [op]), SpendsOf([op], mempool)))
    ensures AboutSpends(some + more, pairs + WaitsFor(c, [op]), spent + WaitsFor(c, [op]), mempool)
  {
    var waits := WaitsFor(c, [op]);
    forall n | n in some + more && n.kind == RedeemingTx
      ensures !n.inBlock && n.to in Redeemers(spent + waits, n.tx.inputs)
      ensures exists p :: p in pairs + waits && mempool(p.1) == Some(n.tx)
    {
      if n in some {
        RedeemersGrow(spent, waits, n.tx.inputs);
        var p :| p in pairs && mempool(p.1) == Some(n.tx);
        assert p in pairs + waits;
      } else {
        ToldOfSpend(more, spent + waits, op, mempool, n);
        assert (c, op) in waits && (c, op) in pairs + waits && mempool((c, op).1) == Some(n.tx);
      }
    }
    forall p | p in pairs + waits && mempool(p.1).Some?
      ensures Notice(p.0, RedeemingTx, mempool(p.1).value, false) in some + more
    {
      if p !in pairs {
        assert p == (c, op) && p in spent + waits;
        ToldOfSpend(more, spent + waits, op, mempool, Notice(c, RedeemingTx, mempool(op).value, false));
      }
    }
  }

  /** Of the notices about an outpoint: they are about its spend, and go to all that wait for it. */
  lemma ToldOfSpend(notices: seq<Notice>, spent: Spent, op: OutPoint, mempool: Mempool, n: Notice)
    requires multiset(notices) == multiset(SpendNotices(spent, SpendsOf([op], mempool))) && Spends(mempool)
    ensures n in notices ==>
              n.kind == RedeemingTx && !n.inBlock && mempool(op) == Some(n.tx) && n.to in Redeemers(spent, n.tx.inputs)
    ensures mempool(op).Some? && (n.to, op) in spent && n == Notice(n.to, RedeemingTx, mempool(op).value, false) ==>
              n in notices
  {
    var told := SpendNotices(spent, SpendsOf([op], mempool));
    assert n in notices <==> n in multiset(notices);
    assert n in multiset(told) <==> n in told;
    if mempool(op).Some? && (n.to, op) in spent {
      assert op in [op] && op in mempool(op).value.inputs && (n.to, op).1 in mempool(op).value.inputs;
      assert n.to in Redeemers(spent, mempool(op).value.inputs);
    }
  }

  lemma RedeemersGrow(spent: Spent, more: Spent, inputs: seq<OutPoint>)
    ensures Redeemers(spent, inputs) <= Redeemers(spent + more, inputs)
  {
    forall p | p in spent && p.1 in inputs
      ensures p.0 in Redeemers(spent + more, inputs)
    {
      assert p in spent + more;
    }
  }

  /** What one transaction makes the manager send: first about its inputs, then about its outputs. */
  ghost predicate InOrder(before: seq<Notice>, between: seq<Notice>, after: seq<Notice>, spent: Spent, paid: Paid,
                          tx: Tx, inBlock: bool, mempool: Mempool)
  {
    && Told(before, between, Redeemers(spent, tx.inputs), RedeemingTx, tx, inBlock)
    && Told(Recvs(between), Recvs(after), Receivers(paid, tx.outputs), RecvTx, tx, inBlock)
    && Redeemed(between, after, Receives(paid, tx.id, tx.outputs), RequestsAfterTx(spent, paid, tx, inBlock), mempool)
  }

  ghost predicate ToldOfTx(before: seq<Notice>, after: seq<Notice>, spent: Spent, paid: Paid, tx: Tx, inBlock: bool,
                           mempool: Mempool)
  {
    exists k: nat :: k <= |after| && InOrder(before, after[..k], after, spent, paid, tx, inBlock, mempool)
  }

  lemma ToldInOrder(before: seq<Notice>, between: seq<Notice>, after: seq<Notice>, spent: Spent, paid: Paid, tx: Tx,
                    inBlock: bool, mempool: Mempool)
    requires InOrder(before, between, after, spent, paid, tx, inBlock, mempool)
    ensures ToldOfTx(before, after, spent, paid, tx, inBlock, mempool)
  {
    RedeemedIs(between, after, Receives(paid, tx.id, tx.outputs), RequestsAfterTx(spent, paid, tx, inBlock), mempool);
    assert between == after[..|between|];
  }

  ghost predicate ToldOfBlock(marks: seq<seq<Notice>>, spent: Spent, paid: Paid, txs: seq<Tx>, mempool: Mempool)
  {
    && |marks| == |txs| + 1
    && forall i :: 0 <= i < |txs| ==>
         ToldOfTx(marks[i], marks[i + 1], RequestsAfterBlock(spent, paid, txs[..i]), paid, txs[i], true, mempool)
  }

  lemma ToldOfOneMore(marks: seq<seq<Notice>>, spent: Spent, paid: Paid, txs: seq<Tx>, tx: Tx, mempool: Mempool,
                      sent: seq<Notice>)
    requires ToldOfBlock(marks, spent, paid, txs, mempool)
    requires ToldOfTx(marks[|txs|], sent, RequestsAfterBlock(spent, paid, txs), paid, tx, true, mempool)
    ensures ToldOfBlock(marks + [sent], spent, paid, txs + [tx], mempool)
  {
    assert (txs + [tx])[..|txs|] == txs;
    assert forall i :: 0 <= i < |txs| ==> (txs + [tx])[..i] == txs[..i];
  }

  lemma {:induction false} NobodyTold(sent: seq<Notice>, txs: seq<Tx>, mempool: Mempool)
    returns (marks: seq<seq<Notice>>)
    ensures ToldOfBlock(marks, {}, {}, txs, mempool) && marks[0] == marks[|txs|] == sent
  {
    if txs == [] {
      marks := [sent];
    } else {
      var front, tx := txs[..|txs| - 1], txs[|txs| - 1];
      marks := NobodyTold(sent, front, mempool);
      NothingToWatch(front);
      NobodyToldOfTx(sent, tx, mempool);
      ToldOfOneMore(marks, {}, {}, front, tx, mempool, sent);
      marks := marks + [sent];
      assert front + [tx] == txs;
    }
  }

  lemma NobodyToldOfTx(sent: seq<Notice>, tx: Tx, mempool: Mempool)
    ensures ToldOfTx(sent, sent, {}, {}, tx, true, mempool)
  {
    ToldNobody(sent, RedeemingTx, tx, true);
    ToldNobody(Recvs(sent), RecvTx, tx, true);
    NobodyPaid(tx);
    RedeemedNothing(sent, RequestsAfterTx({}, {}, tx, true), mempool);
    assert Redeemers({}, tx.inputs) == {};
    ToldInOrder(sent, sent, sent, {}, {}, tx, true, mempool);
  }

  // ---------- receive notices ----------

  function Recvs(notices: seq<Notice>): seq<Notice>
  {
    if notices == [] then []
    else (if notices[0].kind == RecvTx then [notices[0]] else []) + Recvs(notices[1..])
  }

  lemma {:induction false} RecvsConcat(a: seq<Notice>, b: seq<Notice>)
    ensures Recvs(a + b) == Recvs(a) + Recvs(b)
  {
    if a == [] {
      assert a + b == b;
    } else {
      RecvsConcat(a[1..], b);
      assert (a + b)[0] == a[0] && (a + b)[1..] == a[1..] + b;
      var head := if a[0].kind == RecvTx then [a[0]] else [];
      Assoc(head, Recvs(a[1..]), Recvs(b));
      assert Recvs(a) == head + Recvs(a[1..]);
    }
  }

  lemma {:induction false} NoRecvs(notices: seq<Notice>)
    requires forall n :: n in notices ==> n.kind == RedeemingTx
    ensures Recvs(notices) == []
  {
    if notices != [] {
      NoRecvs(notices[1..]);
    }
  }

  lemma RecvsKept(before: seq<Notice>, after: seq<Notice>, notices: set<Notice>)
    requires Adds(before, after, notices) && forall n :: n in notices ==> n.kind == RedeemingTx
    ensures Recvs(after) == Recvs(before)
  {
    assert forall n :: n in after[|before|..] ==> n in multiset(after[|before|..]);
    NoRecvs(after[|before|..]);
    RecvsConcat(before, after[|before|..]);
    assert after == before + after[|before|..];
  }

  lemma OneMorePayee(spent: Spent, done: set<Client>, c: Client, op: OutPoint)
    ensures spent + Waits(done, op) + WaitsFor(c, [op]) == spent + Waits(done + {c}, op)
  {
    assert WaitsFor(c, [op]) == {(c, op)};
    assert Waits(done + {c}, op) == Waits(done, op) + {(c, op)};
  }

  lemma NoPayees(paid: Paid, spent: Spent, op: OutPoint)
    ensures Payees(paid, []) == {} && spent + Waits(Payees(paid, []), op) == spent
  {
  }

  lemma MorePayees(paid: Paid, addrs: seq<Address>, addr: Address, op: OutPoint)
    ensures Payees(paid, addrs + [addr]) == Payees(paid, addrs) + Payees(paid, [addr])
    ensures Waits(Payees(paid, addrs + [addr]), op) == Waits(Payees(paid, addrs), op) + Waits(Payees(paid, [addr]), op)
  {
    forall p | p in paid && (p.1 in addrs || p.1 in [addr])
      ensures p.0 in Payees(paid, addrs + [addr])
    {
      assert p.1 in addrs + [addr];
    }
    assert Payees(paid, addrs + [addr]) == Payees(paid, addrs) + Payees(paid, [addr]);
  }

  lemma OneMoreOutput(paid: Paid, id: nat, outputs: seq<seq<Address>>, addrs: seq<Address>)
    ensures Receivers(paid, outputs + [addrs]) == Receivers(paid, outputs) + Payees(paid, addrs)
    ensures Receives(paid, id, outputs + [addrs])
         == Receives(paid, id, outputs) + Waits(Payees(paid, addrs), OutPoint(id, |outputs|))
  {
    var longer := outputs + [addrs];
    assert longer[|outputs|] == addrs && longer[..|outputs|] == outputs;
    forall i | 0 <= i < |outputs|
      ensures longer[i] == outputs[i]
    {
    }
  }

  // ---------- whole runs ----------

  /** What reaches the notification handler. */
  datatype Message =
    | RegisterSpent(client: Client, ops: seq<OutPoint>, mempool: Mempool)
    | UnregisterSpent(client: Client, op: OutPoint)
    | RegisterAddr(client: Client, addrs: seq<Address>)
    | UnregisterAddr(client: Client, addr: Address)
    | Join(client: Client)
    | Leave(client: Client)
    | Block(txs: seq<Tx>, mempool: Mempool)
    | MempoolTx(tx: Tx, mempool: Mempool)

  /** What the memory pool names as the spend of an outpoint does spend it. */
  ghost predicate SaneMempool(m: Message)
  {
    (m.RegisterSpent? || m.Block? || m.MempoolTx?) ==> Spends(m.mempool)
  }

  predicate FromClient(m: Message)
  {
    !m.Block? && !m.MempoolTx?
  }

  datatype Requests = Requests(clients: set<Client>, spent: Spent, paid: Paid)

  /** What a message means for the requests. */
  ghost function Apply(r: Requests, m: Message): Requests
  {
    match m
    case RegisterSpent(c, ops, _) => r.(spent := r.spent + WaitsFor(c, ops))
    case UnregisterSpent(c, op) => r.(spent := r.spent - {(c, op)})
    case RegisterAddr(c, addrs) => r.(paid := r.paid + PaidTo(c, addrs))
    case UnregisterAddr(c, addr) => r.(paid := r.paid - {(c, addr)})
    case Join(c) => r.(clients := r.clients + {c})
    case Leave(c) =>
      Requests(r.clients - {c}, (set p | p in r.spent && p.0 != c), (set p | p in r.paid && p.0 != c))
    case Block(txs, _) => r.(spent := RequestsAfterBlock(r.spent, r.paid, txs))
    case MempoolTx(tx, _) => r.(spent := RequestsAfterTx(r.spent, r.paid, tx, false))
  }

  ghost function After(r: Requests, messages: seq<Message>): Requests
    decreases |messages|
  {
    if messages == [] then r else Apply(After(r, messages[..|messages| - 1]), messages[|messages| - 1])
  }

  /** What handling a message sends; `marks` are the notices sent before it and after it or, for a block, after each
      of its transactions. */
  ghost predicate Sends(r: Requests, m: Message, marks: seq<seq<Notice>>)
  {
    match m
    case Block(txs, mempool) => ToldOfBlock(marks, r.spent, r.paid, txs, mempool)
    case MempoolTx(tx, mempool) =>
      |marks| == 2 && ToldOfTx(marks[0], marks[1], r.spent, r.paid, tx, false, mempool)
    case RegisterSpent(c, ops, mempool) =>
      |marks| == 2 && Adds(marks[0], marks[1], SpendNotices(r.spent + WaitsFor(c, ops), SpendsOf(ops, mempool)))
    case _ => |marks| == 2 && marks[0] == marks[1]
  }

  ghost predicate SealedSends(r: Requests, m: Message, marks: seq<seq<Notice>>)
  {
    forall t {:trigger Unseal(t)} :: t == marks ==> Sends(r, m, t)
  }

  lemma SealedIsSends(r: Requests, m: Message, marks: seq<seq<Notice>>)
    ensures SealedSends(r, m, marks) <==> Sends(r, m, marks)
  {
    assert Unseal(marks) == marks;
  }

  /** Each message in its turn, starting from the notices sent before it. */
  ghost predicate Log(r: Requests, messages: seq<Message>, log: seq<seq<seq<Notice>>>, sent: seq<Notice>)
    decreases |messages|
  {
    && |log| == |messages|
    && (messages != [] ==>
          var k := |messages| - 1;
          && Log(r, messages[..k], log[..k], sent)
          && log[k] != [] && log[k][0] == SentBy(log[..k], sent)
          && SealedSends(After(r, messages[..k]), messages[k], log[k]))
  }

  ghost function SentBy(log: seq<seq<seq<Notice>>>, sent: seq<Notice>): seq<Notice>
  {
    if log == [] || log[|log| - 1] == [] then sent else log[|log| - 1][|log[|log| - 1]| - 1]
  }

  lemma LogMore(r: Requests, messages: seq<Message>, log: seq<seq<seq<Notice>>>, sent: seq<Notice>, m: Message,
                marks: seq<seq<Notice>>)
    requires Log(r, messages, log, sent) && SealedSends(After(r, messages), m, marks)
    requires marks != [] && marks[0] == SentBy(log, sent)
    ensures Log(r, messages + [m], log + [marks], sent)
  {
    assert (messages + [m])[..|log|] == messages && (log + [marks])[..|log|] == log;
  }

  /**
   * The handler, over any messages: the two directions of both indexes agree throughout and hold what the messages
   * mean, and each message sends what it should.
   */
  method Run(m: NotificationManager, messages: seq<Message>) returns (ghost log: seq<seq<seq<Notice>>>)
    requires m.Valid() && forall x :: x in messages ==> SaneMempool(x)
    requires forall x :: x in messages && FromClient(x) ==> x.client in m.known
    modifies m, m.known
    ensures m.Valid() && m.known == old(m.known)
    ensures m.Now() == After(old(m.Now()), messages)
    ensures Log(old(m.Now()), messages, log, old(m.sent)) && m.sent == SentBy(log, old(m.sent))
  {
    log := [];
    for i := 0 to |messages|
      invariant m.Valid() && m.known == old(m.known)
      invariant m.Now() == After(old(m.Now()), messages[..i])
      invariant Log(old(m.Now()), messages[..i], log, old(m.sent)) && m.sent == SentBy(log, old(m.sent))
    {
      ghost var marks := Handle(m, messages[i]);
      LogMore(old(m.Now()), messages[..i], log, old(m.sent), messages[i], marks);
      assert messages[..i + 1] == messages[..i] + [messages[i]] && messages[..i + 1][..i] == messages[..i];
      log := log + [marks];
    }
    assert messages[..|messages|] == messages;
  }

  method Handle(m: NotificationManager, x: Message) returns (ghost marks: seq<seq<Notice>>)
    requires m.Valid() && SaneMempool(x) && (FromClient(x) ==> x.client in m.known)
    modifies m, m.known
    ensures m.Valid() && m.known == old(m.known)
    ensures m.Now() == Apply(old(m.Now()), x)
    ensures marks != [] && marks[0] == old(m.sent) && marks[|marks| - 1] == m.sent
    ensures SealedSends(old(m.Now()), x, marks)
  {
    match x {
      case RegisterSpent(c, ops, mempool) => m.AddSpentRequests(c, ops, mempool);
      case UnregisterSpent(c, op) => m.RemoveSpentRequest(c, op);
      case RegisterAddr(c, addrs) => m.AddAddrRequests(c, addrs);
      case UnregisterAddr(c, addr) => m.RemoveAddrRequest(c, addr);
      case Join(c) => m.RegisterClient(c);
      case Leave(c) => m.UnregisterClient(c);
      case Block(txs, mempool) =>
        marks := m.BlockConnected(txs, mempool);
        SealedIsSends(old(m.Now()), x, marks);
        return;
      case MempoolTx(tx, mempool) => m.NotifyForTx(tx, false, mempool);
    }
    marks := [old(m.sent), m.sent];
    SealedIsSends(old(m.Now()), x, marks);
  }

  ghost predicate NoTrace(r: Requests, c: Client)
  {
    c !in r.clients && (forall p :: p in r.spent ==> p.0 != c) && (forall p :: p in r.paid ==> p.0 != c)
  }

  lemma NoTraceTx(r: Requests, tx: Tx, inBlock: bool, c: Client)
    requires NoTrace(r, c)
    ensures NoTrace(r.(spent := RequestsAfterTx(r.spent, r.paid, tx, inBlock)), c)
  {
  }

  lemma {:induction false} NoTraceBlock(r: Requests, txs: seq<Tx>, c: Client)
    requires NoTrace(r, c)
    ensures NoTrace(r.(spent := RequestsAfterBlock(r.spent, r.paid, txs)), c)
    decreases |txs|
  {
    if txs != [] {
      var before := txs[..|txs| - 1];
      NoTraceBlock(r, before, c);
      NoTraceTx(r.(spent := RequestsAfterBlock(r.spent, r.paid, before)), txs[|txs| - 1], true, c);
    }
  }

  /** A client that has left and sends nothing more is never watched for again, whatever is received. */
  lemma {:induction false} GoneForGood(r: Requests, before: seq<Message>, after: seq<Message>, c: Client)
    requires forall m :: m in after && FromClient(m) ==> m.client != c
    ensures NoTrace(After(r, before + [Leave(c)] + after), c)
    decreases |after|
  {
    var all := before + [Leave(c)] + after;
    if after == [] {
      assert all[..|all| - 1] == before && all[|all| - 1] == Leave(c);
    } else {
      var earlier, last := after[..|after| - 1], after[|after| - 1];
      GoneForGood(r, before, earlier, c);
      assert all[..|all| - 1] == before + [Leave(c)] + earlier && all[|all| - 1] == last;
      var s := After(r, before + [Leave(c)] + earlier);
      match last
      case Block(txs, _) => NoTraceBlock(s, txs, c);
      case MempoolTx(tx, _) => NoTraceTx(s, tx, false, c);
      case _ => assert last in after;
    }
  }
}
