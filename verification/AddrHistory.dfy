/** What an address records after any run, told by the calls made since it was indexed. */
module AddrHistories {
  import opened Basics
  import opened AddrBook
  import opened AddrManagers

  /** The states between the calls of a run from a fresh manager. */
  ghost predicate Traced(ops: seq<Op>, states: seq<State>)
  {
    && |states| == |ops| + 1 && states[0] == State(Empty(), map[])
    && forall i :: 0 <= i < |ops| ==> SealedFollows(states[i], ops[i], states[i + 1])
  }

  lemma StepOf(ops: seq<Op>, states: seq<State>, i: nat)
    requires Traced(ops, states) && i < |ops|
    ensures Follows(states[i], ops[i], states[i + 1])
  {
    assert SealedFollows(states[i], ops[i], states[i + 1]) && Unseal(states[i + 1]) == states[i + 1];
  }

  /** The runs of a manager are traces. */
  method TracedRun(ops: seq<Op>) returns (a: AddrManager, ghost states: seq<State>)
    ensures Traced(ops, states) && a.Valid() && states[|ops|] == a.Snapshot()
  {
    a, states := Calls(ops);
  }

  /** Call j indexed k, and k has been known ever since, up to after call n - 1. */
  ghost predicate KnownSince(states: seq<State>, k: Key, j: nat, n: nat)
  {
    j < n < |states| && k !in states[j].records && forall m :: j < m <= n ==> k in states[m].records
  }

  // ---------- the calls that concern an address ----------

  predicate Hears(op: Op, k: Key)
  {
    op.Add? && op.routable && op.na.key == k
  }

  predicate Connects(op: Op, k: Key)
  {
    op.MarkConnected? && op.key == k
  }

  predicate Serves(op: Op, k: Key)
  {
    op.MarkServices? && op.key == k
  }

  predicate Succeeds(op: Op, k: Key)
  {
    op.MarkGood? && op.key == k
  }

  predicate Tries(op: Op, k: Key)
  {
    op.MarkAttempt? && op.key == k
  }

  /** An attempt, successful or not. */
  predicate Contacts(op: Op, k: Key)
  {
    Tries(op, k) || Succeeds(op, k)
  }

  ghost predicate Changes(r: Record, op: Op, q: Record, k: Key)
  {
    && q.srcAddr == r.srcAddr
    && q.timestamp == (if Hears(op, k) && op.na.timestamp > r.timestamp then op.na.timestamp
                       else if Connects(op, k) && op.now > r.timestamp + 1200 then op.now else r.timestamp)
    && q.services == (if Hears(op, k) then r.services + op.na.services
                      else if Serves(op, k) then op.services else r.services)
    && q.attempts == (if Succeeds(op, k) then 0 else if Tries(op, k) then r.attempts + 1 else r.attempts)
    && q.lastattempt == (if Contacts(op, k) then op.now else r.lastattempt)
    && q.lastsuccess == (if Succeeds(op, k) then op.now else r.lastsuccess)
  }

  lemma RecordStep(was: State, op: Op, now: State, k: Key)
    requires Follows(was, op, now) && k in was.records && k in now.records
    ensures Changes(was.records[k], op, now.records[k], k)
  {
    if op.Add? {
      var gone :| Added(was, op, gone, now);
    }
  }

  lemma RecordAt(ops: seq<Op>, states: seq<State>, k: Key, i: nat)
    requires Traced(ops, states) && i < |ops| && k in states[i].records && k in states[i + 1].records
    ensures Changes(states[i].records[k], ops[i], states[i + 1].records[k], k)
  {
    StepOf(ops, states, i);
    RecordStep(states[i], ops[i], states[i + 1], k);
  }

  /** An address is indexed only by being heard of, with what was heard. */
  lemma Indexes(was: State, op: Op, now: State, k: Key)
    requires Follows(was, op, now) && k !in was.records && k in now.records
    ensures Hears(op, k) && now.records[k] == Record(op.na.timestamp, op.na.services, op.srcAddr, 0, 0, 0)
  {
    if op.Add? {
      var gone :| Added(was, op, gone, now);
    }
  }

  lemma IndexedAt(ops: seq<Op>, states: seq<State>, k: Key, i: nat)
    requires Traced(ops, states) && i < |ops| && k !in states[i].records && k in states[i + 1].records
    ensures Hears(ops[i], k)
    ensures states[i + 1].records[k] == Record(ops[i].na.timestamp, ops[i].na.services, ops[i].srcAddr, 0, 0, 0)
  {
    StepOf(ops, states, i);
    Indexes(states[i], ops[i], states[i + 1], k);
  }

  // ---------- its time ----------

  /** A connection reported at m renewed the time: it was more than twenty minutes old. */
  ghost predicate Renews(ops: seq<Op>, states: seq<State>, k: Key, m: nat)
    requires m < |ops| && m < |states|
  {
    Connects(ops[m], k) && k in states[m].records && ops[m].now > states[m].records[k].timestamp + 1200
  }

  /** The time is the latest of those heard and renewed; no connection reported is more than twenty minutes later. */
  ghost predicate TimeSince(ops: seq<Op>, states: seq<State>, k: Key, j: nat, n: nat, time: int)
    requires n <= |ops| < |states|
  {
    && (forall m :: j <= m < n && Hears(ops[m], k) ==> ops[m].na.timestamp <= time)
    && (forall m :: j <= m < n && Renews(ops, states, k, m) ==> ops[m].now <= time)
    && (forall m :: j <= m < n && Connects(ops[m], k) ==> ops[m].now <= time + 1200)
    && exists m :: j <= m < n && TimeFrom(ops, states, k, m, time)
  }

  ghost predicate TimeFrom(ops: seq<Op>, states: seq<State>, k: Key, m: nat, time: int)
    requires m < |ops| < |states|
  {
    (Hears(ops[m], k) && ops[m].na.timestamp == time) || (Renews(ops, states, k, m) && ops[m].now == time)
  }

  lemma {:induction false} TimeLaw(ops: seq<Op>, states: seq<State>, k: Key, j: nat, n: nat)
    requires Traced(ops, states) && KnownSince(states, k, j, n)
    ensures TimeSince(ops, states, k, j, n, states[n].records[k].timestamp)
  {
    if n == j + 1 {
      IndexedAt(ops, states, k, j);
      assert TimeFrom(ops, states, k, j, ops[j].na.timestamp);
    } else {
      TimeLaw(ops, states, k, j, n - 1);
      RecordAt(ops, states, k, n - 1);
      TimeStep(ops, states, k, j, n - 1, states[n].records[k]);
    }
  }

  lemma TimeStep(ops: seq<Op>, states: seq<State>, k: Key, j: nat, n: nat, q: Record)
    requires j < n < |ops| < |states| && k in states[n].records
    requires TimeSince(ops, states, k, j, n, states[n].records[k].timestamp)
    requires Changes(states[n].records[k], ops[n], q, k)
    ensures TimeSince(ops, states, k, j, n + 1, q.timestamp)
  {
    var before, time := states[n].records[k].timestamp, q.timestamp;
    if time == before {
      var m :| j <= m < n && TimeFrom(ops, states, k, m, before);
      assert TimeFrom(ops, states, k, m, time);
    } else {
      assert TimeFrom(ops, states, k, n, time);
    }
  }

  // ---------- its services ----------

  /** A service named by call m: heard, or stated for the address. */
  predicate Names(op: Op, k: Key, x: nat)
  {
    (Hears(op, k) && x in op.na.services) || (Serves(op, k) && x in op.services)
  }

  /** No call after m states the services. */
  ghost predicate Unrevised(ops: seq<Op>, k: Key, m: nat, n: nat)
    requires n <= |ops|
  {
    forall i :: m < i < n ==> !Serves(ops[i], k)
  }

  /** The services are those stated last and those heard since, or all that were heard if none were stated. */
  lemma {:induction false} ServicesLaw(ops: seq<Op>, states: seq<State>, k: Key, j: nat, n: nat, x: nat)
    requires Traced(ops, states) && KnownSince(states, k, j, n)
    ensures x in states[n].records[k].services <==>
      exists m :: j <= m < n && Names(ops[m], k, x) && Unrevised(ops, k, m, n)
  {
    if n == j + 1 {
      IndexedAt(ops, states, k, j);
      assert Unrevised(ops, k, j, n);
    } else {
      ServicesLaw(ops, states, k, j, n - 1, x);
      RecordAt(ops, states, k, n - 1);
      NamedLater(ops, k, j, n, x);
    }
  }

  lemma NamedLater(ops: seq<Op>, k: Key, j: nat, n: nat, x: nat)
    requires j + 1 < n <= |ops|
    ensures (exists m :: j <= m < n && Names(ops[m], k, x) && Unrevised(ops, k, m, n)) <==>
      || Names(ops[n - 1], k, x)
      || (!Serves(ops[n - 1], k) && exists m :: j <= m < n - 1 && Names(ops[m], k, x) && Unrevised(ops, k, m, n - 1))
  {
    assert Unrevised(ops, k, n - 1, n);
    forall m | j <= m < n - 1
      ensures Unrevised(ops, k, m, n) <==> !Serves(ops[n - 1], k) && Unrevised(ops, k, m, n - 1)
    {
    }
  }

  // ---------- its attempts ----------

  ghost predicate NoSuccess(ops: seq<Op>, k: Key, m: nat, n: nat)
    requires n <= |ops|
  {
    forall i :: m < i < n ==> !Succeeds(ops[i], k)
  }

  /** The attempts since the last success. */
  ghost function TriesSince(ops: seq<Op>, k: Key, j: nat, n: nat): set<nat>
    requires n <= |ops|
  {
    set m: nat | j <= m < n && Tries(ops[m], k) && NoSuccess(ops, k, m, n)
  }

  lemma TriesStep(ops: seq<Op>, k: Key, j: nat, n: nat)
    requires j < n <= |ops|
    ensures TriesSince(ops, k, j, n) == if Succeeds(ops[n - 1], k) then {}
      else TriesSince(ops, k, j, n - 1) + if Tries(ops[n - 1], k) then {n - 1} else {}
  {
    forall m: nat | j <= m < n - 1
      ensures NoSuccess(ops, k, m, n) <==> !Succeeds(ops[n - 1], k) && NoSuccess(ops, k, m, n - 1)
    {
    }
    assert NoSuccess(ops, k, n - 1, n);
  }

  lemma {:induction false} AttemptsLaw(ops: seq<Op>, states: seq<State>, k: Key, j: nat, n: nat)
    requires Traced(ops, states) && KnownSince(states, k, j, n)
    ensures states[n].records[k].attempts == |TriesSince(ops, k, j, n)|
  {
    TriesStep(ops, k, j, n);
    if n == j + 1 {
      IndexedAt(ops, states, k, j);
      assert TriesSince(ops, k, j, j) == {};
    } else {
      AttemptsLaw(ops, states, k, j, n - 1);
      RecordAt(ops, states, k, n - 1);
    }
  }

  /** The time of the last success, zero before the first, and who told of the address first. */
  lemma {:induction false} SuccessLaw(ops: seq<Op>, states: seq<State>, k: Key, j: nat, n: nat)
    requires Traced(ops, states) && KnownSince(states, k, j, n)
    ensures Hears(ops[j], k) && states[n].records[k].srcAddr == ops[j].srcAddr
    ensures NoSuccess(ops, k, j, n) ==> states[n].records[k].lastsuccess == 0
    ensures forall m :: j <= m < n && Succeeds(ops[m], k) && NoSuccess(ops, k, m, n) ==>
      states[n].records[k].lastsuccess == ops[m].now
  {
    if n == j + 1 {
      IndexedAt(ops, states, k, j);
    } else {
      SuccessLaw(ops, states, k, j, n - 1);
      RecordAt(ops, states, k, n - 1);
      forall m | j <= m < n - 1
        ensures NoSuccess(ops, k, m, n) <==> !Succeeds(ops[n - 1], k) && NoSuccess(ops, k, m, n - 1)
      {
      }
    }
  }

  ghost predicate Untried(ops: seq<Op>, k: Key, m: nat, n: nat)
    requires n <= |ops|
  {
    forall i :: m < i < n ==> !Contacts(ops[i], k)
  }

  /** The time of the last attempt or success, zero before the first. */
  lemma {:induction false} LastAttemptLaw(ops: seq<Op>, states: seq<State>, k: Key, j: nat, n: nat)
    requires Traced(ops, states) && KnownSince(states, k, j, n)
    ensures Untried(ops, k, j, n) ==> states[n].records[k].lastattempt == 0
    ensures forall m :: j <= m < n && Contacts(ops[m], k) && Untried(ops, k, m, n) ==>
      states[n].records[k].lastattempt == ops[m].now
  {
    if n == j + 1 {
      IndexedAt(ops, states, k, j);
    } else {
      LastAttemptLaw(ops, states, k, j, n - 1);
      RecordAt(ops, states, k, n - 1);
      forall m | j <= m < n - 1
        ensures Untried(ops, k, m, n) <==> !Contacts(ops[n - 1], k) && Untried(ops, k, m, n - 1)
      {
      }
    }
  }

  // ---------- how likely it is to be filed again ----------

  /** The draws below twice the number of references that file a new address once more. */
  ghost function LuckyDraws(was: Book, k: Key, bucket: nat): set<nat>
    requires k in was.refs && was.refs[k] > 0
  {
    set d: nat | d < 2 * was.refs[k] && LeadsToFiling(was, k, d, bucket)
  }

  /** Whatever is expired, hearing of the address with this draw puts it into the bucket. */
  ghost predicate LeadsToFiling(was: Book, k: Key, d: nat, bucket: nat)
  {
    forall gone, now :: Updated(was, k, true, d, bucket, gone, now) ==> bucket < |now.news| && k in now.news[bucket]
  }

  /** An address with n references, fewer than eight of them, goes into a bucket it is not in for one draw in 2n. */
  lemma OneInTwiceTheReferences(was: Book, k: Key, bucket: nat)
    requires k in was.refs && 0 < was.refs[k] < 8 && k !in was.tried
    requires bucket < |was.news| && k !in was.news[bucket]
    ensures |LuckyDraws(was, k, bucket)| == 1
  {
    assert LeadsToFiling(was, k, 0, bucket);
    forall d: nat | 0 < d < 2 * was.refs[k]
      ensures !LeadsToFiling(was, k, d, bucket)
    {
      assert Updated(was, k, true, d, bucket, {}, was);
    }
    assert LuckyDraws(was, k, bucket) == {0};
  }
}
