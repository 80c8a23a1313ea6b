/**
 * The bookkeeping of the address manager as a value: reference counts, the set
 * of tried addresses, the new and tried buckets and the two counters.
 */
module AddrBook {
  import opened Basics

  const TRIED_BUCKET_SIZE := 256
  const TRIED_BUCKET_COUNT := 64
  const NEW_BUCKET_SIZE := 64
  const NEW_BUCKET_COUNT := 1024
  const NEW_BUCKETS_PER_ADDRESS := 8

  /** What NetAddressKey renders: host and port. */
  datatype Key = Key(host: string, port: nat)

  datatype Book = Book(
    refs: map<Key, int>,
    tried: set<Key>,
    news: seq<set<Key>>,
    trieds: seq<seq<Key>>,
    nNew: int,
    nTried: int)

  /** The new buckets that hold k. */
  function Holders(news: seq<set<Key>>, k: Key): set<nat>
  {
    set b: nat | b < |news| && k in news[b]
  }

  /** An indexed address that has not been tried counts its new buckets, between one and eight of them. */
  ghost predicate Counted(s: Book, k: Key, pending: set<Key>)
  {
    k in s.refs && k !in s.tried ==>
      && s.refs[k] == |Holders(s.news, k)|
      && s.refs[k] <= NEW_BUCKETS_PER_ADDRESS
      && (k !in pending ==> s.refs[k] >= 1)
  }

  ghost predicate NewOk(s: Book, pending: set<Key>)
  {
    && |s.news| == NEW_BUCKET_COUNT
    && (forall b, k :: 0 <= b < |s.news| && k in s.news[b] ==> k in s.refs && k !in s.tried)
    && (forall k {:trigger Counted(s, k, pending)} :: Counted(s, k, pending))
    && (forall b :: 0 <= b < |s.news| ==> |s.news[b]| <= NEW_BUCKET_SIZE + 1)
  }

  /** No tried address occurs twice, in one bucket or in two. */
  ghost predicate Single(trieds: seq<seq<Key>>)
  {
    forall b, i, c, j | 0 <= b < |trieds| && 0 <= i < |trieds[b]| && 0 <= c < |trieds| && 0 <= j < |trieds[c]| ::
      trieds[b][i] == trieds[c][j] ==> b == c && i == j
  }

  ghost predicate InSome(trieds: seq<seq<Key>>, k: Key)
  {
    exists b :: 0 <= b < |trieds| && k in trieds[b]
  }

  /** The tried buckets hold exactly the tried addresses, each once, and those have no references. */
  ghost predicate TriedOk(s: Book)
  {
    && |s.trieds| == TRIED_BUCKET_COUNT
    && Single(s.trieds)
    && (forall k :: k in s.tried <==> InSome(s.trieds, k))
    && (forall k :: k in s.tried ==> k in s.refs && s.refs[k] == 0)
    && (forall b :: 0 <= b < |s.trieds| ==> |s.trieds[b]| <= TRIED_BUCKET_SIZE)
  }

  ghost predicate CountersOk(s: Book)
  {
    s.nNew == |s.refs.Keys - s.tried| && s.nTried == |s.tried|
  }

  /** `pending` are addresses indexed as new that are about to be put into their first new bucket. */
  ghost predicate InvExcept(s: Book, pending: set<Key>)
  {
    NewOk(s, pending) && TriedOk(s) && CountersOk(s)
  }

  /** InvExcept with its parts out of sight until the book is unsealed. */
  ghost predicate Sealed(s: Book, pending: set<Key>)
  {
    forall t {:trigger Unseal(t)} :: t == s ==> InvExcept(t, pending)
  }

  /** Sealed is InvExcept. */
  lemma SealedIsInv(s: Book, pending: set<Key>)
    ensures Sealed(s, pending) <==> InvExcept(s, pending)
  {
    assert Unseal(s) == s;
  }

  ghost predicate Inv(s: Book)
  {
    InvExcept(s, {})
  }

  function Empty(): Book
  {
    Book(map[], {}, seq(NEW_BUCKET_COUNT, _ => {}), seq(TRIED_BUCKET_COUNT, _ => []), 0, 0)
  }

  lemma EmptyInv()
    ensures Inv(Empty())
  {
    var s := Empty();
    forall k
      ensures Counted(s, k, {})
    {
    }
  }

  // ---------- transitions ----------

  /** Index a new address that is in no bucket yet. */
  function Learn(s: Book, k: Key): Book
  {
    s.(refs := s.refs[k := 0], nNew := s.nNew + 1)
  }

  lemma LearnNew(s: Book, k: Key)
    requires NewOk(s, {}) && k !in s.refs
    ensures NewOk(Learn(s, k), {k})
  {
    var t := Learn(s, k);
    assert Holders(s.news, k) == {};
    forall x
      ensures Counted(t, x, {k})
    {
      assert Counted(s, x, {});
    }
  }

  lemma LearnCounters(s: Book, k: Key)
    requires CountersOk(s) && k !in s.refs && k !in s.tried
    ensures CountersOk(Learn(s, k))
  {
    var t := Learn(s, k);
    assert t.refs.Keys - t.tried == (s.refs.Keys - s.tried) + {k};
  }

  lemma LearnTried(s: Book, k: Key)
    requires TriedOk(s) && k !in s.refs
    ensures TriedOk(Learn(s, k)) && k !in s.tried
  {
  }

  lemma LearnInv(s: Book, k: Key)
    requires Inv(s) && k !in s.refs
    ensures InvExcept(Learn(s, k), {k})
  {
    LearnTried(s, k);
    LearnNew(s, k);
    LearnCounters(s, k);
  }

  /** Put an address into a new bucket. */
  function Put(s: Book, b: nat, k: Key): Book
    requires b < |s.news| && k in s.refs
  {
    s.(refs := s.refs[k := s.refs[k] + 1], news := s.news[b := s.news[b] + {k}])
  }

  lemma PutHolders(news: seq<set<Key>>, b: nat, k: Key, x: Key)
    requires b < |news|
    ensures Holders(news[b := news[b] + {k}], x) == Holders(news, x) + if x == k then {b} else {}
  {
  }

  lemma PutInv(s: Book, b: nat, k: Key, pending: set<Key>)
    requires InvExcept(s, pending) && pending <= {k} && b < |s.news|
    requires k in s.refs && k !in s.tried && k !in s.news[b]
    requires s.refs[k] < NEW_BUCKETS_PER_ADDRESS && |s.news[b]| <= NEW_BUCKET_SIZE
    ensures Inv(Put(s, b, k))
  {
    PutNew(s, b, k, pending);
    PutTried(s, b, k);
  }

  lemma PutTried(s: Book, b: nat, k: Key)
    requires TriedOk(s) && CountersOk(s) && b < |s.news| && k in s.refs && k !in s.tried
    ensures TriedOk(Put(s, b, k)) && CountersOk(Put(s, b, k))
  {
    assert Put(s, b, k).refs.Keys == s.refs.Keys;
  }

  lemma PutNew(s: Book, b: nat, k: Key, pending: set<Key>)
    requires NewOk(s, pending) && pending <= {k} && b < |s.news|
    requires k in s.refs && k !in s.tried && k !in s.news[b]
    requires s.refs[k] < NEW_BUCKETS_PER_ADDRESS && |s.news[b]| <= NEW_BUCKET_SIZE
    ensures NewOk(Put(s, b, k), {})
  {
    var t := Put(s, b, k);
    forall x
      ensures Counted(t, x, {})
    {
      assert Counted(s, x, pending);
      PutHolders(s.news, b, k, x);
      assert x == k ==> b !in Holders(s.news, k);
    }
  }

  /** Take a set of addresses out of one new bucket, forgetting those it was the last bucket of. */
  function DropAll(s: Book, b: nat, gone: set<Key>): Book
    requires b < |s.news| && gone <= s.news[b]
    requires forall k :: k in gone ==> k in s.refs
  {
    s.(refs := map k | k in s.refs && !(k in gone && s.refs[k] == 1) :: if k in gone then s.refs[k] - 1 else s.refs[k],
       news := s.news[b := s.news[b] - gone],
       nNew := s.nNew - |LastRefs(s, gone)|)
  }

  lemma DropOne(s: Book, b: nat, k: Key)
    requires b < |s.news| && k in s.news[b] && k in s.refs
    ensures DropAll(s, b, {k})
         == s.(news := s.news[b := s.news[b] - {k}],
               refs := if s.refs[k] == 1 then s.refs - {k} else s.refs[k := s.refs[k] - 1],
               nNew := s.nNew - if s.refs[k] == 1 then 1 else 0)
  {
    assert LastRefs(s, {k}) == if s.refs[k] == 1 then {k} else {};
  }

  function LastRefs(s: Book, gone: set<Key>): set<Key>
    requires forall k :: k in gone ==> k in s.refs
  {
    set k | k in gone && s.refs[k] == 1
  }

  lemma DropHolders(news: seq<set<Key>>, b: nat, gone: set<Key>, x: Key)
    requires b < |news| && gone <= news[b]
    ensures Holders(news[b := news[b] - gone], x) == Holders(news, x) - if x in gone then {b} else {}
    ensures x in gone ==> b in Holders(news, x)
  {
  }

  lemma DropAllCounted(s: Book, b: nat, gone: set<Key>, pending: set<Key>, x: Key)
    requires NewOk(s, pending) && b < |s.news| && gone <= s.news[b]
    ensures Counted(DropAll(s, b, gone), x, pending)
  {
    assert Counted(s, x, pending);
    DropHolders(s.news, b, gone, x);
  }

  lemma DropAllMembers(s: Book, b: nat, gone: set<Key>, pending: set<Key>, c: nat, k: Key)
    requires NewOk(s, pending) && b < |s.news| && gone <= s.news[b] && c < |s.news|
    requires k in s.news[b := s.news[b] - gone][c]
    ensures k in DropAll(s, b, gone).refs && k !in s.tried
  {
    assert Counted(s, k, pending);
    if k in gone && s.refs[k] == 1 {
      OneHolder(Holders(s.news, k), b, c);
    }
  }

  lemma DropAllCounters(s: Book, b: nat, gone: set<Key>)
    requires CountersOk(s) && b < |s.news| && gone <= s.news[b]
    requires forall k :: k in gone ==> k in s.refs && k !in s.tried
    ensures CountersOk(DropAll(s, b, gone))
  {
    var t := DropAll(s, b, gone);
    assert t.refs.Keys - t.tried == (s.refs.Keys - s.tried) - LastRefs(s, gone);
    SizeMinus(s.refs.Keys - s.tried, LastRefs(s, gone));
  }

  lemma DropAllNewOk(s: Book, b: nat, gone: set<Key>, pending: set<Key>)
    requires NewOk(s, pending) && b < |s.news| && gone <= s.news[b]
    ensures NewOk(DropAll(s, b, gone), pending)
  {
    var t := DropAll(s, b, gone);
    forall x
      ensures Counted(t, x, pending)
    {
      DropAllCounted(s, b, gone, pending, x);
    }
    forall c, k | 0 <= c < |t.news| && k in t.news[c]
      ensures k in t.refs && k !in t.tried
    {
      DropAllMembers(s, b, gone, pending, c, k);
    }
    SizeMinus(s.news[b], gone);
  }

  lemma DropAllInv(s: Book, b: nat, gone: set<Key>, pending: set<Key>)
    requires InvExcept(s, pending) && b < |s.news| && gone <= s.news[b]
    ensures forall k :: k in gone ==> k in s.refs
    ensures InvExcept(DropAll(s, b, gone), pending)
  {
    DropAllNewOk(s, b, gone, pending);
    DropAllCounters(s, b, gone);
  }

  /** What makes an address removable from a bucket that others have already been dropped from. */
  lemma Removable(s: Book, b: nat, gone: set<Key>, k: Key, pending: set<Key>)
    requires InvExcept(s, pending) && b < |s.news| && gone <= s.news[b] && k in s.news[b] && k !in gone
    ensures forall x :: x in gone ==> x in s.refs
    ensures var t := DropAll(s, b, gone);
      && k in t.refs && k !in t.tried && t.refs[k] >= 1 && !InSome(t.trieds, k)
      && (t.refs[k] == 1 ==> forall c :: 0 <= c < |t.news| && k in t.news[c] ==> c == b)
  {
    var t := DropAll(s, b, gone);
    assert t.refs[k] == |Holders(t.news, k)| by {
      DropAllCounted(s, b, gone, pending, k);
      DropAllMembers(s, b, gone, pending, b, k);
      assert Counted(t, k, pending);
    }
    assert b in Holders(t.news, k);
    if t.refs[k] == 1 {
      forall c | 0 <= c < |t.news| && k in t.news[c]
        ensures c == b
      {
        assert c in Holders(t.news, k);
        OneHolder(Holders(t.news, k), b, c);
      }
    }
  }

  lemma DropNone(s: Book, b: nat)
    requires b < |s.news|
    ensures DropAll(s, b, {}) == s
  {
    assert LastRefs(s, {}) == {};
    assert s.news[b] - {} == s.news[b];
  }

  /** Dropping one more address is dropping the larger set. */
  lemma DropOneMore(s: Book, b: nat, gone: set<Key>, k: Key)
    requires b < |s.news| && gone <= s.news[b] && k in s.news[b] && k !in gone && k in s.refs
    requires forall x :: x in gone ==> x in s.refs
    ensures DropAll(DropAll(s, b, gone), b, {k}) == DropAll(s, b, gone + {k})
  {
    var t := DropAll(s, b, gone);
    LastRefsMore(s, gone, k);
    assert LastRefs(t, {k}) == if s.refs[k] == 1 then {k} else {};
    assert DropAll(t, b, {k}).nNew == DropAll(s, b, gone + {k}).nNew;
    assert (s.news[b] - gone) - {k} == s.news[b] - (gone + {k});
    assert s.news[b := s.news[b] - gone][b := s.news[b] - gone - {k}] == s.news[b := s.news[b] - (gone + {k})];
    assert DropAll(t, b, {k}).refs == DropAll(s, b, gone + {k}).refs;
  }

  lemma LastRefsMore(s: Book, gone: set<Key>, k: Key)
    requires k in s.refs && k !in gone && forall x :: x in gone ==> x in s.refs
    ensures |LastRefs(s, gone + {k})| == |LastRefs(s, gone)| + if s.refs[k] == 1 then 1 else 0
  {
    var last := if s.refs[k] == 1 then {k} else {};
    assert LastRefs(s, gone + {k}) == LastRefs(s, gone) + last;
  }

  lemma OneHolder(holders: set<nat>, b: nat, c: nat)
    requires |holders| == 1 && b in holders && c in holders
    ensures b == c
  {
    assert |holders - {b}| == 0;
  }

  lemma SizeMinus<T>(a: set<T>, b: set<T>)
    requires b <= a
    ensures |a - b| == |a| - |b|
  {
    assert a == (a - b) + b;
  }

  /** Take an address out of every new bucket; it stops counting as new. */
  function Unfile(s: Book, k: Key): Book
    requires k in s.refs
  {
    s.(refs := s.refs[k := s.refs[k] - |Holders(s.news, k)|],
       news := seq(|s.news|, b requires 0 <= b < |s.news| => s.news[b] - {k}),
       nNew := s.nNew - 1)
  }

  /** Append an address to a tried bucket. */
  function Promote(s: Book, k: Key, tb: nat): Book
    requires tb < |s.trieds|
  {
    s.(tried := s.tried + {k}, trieds := s.trieds[tb := s.trieds[tb] + [k]], nTried := s.nTried + 1)
  }

  /** Put an address in the place of a tried one, which goes back to a new bucket. */
  function Displace(s: Book, k: Key, tb: nat, i: nat, nb: nat): Book
    requires tb < |s.trieds| && i < |s.trieds[tb]| && nb < |s.news| && s.trieds[tb][i] in s.refs
  {
    var out := s.trieds[tb][i];
    s.(refs := s.refs[out := s.refs[out] + 1],
       tried := s.tried + {k} - {out},
       news := s.news[nb := s.news[nb] + {out}],
       trieds := s.trieds[tb := s.trieds[tb][i := k]],
       nNew := s.nNew + 1)
  }

  /** After Unfile the address has no references left and is in no new bucket; all else is as before. */
  lemma UnfileFacts(s: Book, k: Key)
    requires Inv(s) && k in s.refs && k !in s.tried
    ensures Unfile(s, k).refs == s.refs[k := 0]
    ensures Holders(s.news, k) != {}
    ensures forall x :: x != k ==> Holders(Unfile(s, k).news, x) == Holders(s.news, x)
    ensures forall b :: 0 <= b < |s.news| ==> Unfile(s, k).news[b] == s.news[b] - {k}
    ensures forall b :: 0 <= b < |s.news| ==> |s.news[b] - {k}| == |s.news[b]| - if k in s.news[b] then 1 else 0
  {
    assert Counted(s, k, {});
    var t := Unfile(s, k);
    forall x | x != k
      ensures Holders(t.news, x) == Holders(s.news, x)
    {
    }
  }

  lemma PromoteCounted(s: Book, k: Key, tb: nat, x: Key)
    requires Inv(s) && k in s.refs && k !in s.tried && tb < |s.trieds|
    ensures Counted(Promote(Unfile(s, k), k, tb), x, {})
  {
    UnfileFacts(s, k);
    assert Counted(s, x, {});
  }

  lemma PromoteNewOk(s: Book, k: Key, tb: nat)
    requires Inv(s) && k in s.refs && k !in s.tried && tb < |s.trieds|
    ensures NewOk(Promote(Unfile(s, k), k, tb), {})
  {
    var t := Promote(Unfile(s, k), k, tb);
    forall x
      ensures Counted(t, x, {})
    {
      PromoteCounted(s, k, tb, x);
    }
    forall b | 0 <= b < |t.news|
      ensures |t.news[b]| <= NEW_BUCKET_SIZE + 1
    {
      UnfileFacts(s, k);
    }
  }

  lemma AppendSingle(trieds: seq<seq<Key>>, k: Key, tb: nat)
    requires Single(trieds) && !InSome(trieds, k) && tb < |trieds|
    ensures Single(trieds[tb := trieds[tb] + [k]])
    ensures forall x :: InSome(trieds[tb := trieds[tb] + [k]], x) <==> InSome(trieds, x) || x == k
  {
    var after := trieds[tb := trieds[tb] + [k]];
    forall x
      ensures InSome(after, x) <==> InSome(trieds, x) || x == k
    {
      if InSome(trieds, x) {
        var b :| 0 <= b < |trieds| && x in trieds[b];
        assert x in after[b];
      }
      if x == k {
        assert x in after[tb];
      }
    }
  }

  lemma PromoteTriedOk(s: Book, k: Key, tb: nat, refs: map<Key, int>)
    requires TriedOk(s) && k !in s.tried && refs == s.refs[k := 0]
    requires tb < |s.trieds| && |s.trieds[tb]| < TRIED_BUCKET_SIZE
    ensures TriedOk(Promote(s.(refs := refs), k, tb))
  {
    AppendSingle(s.trieds, k, tb);
  }

  lemma PromoteCounters(s: Book, k: Key, tb: nat)
    requires CountersOk(s) && k in s.refs && k !in s.tried && tb < |s.trieds|
    ensures CountersOk(Promote(Unfile(s, k), k, tb))
  {
    var t := Promote(Unfile(s, k), k, tb);
    assert t.refs.Keys == s.refs.Keys;
    assert t.refs.Keys - t.tried == (s.refs.Keys - s.tried) - {k};
  }

  /** Promotion with room in the tried bucket keeps every coupling. */
  lemma PromoteInv(s: Book, k: Key, tb: nat)
    requires Inv(s) && k in s.refs && k !in s.tried
    requires tb < |s.trieds| && |s.trieds[tb]| < TRIED_BUCKET_SIZE
    ensures Inv(Promote(Unfile(s, k), k, tb))
  {
    PromoteNewOk(s, k, tb);
    assert Unfile(s, k).refs == s.refs[k := 0] by { UnfileFacts(s, k); }
    PromoteTriedOk(s, k, tb, s.refs[k := 0]);
    PromoteCounters(s, k, tb);
  }

  lemma ReplaceSingle(trieds: seq<seq<Key>>, k: Key, tb: nat, i: nat)
    requires Single(trieds) && !InSome(trieds, k) && tb < |trieds| && i < |trieds[tb]|
    ensures Single(trieds[tb := trieds[tb][i := k]])
    ensures forall x :: InSome(trieds[tb := trieds[tb][i := k]], x)
                        <==> (InSome(trieds, x) && x != trieds[tb][i]) || x == k
  {
    var after := trieds[tb := trieds[tb][i := k]];
    forall x
      ensures InSome(after, x) <==> (InSome(trieds, x) && x != trieds[tb][i]) || x == k
    {
      if InSome(trieds, x) && x != trieds[tb][i] {
        var b :| 0 <= b < |trieds| && x in trieds[b];
        var j :| 0 <= j < |trieds[b]| && trieds[b][j] == x;
        assert after[b][j] == x;
      }
      if x == k {
        assert after[tb][i] == k;
      }
      if InSome(after, x) {
        var b :| 0 <= b < |after| && x in after[b];
        var j :| 0 <= j < |after[b]| && after[b][j] == x;
        assert x == k || (trieds[b][j] == x && !(b == tb && j == i));
      }
    }
  }

  lemma DisplaceHolders(s: Book, k: Key, out: Key, nb: nat, x: Key)
    requires Inv(s) && k in s.refs && k !in s.tried && out in s.tried && nb < |s.news|
    ensures var u := Unfile(s, k).news;
      Holders(u[nb := u[nb] + {out}], x) == if x == out then {nb} else if x == k then {} else Holders(s.news, x)
  {
    UnfileFacts(s, k);
    PutHolders(Unfile(s, k).news, nb, out, x);
  }

  lemma DisplaceCounted(s: Book, k: Key, tb: nat, i: nat, nb: nat, x: Key)
    requires Inv(s) && k in s.refs && k !in s.tried
    requires tb < |s.trieds| && i < |s.trieds[tb]| && nb < |s.news| && s.trieds[tb][i] in s.tried
    ensures Counted(Displace(Unfile(s, k), k, tb, i, nb), x, {})
  {
    assert Unfile(s, k).refs == s.refs[k := 0] by { UnfileFacts(s, k); }
    DisplaceHolders(s, k, s.trieds[tb][i], nb, x);
    assert Counted(s, x, {});
  }

  lemma DisplaceBuckets(s: Book, k: Key, out: Key, nb: nat, b: nat)
    requires Inv(s) && k in s.refs && k !in s.tried && out in s.tried && nb < |s.news| && b < |s.news|
    requires |s.news[nb] - {k}| <= NEW_BUCKET_SIZE
    ensures var u := Unfile(s, k).news;
      |u[nb := u[nb] + {out}][b]| <= NEW_BUCKET_SIZE + 1 &&
      forall x :: x in u[nb := u[nb] + {out}][b] ==> x in s.refs && (x == out || (x !in s.tried && x != k))
  {
    UnfileFacts(s, k);
  }

  lemma DisplaceNewOk(s: Book, k: Key, tb: nat, i: nat, nb: nat)
    requires Inv(s) && k in s.refs && k !in s.tried
    requires tb < |s.trieds| && i < |s.trieds[tb]| && nb < |s.news|
    requires |s.news[nb] - {k}| <= NEW_BUCKET_SIZE
    requires s.trieds[tb][i] in s.tried
    ensures NewOk(Displace(Unfile(s, k), k, tb, i, nb), {})
  {
    var t := Displace(Unfile(s, k), k, tb, i, nb);
    forall x
      ensures Counted(t, x, {})
    {
      DisplaceCounted(s, k, tb, i, nb, x);
    }
    forall b | 0 <= b < |t.news|
      ensures |t.news[b]| <= NEW_BUCKET_SIZE + 1
      ensures forall x :: x in t.news[b] ==> x in t.refs && x !in t.tried
    {
      DisplaceBuckets(s, k, s.trieds[tb][i], nb, b);
    }
  }

  lemma DisplaceTriedOk(s: Book, k: Key, tb: nat, i: nat, nb: nat, refs: map<Key, int>)
    requires TriedOk(s) && k !in s.tried && refs == s.refs[k := 0]
    requires tb < |s.trieds| && i < |s.trieds[tb]| && nb < |s.news| && s.trieds[tb][i] in s.tried
    ensures TriedOk(Displace(s.(refs := refs), k, tb, i, nb))
  {
    ReplaceSingle(s.trieds, k, tb, i);
  }

  lemma DisplaceCounters(s: Book, k: Key, tb: nat, i: nat, nb: nat)
    requires CountersOk(s) && k in s.refs && k !in s.tried
    requires tb < |s.trieds| && i < |s.trieds[tb]| && nb < |s.news|
    requires s.trieds[tb][i] in s.tried && s.trieds[tb][i] in s.refs
    ensures CountersOk(Displace(Unfile(s, k), k, tb, i, nb))
  {
    var out := s.trieds[tb][i];
    var t := Displace(Unfile(s, k), k, tb, i, nb);
    assert t.refs.Keys == s.refs.Keys;
    assert t.refs.Keys - t.tried == (s.refs.Keys - s.tried) - {k} + {out};
    assert t.tried == s.tried - {out} + {k};
  }

  /** Promotion into a full tried bucket: the displaced address becomes a new one with a single reference. */
  lemma DisplaceInv(s: Book, k: Key, tb: nat, i: nat, nb: nat)
    requires Inv(s) && k in s.refs && k !in s.tried
    requires tb < |s.trieds| && i < |s.trieds[tb]| && nb < |s.news|
    requires |s.news[nb] - {k}| <= NEW_BUCKET_SIZE
    ensures s.trieds[tb][i] in s.tried
    ensures Inv(Displace(Unfile(s, k), k, tb, i, nb))
  {
    assert InSome(s.trieds, s.trieds[tb][i]);
    DisplaceNewOk(s, k, tb, i, nb);
    var refs := s.refs[k := 0];
    assert Unfile(s, k).refs == refs by { UnfileFacts(s, k); }
    DisplaceTriedOk(s, k, tb, i, nb, refs);
    DisplaceCounters(s, k, tb, i, nb);
  }

  /** Filing an address in a new bucket after making room in it. */
  lemma FileInv(s: Book, b: nat, k: Key, gone: set<Key>, pending: set<Key>)
    requires InvExcept(s, pending) && pending <= {k} && b < |s.news| && gone <= s.news[b]
    requires k in s.refs && k !in s.tried && s.refs[k] < NEW_BUCKETS_PER_ADDRESS && k !in s.news[b]
    requires |s.news[b]| - |gone| <= NEW_BUCKET_SIZE
    ensures forall x :: x in gone ==> x in s.refs
    ensures k in DropAll(s, b, gone).refs && Inv(Put(DropAll(s, b, gone), b, k))
  {
    DropAllInv(s, b, gone, pending);
    SizeMinus(s.news[b], gone);
    PutInv(DropAll(s, b, gone), b, k, pending);
  }

  /** An address that is pending is in no new bucket. */
  lemma PendingUnfiled(s: Book, b: nat, k: Key, pending: set<Key>)
    requires InvExcept(s, pending) && k in s.refs && k !in s.tried && b < |s.news|
    ensures s.refs[k] == 0 ==> k !in s.news[b]
    ensures pending == {} ==> s.refs[k] >= 1
  {
    assert Counted(s, k, pending);
    if k in s.news[b] {
      assert b in Holders(s.news, k);
    }
  }

  // ---------- the same facts over sealed books ----------

  lemma EmptySealed()
    ensures Sealed(Empty(), {})
  {
    EmptyInv();
  }

  lemma LearnSealed(s: Book, k: Key)
    requires Sealed(s, {}) && k !in s.refs
    ensures Sealed(Learn(s, k), {k})
  {
    LearnInv(Unseal(s), k);
  }

  lemma PendingSealed(s: Book, b: nat, k: Key, pending: set<Key>)
    requires Sealed(s, pending) && k in s.refs && k !in s.tried && b < |s.news|
    ensures s.refs[k] == 0 ==> k !in s.news[b]
    ensures pending == {} ==> s.refs[k] >= 1
    ensures s.refs[k] <= NEW_BUCKETS_PER_ADDRESS
  {
    PendingUnfiled(Unseal(s), b, k, pending);
    assert Counted(s, k, pending);
  }

  lemma SizesSealed(s: Book, pending: set<Key>)
    requires Sealed(s, pending)
    ensures |s.news| == NEW_BUCKET_COUNT && |s.trieds| == TRIED_BUCKET_COUNT
    ensures forall b :: 0 <= b < |s.news| ==> |s.news[b]| <= NEW_BUCKET_SIZE + 1
  {
    assert InvExcept(Unseal(s), pending);
  }

  lemma FileSealed(s: Book, b: nat, k: Key, gone: set<Key>, pending: set<Key>)
    requires Sealed(s, pending) && pending <= {k} && b < |s.news| && gone <= s.news[b]
    requires k in s.refs && k !in s.tried && s.refs[k] < NEW_BUCKETS_PER_ADDRESS && k !in s.news[b]
    requires |s.news[b]| - |gone| <= NEW_BUCKET_SIZE
    ensures forall x :: x in gone ==> x in s.refs
    ensures k in DropAll(s, b, gone).refs && Sealed(Put(DropAll(s, b, gone), b, k), {})
  {
    FileInv(Unseal(s), b, k, gone, pending);
  }

  lemma UnfileSealed(s: Book, k: Key, nb: nat)
    requires Sealed(s, {}) && k in s.refs && k !in s.tried && nb < |s.news|
    ensures Unfile(s, k).refs == s.refs[k := 0] && Holders(s.news, k) != {}
    ensures Unfile(s, k).news[nb] == s.news[nb] - {k}
    ensures k in s.news[nb] ==> |s.news[nb] - {k}| <= NEW_BUCKET_SIZE
  {
    UnfileFacts(Unseal(s), k);
    SizesSealed(s, {});
  }

  lemma PromoteSealed(s: Book, k: Key, tb: nat)
    requires Sealed(s, {}) && k in s.refs && k !in s.tried
    requires tb < |s.trieds| && |s.trieds[tb]| < TRIED_BUCKET_SIZE
    ensures Sealed(Promote(Unfile(s, k), k, tb), {})
  {
    PromoteInv(Unseal(s), k, tb);
  }

  lemma DisplaceSealed(s: Book, k: Key, tb: nat, i: nat, nb: nat)
    requires Sealed(s, {}) && k in s.refs && k !in s.tried
    requires tb < |s.trieds| && i < |s.trieds[tb]| && nb < |s.news|
    requires |s.news[nb] - {k}| <= NEW_BUCKET_SIZE
    ensures s.trieds[tb][i] in s.tried && s.trieds[tb][i] in s.refs
    ensures Sealed(Displace(Unfile(s, k), k, tb, i, nb), {})
  {
    DisplaceInv(Unseal(s), k, tb, i, nb);
  }

  /**
   * What the coupling says of one indexed address: either it has been tried, has no references and is in exactly
   * one place of one tried bucket and in no new bucket, or it is in one to eight new buckets and counts them.
   */
  lemma EitherTriedOrNew(s: Book, k: Key)
    requires Inv(s) && k in s.refs
    ensures k in s.tried ==>
              && s.refs[k] == 0 && Holders(s.news, k) == {}
              && exists b, i :: 0 <= b < |s.trieds| && 0 <= i < |s.trieds[b]| && s.trieds[b][i] == k
                   && forall c, j :: 0 <= c < |s.trieds| && 0 <= j < |s.trieds[c]| && s.trieds[c][j] == k ==>
                       c == b && j == i
    ensures k !in s.tried ==>
              && 1 <= s.refs[k] <= NEW_BUCKETS_PER_ADDRESS && s.refs[k] == |Holders(s.news, k)|
              && forall b :: 0 <= b < |s.trieds| ==> k !in s.trieds[b]
  {
    assert Counted(s, k, {});
    if k in s.tried {
      assert InSome(s.trieds, k);
      var b :| 0 <= b < |s.trieds| && k in s.trieds[b];
      var i :| 0 <= i < |s.trieds[b]| && s.trieds[b][i] == k;
    } else {
      assert !InSome(s.trieds, k);
    }
  }
}
