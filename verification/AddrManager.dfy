/**
 * The address manager: known addresses shared between an index and buckets,
 * updated in place.  Bucket hashing, routability, the verdict that an address
 * is bad, random numbers and the clock are parameters.
 */
module AddrManagers {
  import opened Basics
  import opened AddrBook

  datatype NetAddress = NetAddress(key: Key, timestamp: int, services: set<nat>)

  /** The network address held here is only ever replaced by copies with the same host and port, its key. */
  class KnownAddress {
    const key: Key
    var timestamp: int
    var services: set<nat>
    const srcAddr: NetAddress
    var attempts: nat
    var lastattempt: int
    var lastsuccess: int
    var tried: bool
    var refs: int

    constructor (na: NetAddress, srcAddr: NetAddress)
      ensures key == na.key && timestamp == na.timestamp && services == na.services && this.srcAddr == srcAddr
      ensures attempts == 0 && lastattempt == 0 && lastsuccess == 0 && !tried && refs == 0
    {
      key, timestamp, services := na.key, na.timestamp, na.services;
      this.srcAddr := srcAddr;
      attempts, lastattempt, lastsuccess := 0, 0, 0;
      tried := false;
      refs := 0;
    }
  }

  type AddrMap = map<Key, KnownAddress>

  /** What a known address records besides its bookkeeping; the zero time is 0. */
  datatype Record = Record(
    timestamp: int,
    services: set<nat>,
    srcAddr: NetAddress,
    attempts: nat,
    lastattempt: int,
    lastsuccess: int)

  ghost function RecordOf(v: KnownAddress): Record
    reads v`timestamp, v`services, v`attempts, v`lastattempt, v`lastsuccess
  {
    Record(v.timestamp, v.services, v.srcAddr, v.attempts, v.lastattempt, v.lastsuccess)
  }

  /** A part of a map, unchanged. */
  ghost predicate Shrunk<V>(before: map<Key, V>, after: map<Key, V>)
  {
    forall k :: k in after ==> k in before && after[k] == before[k]
  }

  /** The new buckets share the known addresses of the index. */
  ghost predicate NewAgrees(index: AddrMap, addrNew: seq<AddrMap>, news: seq<set<Key>>)
  {
    && |addrNew| == |news|
    && forall b {:trigger addrNew[b]} {:trigger news[b]} :: 0 <= b < |addrNew| ==>
         addrNew[b].Keys == news[b] && forall k :: k in addrNew[b] ==> k in index && addrNew[b][k] == index[k]
  }

  /** The tried buckets share the known addresses of the index. */
  ghost predicate TriedAgrees(index: AddrMap, addrTried: seq<seq<KnownAddress>>, trieds: seq<seq<Key>>)
  {
    && |addrTried| == |trieds|
    && forall b {:trigger addrTried[b]} {:trigger trieds[b]} :: 0 <= b < |addrTried| ==>
         && |addrTried[b]| == |trieds[b]|
         && forall i :: 0 <= i < |addrTried[b]| ==> trieds[b][i] in index && addrTried[b][i] == index[trieds[b][i]]
  }

  /** An address heard of again keeps the later time and gains services; another one starts with what was heard. */
  function Heard(records: map<Key, Record>, na: NetAddress, srcAddr: NetAddress): Record
  {
    if na.key !in records then Record(na.timestamp, na.services, srcAddr, 0, 0, 0)
    else
      var r := records[na.key];
      r.(timestamp := if na.timestamp > r.timestamp then na.timestamp else r.timestamp,
         services := r.services + na.services)
  }

  /** A successful connection to k. */
  function Touched(records: map<Key, Record>, k: Key, now: int): map<Key, Record>
  {
    if k !in records then records
    else records[k := records[k].(lastsuccess := now, lastattempt := now, attempts := 0)]
  }

  function Attempted(records: map<Key, Record>, k: Key, now: int): map<Key, Record>
  {
    if k !in records then records
    else records[k := records[k].(attempts := records[k].attempts + 1, lastattempt := now)]
  }

  function Renewed(records: map<Key, Record>, k: Key, now: int): map<Key, Record>
  {
    if k in records && now > records[k].timestamp + 1200 then records[k := records[k].(timestamp := now)] else records
  }

  function Serving(records: map<Key, Record>, k: Key, services: set<nat>): map<Key, Record>
  {
    if k in records then records[k := records[k].(services := services)] else records
  }

  lemma UnlistAgrees(index: AddrMap, addrNew: seq<AddrMap>, news: seq<set<Key>>, bucket: nat, k: Key)
    requires NewAgrees(index, addrNew, news) && bucket < |news|
    ensures NewAgrees(index, addrNew[bucket := addrNew[bucket] - {k}], news[bucket := news[bucket] - {k}])
  {
  }

  lemma ForgetAgrees(index: AddrMap, addrNew: seq<AddrMap>, addrTried: seq<seq<KnownAddress>>, s: Book, k: Key)
    requires NewAgrees(index, addrNew, s.news) && TriedAgrees(index, addrTried, s.trieds)
    requires !InSome(s.trieds, k) && forall b :: 0 <= b < |s.news| ==> k !in s.news[b]
    ensures NewAgrees(index - {k}, addrNew, s.news) && TriedAgrees(index - {k}, addrTried, s.trieds)
  {
    assert forall b, i :: 0 <= b < |s.trieds| && 0 <= i < |s.trieds[b]| ==>
             s.trieds[b][i] in s.trieds[b] && s.trieds[b][i] != k;
  }

  lemma PutAgrees(index: AddrMap, addrNew: seq<AddrMap>, news: seq<set<Key>>, b: nat, v: KnownAddress)
    requires NewAgrees(index, addrNew, news) && b < |addrNew| && v.key in index && index[v.key] == v
    ensures NewAgrees(index, addrNew[b := addrNew[b][v.key := v]], news[b := news[b] + {v.key}])
  {
  }

  lemma IndexedAgrees(index: AddrMap, addrNew: seq<AddrMap>, addrTried: seq<seq<KnownAddress>>, s: Book,
                      v: KnownAddress)
    requires NewAgrees(index, addrNew, s.news) && TriedAgrees(index, addrTried, s.trieds) && v.key !in index
    ensures NewAgrees(index[v.key := v], addrNew, s.news) && TriedAgrees(index[v.key := v], addrTried, s.trieds)
  {
  }

  lemma ReplaceAgrees(index: AddrMap, addrTried: seq<seq<KnownAddress>>, trieds: seq<seq<Key>>, tb: nat, place: nat,
                      v: KnownAddress)
    requires TriedAgrees(index, addrTried, trieds) && tb < |addrTried| && place < |addrTried[tb]|
    requires v.key in index && index[v.key] == v
    ensures TriedAgrees(index, addrTried[tb := addrTried[tb][place := v]], trieds[tb := trieds[tb][place := v.key]])
  {
  }

  lemma UnfileAgrees(index: AddrMap, before: seq<AddrMap>, after: seq<AddrMap>, s: Book, k: Key)
    requires NewAgrees(index, before, s.news) && k in s.refs
    requires |after| == |before| && forall b :: 0 <= b < |after| ==> after[b] == before[b] - {k}
    ensures NewAgrees(index, after, Unfile(s, k).news)
  {
  }

  class AddrManager {
    var addrIndex: AddrMap
    var addrNew: seq<AddrMap>
    var addrTried: seq<seq<KnownAddress>>
    var nTried: int
    var nNew: int
    /** Every known address that has ever been indexed. */
    ghost var known: set<KnownAddress>
    /** The bookkeeping these fields and the known addresses amount to. */
    ghost var book: Book

    /** A known address filed under k agrees with the book. */
    ghost predicate Agrees(k: Key, v: KnownAddress)
      reads this, v`refs, v`tried
    {
      && k in book.refs && v in known && v.key == k
      && v.refs == book.refs[k] && (v.tried <==> k in book.tried)
    }

    ghost predicate IndexAgrees()
      reads this, known`refs, known`tried
    {
      && addrIndex.Keys == book.refs.Keys && book.tried <= book.refs.Keys
      && forall k {:trigger addrIndex[k]} :: k in addrIndex ==> addrIndex[k] in known && Agrees(k, addrIndex[k])
    }

    /** Index and buckets share their known addresses, each filed under its own key, and match the book. */
    ghost predicate Coherent()
      reads this, known`refs, known`tried
    {
      && |addrNew| == NEW_BUCKET_COUNT && |addrTried| == TRIED_BUCKET_COUNT
      && IndexAgrees()
      && NewAgrees(addrIndex, addrNew, book.news)
      && TriedAgrees(addrIndex, addrTried, book.trieds)
      && nNew == book.nNew && nTried == book.nTried
    }

    ghost predicate Valid()
      reads this, known`refs, known`tried
    {
      Coherent() && Sealed(book, {})
    }

    ghost predicate Keyed()
      reads `addrIndex
    {
      forall k :: k in addrIndex ==> addrIndex[k].key == k
    }

    /** What the indexed addresses record. */
    ghost function Records(): map<Key, Record>
      reads `addrIndex, addrIndex.Values`timestamp, addrIndex.Values`services
      reads addrIndex.Values`attempts, addrIndex.Values`lastattempt, addrIndex.Values`lastsuccess
    {
      map k | k in addrIndex :: RecordOf(addrIndex[k])
    }

    ghost function Snapshot(): State
      reads `book, `addrIndex, addrIndex.Values`timestamp, addrIndex.Values`services
      reads addrIndex.Values`attempts, addrIndex.Values`lastattempt, addrIndex.Values`lastsuccess
    {
      State(book, Records())
    }

    /** The times of a new bucket are those on record. */
    lemma TimesAre(b: nat)
      requires Coherent() && b < |addrNew|
      ensures b < |book.news| && Times(addrNew[b]) == TimesOf(Snapshot(), b)
    {
    }

    /** The times of a tried bucket are those on record. */
    lemma StampsAre(tb: nat)
      requires Coherent() && tb < |addrTried|
      ensures tb < |book.trieds| && Stamps(addrTried[tb]) == StampsOf(Snapshot(), tb)
    {
    }

    constructor ()
      ensures Valid() && book == Empty() && known == {} && Records() == map[]
    {
      addrIndex := map[];
      addrNew := seq(NEW_BUCKET_COUNT, _ => map[]);
      addrTried := seq(TRIED_BUCKET_COUNT, _ => []);
      nTried, nNew := 0, 0;
      known, book := {}, Empty();
      EmptySealed();
    }

    /** Take an address out of a new bucket, and out of the index with its last reference. */
    method Remove(bucket: nat, k: Key)
      requires Coherent() && bucket < |book.news| && k in book.news[bucket] && k in book.refs && k !in book.tried
      requires book.refs[k] == 1 ==> forall c :: 0 <= c < |book.news| && k in book.news[c] ==> c == bucket
      requires !InSome(book.trieds, k)
      modifies this, known`refs
      ensures Coherent() && book == DropAll(old(book), bucket, {k}) && known == old(known)
      ensures Shrunk(old(addrIndex), addrIndex)
    {
      DropOne(book, bucket, k);
      var refs := Unlist(bucket, k);
      if refs == 0 {
        Forget(k);
      }
    }

    /** Out of the bucket, one reference less. */
    method Unlist(bucket: nat, k: Key) returns (refs: int)
      requires Coherent() && bucket < |book.news| && k in book.news[bucket] && k in book.refs
      modifies `addrNew, `book, known`refs
      ensures Coherent() && refs == book.refs[k]
      ensures book == old(book).(news := old(book).news[bucket := old(book).news[bucket] - {k}],
                                 refs := old(book).refs[k := old(book).refs[k] - 1])
    {
      var v := addrNew[bucket][k];
      UnlistAgrees(addrIndex, addrNew, book.news, bucket, k);
      addrNew := addrNew[bucket := addrNew[bucket] - {k}];
      v.refs := v.refs - 1;
      refs := v.refs;
      book := book.(news := book.news[bucket := book.news[bucket] - {k}], refs := book.refs[k := book.refs[k] - 1]);
    }

    /** Out of the index with the last reference. */
    method Forget(k: Key)
      requires Coherent() && k in book.refs && k !in book.tried && !InSome(book.trieds, k)
      requires forall b :: 0 <= b < |book.news| ==> k !in book.news[b]
      modifies `addrIndex, `nNew, `book
      ensures Coherent() && Shrunk(old(addrIndex), addrIndex)
      ensures book == old(book).(refs := old(book).refs - {k}, nNew := old(book).nNew - 1)
    {
      ForgetAgrees(addrIndex, addrNew, addrTried, book, k);
      nNew := nNew - 1;
      addrIndex := addrIndex - {k};
      book := book.(refs := book.refs - {k}, nNew := book.nNew - 1);
    }

    /** In the middle of an expiry of one bucket: exactly `gone` has been taken out of it. */
    ghost predicate Expiring(was: Book, bucket: nat, gone: set<Key>)
      reads this, known`refs, known`tried
    {
      && Coherent()
      && bucket < |was.news| && gone <= was.news[bucket] && gone <= was.refs.Keys
      && book == DropAll(was, bucket, gone)
    }

    /** One removal of an expiry in progress. */
    method Take(bucket: nat, k: Key, ghost was: Book, ghost gone: set<Key>, ghost pending: set<Key>)
      requires Sealed(was, pending) && Expiring(was, bucket, gone) && k in was.news[bucket] - gone
      modifies this, known`refs
      ensures Expiring(was, bucket, gone + {k}) && known == old(known) && Shrunk(old(addrIndex), addrIndex)
    {
      Removable(Unseal(was), bucket, gone, k, pending);
      Remove(bucket, k);
      DropOneMore(was, bucket, gone, k);
    }

    ghost predicate Walk(was: Book, bucket: nat, times: map<Key, int>, seen: set<Key>, bad: set<Key>, gone: set<Key>,
                         oldest: KnownAddress?)
      reads this, known`refs, known`tried, known`timestamp, oldest
    {
      && Expiring(was, bucket, gone) && was.news[bucket] == times.Keys && Dated(times)
      && Scanned(times, seen, bad, gone, KeyOf(oldest))
      && (oldest != null ==> oldest.timestamp == times[oldest.key])
    }

    ghost predicate Dated(times: map<Key, int>)
      reads this, known`timestamp
    {
      forall v :: v in known && v.key in times && v.key in addrIndex && addrIndex[v.key] == v ==>
        v.timestamp == times[v.key]
    }

    /** The traversal at one address: a bad one goes, another one may become the oldest seen. */
    method ExpireStep(bucket: nat, bad: set<Key>, k: Key, oldest: KnownAddress?, ghost pending: set<Key>,
                      ghost was: Book, ghost times: map<Key, int>, ghost seen: set<Key>, ghost gone: set<Key>)
      returns (next: KnownAddress?, ghost left: set<Key>)
      requires Sealed(was, pending) && Walk(was, bucket, times, seen, bad, gone, oldest)
      requires k in times && k !in seen
      modifies this, known`refs
      ensures Walk(was, bucket, times, seen + {k}, bad, left, next) && known == old(known)
              && Shrunk(old(addrIndex), addrIndex)
    {
      var v := addrNew[bucket][k];
      ScannedOneMore(times, seen, bad, gone, KeyOf(oldest), k);
      next, left := oldest, gone;
      if k in bad {
        Take(bucket, k, was, gone, pending);
        left := gone + {k};
      } else if oldest == null || v.timestamp <= oldest.timestamp {
        next := v;
      }
    }

    /** The end of the traversal: the oldest address that is not bad, if there is one, goes too. */
    method ExpireOldest(bucket: nat, bad: set<Key>, oldest: KnownAddress?, ghost pending: set<Key>, ghost was: Book,
                        ghost times: map<Key, int>, ghost gone: set<Key>)
      returns (ghost left: set<Key>)
      requires Sealed(was, pending) && Walk(was, bucket, times, times.Keys, bad, gone, oldest)
      modifies this, known`refs
      ensures Expiring(was, bucket, left) && Expiry(times, bad, left) && known == old(known)
              && Shrunk(old(addrIndex), addrIndex)
    {
      left := gone;
      if oldest != null {
        ScannedAll(times, times.Keys, bad, gone, oldest.key);
        Take(bucket, oldest.key, was, gone, pending);
        left := gone + {oldest.key};
      }
    }

    /** The traversal behind ExpireNew. */
    method ExpireSealed(bucket: nat, bad: set<Key>, ghost pending: set<Key>, ghost was: Book,
                        ghost times: map<Key, int>)
      returns (ghost gone: set<Key>)
      requires Sealed(was, pending) && Walk(was, bucket, times, {}, bad, {}, null)
      modifies this, known`refs
      ensures Expiring(was, bucket, gone) && Expiry(times, bad, gone) && known == old(known)
              && Shrunk(old(addrIndex), addrIndex)
    {
      var oldest: KnownAddress? := null;
      var todo := addrNew[bucket].Keys;
      ghost var seen: set<Key> := {};
      gone := {};
      while todo != {}
        invariant todo == times.Keys - seen && Walk(was, bucket, times, seen, bad, gone, oldest)
        invariant known == old(known) && Shrunk(old(addrIndex), addrIndex)
      {
        var k :| k in todo;
        oldest, gone := ExpireStep(bucket, bad, k, oldest, pending, was, times, seen, gone);
        seen, todo := seen + {k}, todo - {k};
      }
      gone := ExpireOldest(bucket, bad, oldest, pending, was, times, gone);
    }

    /**
     * Makes room in a new bucket: every bad address leaves it, and of the others one that no other precedes in time.
     */
    method ExpireNew(bucket: nat, bad: set<Key>, ghost pending: set<Key>) returns (ghost gone: set<Key>)
      requires Coherent() && Sealed(book, pending) && bucket < |addrNew|
      modifies this, known`refs
      ensures Expiring(old(book), bucket, gone) && known == old(known) && Shrunk(old(addrIndex), addrIndex)
      ensures Expiry(old(Times(addrNew[bucket])), bad, gone)
    {
      ghost var was, times := book, Times(addrNew[bucket]);
      DropNone(was, bucket);
      gone := ExpireSealed(bucket, bad, pending, was, times);
    }

    method PutNew(ka: KnownAddress, bucket: nat)
      requires Coherent() && bucket < |addrNew| && ka.key in addrIndex && addrIndex[ka.key] == ka
      modifies this, known`refs
      ensures Coherent() && book == Put(old(book), bucket, ka.key) && known == old(known)
      ensures addrIndex == old(addrIndex)
    {
      PutAgrees(addrIndex, addrNew, book.news, bucket, ka);
      ka.refs := ka.refs + 1;
      addrNew := addrNew[bucket := addrNew[bucket][ka.key := ka]];
      book := Put(book, bucket, ka.key);
    }

    /** Expires from a bucket that is over its size. */
    method MakeRoom(bucket: nat, bad: set<Key>, ghost pending: set<Key>) returns (ghost gone: set<Key>)
      requires Coherent() && Sealed(book, pending) && bucket < |addrNew|
      modifies this, known`refs
      ensures Expiring(old(book), bucket, gone) && known == old(known) && Shrunk(old(addrIndex), addrIndex)
      ensures |old(book).news[bucket]| - |gone| <= NEW_BUCKET_SIZE
      ensures if old(|addrNew[bucket]|) <= NEW_BUCKET_SIZE then gone == {}
              else Expiry(old(Times(addrNew[bucket])), bad, gone)
    {
      gone := {};
      SizesSealed(book, pending);
      if |addrNew[bucket]| > NEW_BUCKET_SIZE {
        ghost var times := Times(addrNew[bucket]);
        gone := ExpireNew(bucket, bad, pending);
        ExpiryNotEmpty(times, bad, gone);
      } else {
        DropNone(book, bucket);
      }
    }

    /** The end of updateAddress: put the address into a bucket unless it is there, making room first if need be. */
    method File(ka: KnownAddress, bucket: nat, bad: set<Key>, ghost pending: set<Key>) returns (ghost gone: set<Key>)
      requires Coherent() && Sealed(book, pending) && bucket < |addrNew|
      requires ka.key in addrIndex && addrIndex[ka.key] == ka && !ka.tried && ka.refs < NEW_BUCKETS_PER_ADDRESS
      requires pending == {} || (pending == {ka.key} && ka.refs == 0)
      modifies this, known`refs
      ensures Valid() && known == old(known) && Shrunk(old(addrIndex), addrIndex)
      ensures Filed(old(book), bucket, ka.key, gone, book)
      ensures if ka.key in old(book).news[bucket] || |old(book).news[bucket]| <= NEW_BUCKET_SIZE then gone == {}
              else Expiry(old(Times(addrNew[bucket])), bad, gone)
    {
      PendingSealed(book, bucket, ka.key, pending);
      if ka.key in addrNew[bucket] {
        return {};
      }
      ghost var was := book;
      gone := MakeRoom(bucket, bad, pending);
      FileSealed(was, bucket, ka.key, gone, pending);
      PutNew(ka, bucket);
    }

    /** Index an address that is not known yet. */
    method Index(na: NetAddress, srcAddr: NetAddress, ghost bucket: nat) returns (ka: KnownAddress)
      requires Coherent() && na.key !in addrIndex && bucket < |addrNew|
      modifies this
      ensures Coherent() && book == Learn(old(book), na.key) && fresh(ka) && known == old(known) + {ka}
      ensures addrIndex == old(addrIndex)[na.key := ka] && ka.key == na.key && !ka.tried && ka.refs == 0
      ensures RecordOf(ka) == Record(na.timestamp, na.services, srcAddr, 0, 0, 0)
      ensures |addrNew| == |old(addrNew)| && Times(addrNew[bucket]) == old(Times(addrNew[bucket]))
    {
      ka := new KnownAddress(na, srcAddr);
      IndexedAgrees(addrIndex, addrNew, addrTried, book, ka);
      addrIndex := addrIndex[na.key := ka];
      nNew := nNew + 1;
      known, book := known + {ka}, Learn(book, na.key);
    }

    /** Keep the later time and all services of an address heard of again. */
    method Refresh(ka: KnownAddress, na: NetAddress, ghost bucket: nat)
      requires Coherent() && bucket < |addrNew| && ka.key in addrIndex && addrIndex[ka.key] == ka && na.key == ka.key
      modifies ka`timestamp, ka`services
      ensures Coherent() && Records() == old(Records())[ka.key := Heard(old(Records()), na, na)]
      ensures ka.key !in addrNew[bucket] ==> Times(addrNew[bucket]) == old(Times(addrNew[bucket]))
    {
      assert na.services <= ka.services ==> ka.services + na.services == ka.services;
      if na.timestamp > ka.timestamp || !(na.services <= ka.services) {
        if na.timestamp > ka.timestamp {
          ka.timestamp := na.timestamp;
        }
        ka.services := ka.services + na.services;
      }
    }

    method UpdateKnown(ka: KnownAddress, na: NetAddress, dice: nat, bucket: nat, bad: set<Key>)
      returns (ghost gone: set<Key>)
      requires Valid() && bucket < NEW_BUCKET_COUNT
      requires na.key == ka.key && ka.key in addrIndex && addrIndex[ka.key] == ka
      modifies this, known
      ensures Valid() && known == old(known)
      ensures Updated(old(book), na.key, true, dice, bucket, gone, book)
      ensures Shrunk(old(Records())[na.key := Heard(old(Records()), na, na)], Records())
      ensures gone == {}
              || (|old(book).news[bucket]| > NEW_BUCKET_SIZE && Expiry(old(Times(addrNew[bucket])), bad, gone))
    {
      gone := {};
      Refresh(ka, na, bucket);
      if ka.tried || ka.refs == NEW_BUCKETS_PER_ADDRESS {
        return;
      }
      PendingSealed(book, bucket, na.key, {});
      var factor := 2 * ka.refs;
      assert factor > 0;
      if dice % factor != 0 {
        return;
      }
      gone := File(ka, bucket, bad, {});
    }

    /** The part of updateAddress for an address that is not known. */
    method IndexAndFile(na: NetAddress, srcAddr: NetAddress, bucket: nat, bad: set<Key>)
      returns (ka: KnownAddress, ghost gone: set<Key>)
      requires Valid() && bucket < NEW_BUCKET_COUNT && na.key !in addrIndex
      modifies this, known`refs
      ensures Valid() && fresh(ka) && known == old(known) + {ka}
      ensures Filed(Learn(old(book), na.key), bucket, na.key, gone, book)
      ensures Shrunk(old(addrIndex)[na.key := ka], addrIndex)
      ensures RecordOf(ka) == Record(na.timestamp, na.services, srcAddr, 0, 0, 0)
      ensures gone == {}
              || (|old(book).news[bucket]| > NEW_BUCKET_SIZE && Expiry(old(Times(addrNew[bucket])), bad, gone))
    {
      LearnSealed(book, na.key);
      ka := Index(na, srcAddr, bucket);
      gone := File(ka, bucket, bad, {na.key});
    }

    /** The same; the address records what was heard. */
    method UpdateNew(na: NetAddress, srcAddr: NetAddress, bucket: nat, bad: set<Key>)
      returns (ka: KnownAddress, ghost gone: set<Key>)
      requires Valid() && bucket < NEW_BUCKET_COUNT && na.key !in addrIndex
      modifies this, known`refs
      ensures Valid() && fresh(ka) && known == old(known) + {ka}
      ensures Filed(Learn(old(book), na.key), bucket, na.key, gone, book)
      ensures Shrunk(old(Records())[na.key := Heard(old(Records()), na, srcAddr)], Records())
      ensures gone == {}
              || (|old(book).news[bucket]| > NEW_BUCKET_SIZE && Expiry(old(Times(addrNew[bucket])), bad, gone))
    {
      ghost var heard := Records()[na.key := Heard(Records(), na, srcAddr)];
      ka, gone := IndexAndFile(na, srcAddr, bucket, bad);
      forall k | k in addrIndex
        ensures k in heard && RecordOf(addrIndex[k]) == heard[k]
      {
        assert k == na.key || addrIndex[k] == old(addrIndex)[k];
      }
    }

    /**
     * Learns of an address, or hears of a known one again.  `dice` is the random number drawn and `bucket` the
     * hashed new bucket; `bad` are the addresses found bad should the bucket have to be expired.
     */
    method UpdateAddress(na: NetAddress, srcAddr: NetAddress, routable: bool, dice: nat, bucket: nat, bad: set<Key>)
      returns (ghost gone: set<Key>)
      requires Valid() && bucket < NEW_BUCKET_COUNT
      modifies this, known
      ensures Valid() && fresh(known - old(known))
      ensures Updated(old(book), na.key, routable, dice, bucket, gone, book)
      ensures Shrunk(if routable then old(Records())[na.key := Heard(old(Records()), na, srcAddr)] else old(Records()),
                     Records())
      ensures gone == {}
              || (|old(book).news[bucket]| > NEW_BUCKET_SIZE && Expiry(old(Times(addrNew[bucket])), bad, gone))
    {
      if !routable {
        return {};
      }
      if na.key in addrIndex {
        gone := UpdateKnown(addrIndex[na.key], na, dice, bucket, bad);
      } else {
        var ka;
        ka, gone := UpdateNew(na, srcAddr, bucket, bad);
      }
    }

    /** Takes an address out of every new bucket; returns the first one it was in, or -1. */
    method ClearBuckets(ka: KnownAddress, ghost news: seq<set<Key>>) returns (oldBucket: int)
      requires |addrNew| == |news| && forall b :: 0 <= b < |news| ==> addrNew[b].Keys == news[b]
      modifies this`addrNew, ka`refs
      ensures |addrNew| == |news| && forall b :: 0 <= b < |news| ==> addrNew[b] == old(addrNew)[b] - {ka.key}
      ensures ka.refs == old(ka.refs) - |Holders(news, ka.key)|
      ensures if oldBucket == -1 then forall b :: 0 <= b < |news| ==> ka.key !in news[b]
              else FirstHolder(news, ka.key, oldBucket)
    {
      oldBucket := -1;
      for i := 0 to |addrNew|
        invariant |addrNew| == |news|
        invariant forall b :: 0 <= b < i ==> addrNew[b] == old(addrNew)[b] - {ka.key}
        invariant forall b :: i <= b < |news| ==> addrNew[b] == old(addrNew)[b]
        invariant ka.refs == old(ka.refs) - |HoldersBelow(news, i, ka.key)|
        invariant if oldBucket == -1 then forall b :: 0 <= b < i ==> ka.key !in news[b]
                  else oldBucket < i && FirstHolder(news, ka.key, oldBucket)
      {
        HoldersSnoc(news, i, ka.key);
        if ka.key in addrNew[i] {
          addrNew := addrNew[i := addrNew[i] - {ka.key}];
          ka.refs := ka.refs - 1;
          if oldBucket == -1 {
            oldBucket := i;
          }
        }
      }
      assert HoldersBelow(news, |news|, ka.key) == Holders(news, ka.key);
    }

    /** The new buckets without the address; some bucket held it. */
    method ClearAll(ka: KnownAddress) returns (oldBucket: int)
      requires |addrNew| == |book.news| && NewAgrees(addrIndex, addrNew, book.news) && ka.key in book.refs
      requires Holders(book.news, ka.key) != {}
      modifies `addrNew, ka`refs
      ensures |addrNew| == |old(addrNew)| && NewAgrees(addrIndex, addrNew, Unfile(book, ka.key).news)
      ensures ka.refs == old(ka.refs) - |Holders(book.news, ka.key)| && FirstHolder(book.news, ka.key, oldBucket)
    {
      oldBucket := ClearBuckets(ka, book.news);
      assert oldBucket != -1;
      UnfileAgrees(addrIndex, old(addrNew), addrNew, book, ka.key);
    }

    /** The first stage of a promotion: out of every new bucket, the first of which is `oldBucket`. */
    method UnfileAll(ka: KnownAddress) returns (oldBucket: int)
      requires Coherent() && ka.key in addrIndex && addrIndex[ka.key] == ka && Holders(book.news, ka.key) != {}
      modifies `addrNew, `nNew, `book, ka`refs
      ensures Coherent() && book == Unfile(old(book), ka.key)
      ensures FirstHolder(old(book).news, ka.key, oldBucket)
    {
      oldBucket := ClearAll(ka);
      nNew := nNew - 1;
      book := Unfile(book, ka.key);
    }

    /** The place of the earliest address of a tried bucket, the first one among equals. */
    method PickTried(bucket: nat) returns (place: nat)
      requires bucket < |addrTried| && |addrTried[bucket]| > 0
      ensures Earliest(Stamps(addrTried[bucket]), |addrTried[bucket]|, place)
    {
      place := 0;
      for i := 1 to |addrTried[bucket]|
        invariant Earliest(Stamps(addrTried[bucket]), i, place)
      {
        if addrTried[bucket][place].timestamp > addrTried[bucket][i].timestamp {
          place := i;
        }
      }
    }

    method PushTried(ka: KnownAddress, tb: nat)
      requires Coherent() && ka.key in addrIndex && addrIndex[ka.key] == ka && tb < |addrTried|
      modifies this, ka`tried
      ensures Coherent() && book == Promote(old(book), ka.key, tb) && known == old(known)
      ensures addrIndex == old(addrIndex)
    {
      ka.tried := true;
      addrTried := addrTried[tb := addrTried[tb] + [ka]];
      nTried := nTried + 1;
      book := Promote(book, ka.key, tb);
    }

    /** An address takes a place in a tried bucket. */
    method ReplaceTried(ka: KnownAddress, tb: nat, place: nat)
      requires Coherent() && ka.key in addrIndex && addrIndex[ka.key] == ka
      requires tb < |addrTried| && place < |addrTried[tb]|
      modifies `addrTried, `book, ka`tried
      ensures Coherent()
      ensures book == old(book).(tried := old(book).tried + {ka.key},
                                 trieds := old(book).trieds[tb := old(book).trieds[tb][place := ka.key]])
    {
      ReplaceAgrees(addrIndex, addrTried, book.trieds, tb, place, ka);
      ka.tried := true;
      addrTried := addrTried[tb := addrTried[tb][place := ka]];
      book := book.(tried := book.tried + {ka.key}, trieds := book.trieds[tb := book.trieds[tb][place := ka.key]]);
    }

    /** An address that lost its place goes back to a new bucket. */
    method BackToNew(rmka: KnownAddress, nb: nat)
      requires Coherent() && rmka.key in addrIndex && addrIndex[rmka.key] == rmka && nb < |addrNew|
      modifies `nNew, `addrNew, `book, rmka`tried, rmka`refs
      ensures Coherent() && rmka.key in old(book).refs
      ensures book == old(book).(refs := old(book).refs[rmka.key := old(book).refs[rmka.key] + 1],
                                 tried := old(book).tried - {rmka.key},
                                 news := old(book).news[nb := old(book).news[nb] + {rmka.key}],
                                 nNew := old(book).nNew + 1)
    {
      PutAgrees(addrIndex, addrNew, book.news, nb, rmka);
      rmka.tried := false;
      rmka.refs := rmka.refs + 1;
      nNew := nNew + 1;
      addrNew := addrNew[nb := addrNew[nb][rmka.key := rmka]];
      book := book.(refs := book.refs[rmka.key := book.refs[rmka.key] + 1], tried := book.tried - {rmka.key},
                    news := book.news[nb := book.news[nb] + {rmka.key}], nNew := book.nNew + 1);
    }

    method SwapTried(ka: KnownAddress, tb: nat, place: nat, nb: nat)
      requires Coherent() && ka.key in addrIndex && addrIndex[ka.key] == ka
      requires tb < |addrTried| && place < |addrTried[tb]| && nb < |addrNew|
      requires ka != addrTried[tb][place]
      modifies this, known`tried, known`refs
      ensures old(book).trieds[tb][place] in old(book).refs
      ensures Coherent() && book == Displace(old(book), ka.key, tb, place, nb) && known == old(known)
      ensures addrIndex == old(addrIndex)
    {
      var rmka := addrTried[tb][place];
      ReplaceTried(ka, tb, place);
      BackToNew(rmka, nb);
    }

    /** The last stage of a promotion into a tried bucket with room. */
    method Append(ka: KnownAddress, tb: nat, ghost nb: nat, ghost first: nat, ghost was: Book,
                  ghost stamps: map<nat, int>)
      requires Coherent() && ka.key in addrIndex && addrIndex[ka.key] == ka && !ka.tried
      requires Sealed(was, {}) && ka.key in was.refs && ka.key !in was.tried && book == Unfile(was, ka.key)
      requires tb < |was.trieds| && |was.trieds[tb]| < TRIED_BUCKET_SIZE && nb < |was.news|
               && FirstHolder(was.news, ka.key, first)
      modifies this, known`tried
      ensures Valid() && known == old(known) && addrIndex == old(addrIndex)
      ensures Moved(was, ka.key, tb, nb, stamps, 0, first, book)
    {
      PromoteSealed(was, ka.key, tb);
      PushTried(ka, tb);
    }

    /** The last stage of a promotion into a full tried bucket. */
    method Evict(ka: KnownAddress, tb: nat, nb: nat, first: nat, ghost was: Book) returns (ghost place: nat)
      requires Coherent() && ka.key in addrIndex && addrIndex[ka.key] == ka && !ka.tried
      requires Sealed(was, {}) && ka.key in was.refs && ka.key !in was.tried && book == Unfile(was, ka.key)
      requires tb < |was.trieds| && |was.trieds[tb]| >= TRIED_BUCKET_SIZE && nb < |was.news|
               && FirstHolder(was.news, ka.key, first)
      modifies this, known`tried, known`refs
      ensures Valid() && known == old(known) && addrIndex == old(addrIndex)
      ensures Moved(was, ka.key, tb, nb, old(Stamps(addrTried[tb])), place, first, book)
    {
      var entry := PickTried(tb);
      var newBucket := if |addrNew[nb]| >= NEW_BUCKET_SIZE then first else nb;
      UnfileSealed(was, ka.key, nb);
      UnfileSealed(was, ka.key, first);
      DisplaceSealed(was, ka.key, tb, entry, newBucket);
      SwapTried(ka, tb, entry, newBucket);
      place := entry;
    }

    /** The part of Good that moves an address which has not been tried. */
    method MoveToTried(ka: KnownAddress, tb: nat, nb: nat) returns (ghost place: nat, ghost first: nat)
      requires Valid() && tb < TRIED_BUCKET_COUNT && nb < NEW_BUCKET_COUNT
      requires ka.key in addrIndex && addrIndex[ka.key] == ka && !ka.tried
      modifies this, known`tried, known`refs
      ensures Valid() && known == old(known) && addrIndex == old(addrIndex)
      ensures Moved(old(book), ka.key, tb, nb, old(Stamps(addrTried[tb])), place, first, book)
    {
      ghost var was := book;
      var oldBucket := LeaveNew(ka, tb);
      first := oldBucket;
      place := Settle(ka, tb, nb, oldBucket, was);
    }

    /** The same; what the addresses record does not change. */
    method MoveAndRecord(ka: KnownAddress, tb: nat, nb: nat) returns (ghost place: nat, ghost first: nat)
      requires Valid() && tb < TRIED_BUCKET_COUNT && nb < NEW_BUCKET_COUNT
      requires ka.key in addrIndex && addrIndex[ka.key] == ka && !ka.tried
      modifies this, known`tried, known`refs
      ensures Valid() && known == old(known) && Records() == old(Records())
      ensures Moved(old(book), ka.key, tb, nb, old(Stamps(addrTried[tb])), place, first, book)
    {
      ghost var records := Records();
      place, first := MoveToTried(ka, tb, nb);
      forall k | k in addrIndex
        ensures k in records && RecordOf(addrIndex[k]) == records[k]
      {
      }
    }

    /** The first stage of a promotion changes nothing about the tried buckets and their times. */
    method LeaveNew(ka: KnownAddress, ghost tb: nat) returns (oldBucket: int)
      requires Valid() && tb < |addrTried| && ka.key in addrIndex && addrIndex[ka.key] == ka && !ka.tried
      modifies this, ka`refs
      ensures Coherent() && known == old(known) && addrIndex == old(addrIndex) && addrTried == old(addrTried)
      ensures ka.key in old(book).refs && ka.key !in old(book).tried && book == Unfile(old(book), ka.key)
      ensures FirstHolder(old(book).news, ka.key, oldBucket)
      ensures Stamps(addrTried[tb]) == old(Stamps(addrTried[tb]))
    {
      UnfileSealed(book, ka.key, 0);
      oldBucket := UnfileAll(ka);
    }

    /** The second stage of a promotion, into a tried bucket with room or a full one. */
    method Settle(ka: KnownAddress, tb: nat, nb: nat, first: nat, ghost was: Book) returns (ghost place: nat)
      requires Coherent() && ka.key in addrIndex && addrIndex[ka.key] == ka && !ka.tried
      requires Sealed(was, {}) && ka.key in was.refs && ka.key !in was.tried && book == Unfile(was, ka.key)
      requires tb < |was.trieds| && nb < |was.news| && FirstHolder(was.news, ka.key, first)
      modifies this, known`tried, known`refs
      ensures Valid() && known == old(known) && addrIndex == old(addrIndex)
      ensures Moved(was, ka.key, tb, nb, old(Stamps(addrTried[tb])), place, first, book)
    {
      place := 0;
      if |addrTried[tb]| < TRIED_BUCKET_SIZE {
        Append(ka, tb, nb, first, was, Stamps(addrTried[tb]));
      } else {
        place := Evict(ka, tb, nb, first, was);
      }
    }

    /** Note a successful connection. */
    method Touch(ka: KnownAddress, now: int, ghost tb: nat)
      requires Keyed() && ka.key in addrIndex && addrIndex[ka.key] == ka && tb < |addrTried|
      modifies ka`lastsuccess, ka`lastattempt, ka`attempts
      ensures Records() == Touched(old(Records()), ka.key, now)
      ensures Stamps(addrTried[tb]) == old(Stamps(addrTried[tb]))
    {
      ka.lastsuccess, ka.lastattempt, ka.attempts := now, now, 0;
    }

    /**
     * Marks an address as good: it moves from the new buckets to a tried bucket.  If that is full the earliest
     * address there goes back to the new bucket `nb`, or to the bucket just vacated when that one is full.
     */
    method Good(key: Key, tb: nat, nb: nat, now: int) returns (ghost place: nat, ghost first: nat)
      requires Valid() && tb < TRIED_BUCKET_COUNT && nb < NEW_BUCKET_COUNT
      modifies this, known
      ensures Valid() && known == old(known)
      ensures if key !in old(book).refs || key in old(book).tried then book == old(book)
              else Moved(old(book), key, tb, nb, old(Stamps(addrTried[tb])), place, first, book)
      ensures Records() == Touched(old(Records()), key, now)
    {
      place, first := 0, 0;
      if key !in addrIndex {
        return;
      }
      var ka := addrIndex[key];
      assert Keyed();
      Touch(ka, now, tb);
      if ka.tried {
        return;
      }
      place, first := MoveAndRecord(ka, tb, nb);
    }

    method Attempt(key: Key, now: int)
      requires Valid()
      modifies known`attempts, known`lastattempt
      ensures Valid() && Records() == Attempted(old(Records()), key, now)
    {
      if key in addrIndex {
        var ka := addrIndex[key];
        ka.attempts, ka.lastattempt := ka.attempts + 1, now;
      }
    }

    /** The time of an address is renewed once twenty minutes have passed. */
    method Connected(key: Key, now: int)
      requires Valid()
      modifies known`timestamp
      ensures Valid() && Records() == Renewed(old(Records()), key, now)
    {
      if key in addrIndex && now > addrIndex[key].timestamp + 1200 {
        addrIndex[key].timestamp := now;
      }
    }

    method SetServices(key: Key, services: set<nat>)
      requires Valid()
      modifies known`services
      ensures Valid() && Records() == Serving(old(Records()), key, services)
    {
      if key in addrIndex {
        addrIndex[key].services := services;
      }
    }
  }

  /** The calls of a run; hashes stand for the bucket hashes before they are reduced. */
  datatype Op =
    | Add(na: NetAddress, srcAddr: NetAddress, routable: bool, dice: nat, hash: nat, bad: set<Key>)
    | MarkGood(key: Key, triedHash: nat, newHash: nat, now: int)
    | MarkAttempt(key: Key, now: int)
    | MarkConnected(key: Key, now: int)
    | MarkServices(key: Key, services: set<nat>)

  /** What a manager knows: the bookkeeping and what each address records. */
  datatype State = State(book: Book, records: map<Key, Record>)

  ghost function TimesOf(s: State, b: nat): map<Key, int>
    requires b < |s.book.news|
  {
    map k | k in s.book.news[b] && k in s.records :: s.records[k].timestamp
  }

  ghost function StampsOf(s: State, tb: nat): map<nat, int>
    requires tb < |s.book.trieds|
  {
    map i: nat | i < |s.book.trieds[tb]| && s.book.trieds[tb][i] in s.records ::
        s.records[s.book.trieds[tb][i]].timestamp
  }

  /** A call of updateAddress that expired `gone` from its bucket. */
  ghost predicate Added(was: State, op: Op, gone: set<Key>, now: State)
    requires op.Add?
  {
    var b := op.hash % NEW_BUCKET_COUNT;
    && b < |was.book.news| && Updated(was.book, op.na.key, op.routable, op.dice, b, gone, now.book)
    && (gone == {} || (|was.book.news[b]| > NEW_BUCKET_SIZE && Expiry(TimesOf(was, b), op.bad, gone)))
    && now.records.Keys == now.book.refs.Keys
    && Shrunk(if op.routable then was.records[op.na.key := Heard(was.records, op.na, op.srcAddr)] else was.records,
              now.records)
  }

  /** A call of Good that moved an address from the new buckets, the first of them `first`, to a tried bucket. */
  ghost predicate Marked(was: State, op: Op, place: nat, first: nat, now: State)
    requires op.MarkGood?
  {
    var tb, nb := op.triedHash % TRIED_BUCKET_COUNT, op.newHash % NEW_BUCKET_COUNT;
    tb < |was.book.trieds| && Moved(was.book, op.key, tb, nb, StampsOf(was, tb), place, first, now.book)
  }

  /** What one call may do to a state. */
  ghost predicate Follows(was: State, op: Op, now: State)
  {
    match op
    case Add(_, _, _, _, _, _) => exists gone :: Added(was, op, gone, now)
    case MarkGood(key, _, _, time) =>
      && now.records == Touched(was.records, key, time)
      && if key !in was.book.refs || key in was.book.tried then now.book == was.book
         else exists place, first :: Marked(was, op, place, first, now)
    case MarkAttempt(key, time) => now == was.(records := Attempted(was.records, key, time))
    case MarkConnected(key, time) => now == was.(records := Renewed(was.records, key, time))
    case MarkServices(key, services) => now == was.(records := Serving(was.records, key, services))
  }

  ghost predicate SealedFollows(was: State, op: Op, now: State)
  {
    forall x {:trigger Unseal(x)} :: x == now ==> Follows(was, op, x)
  }

  ghost predicate SealedTrace(ops: seq<Op>, states: seq<State>)
  {
    && |states| == |ops| + 1
    && (forall i :: 0 <= i < |ops| ==> SealedFollows(states[i], ops[i], states[i + 1]))
    && (forall i :: 0 <= i < |states| ==> Sealed(states[i].book, {}))
  }

  lemma TraceGrows(ops: seq<Op>, states: seq<State>, op: Op, next: State)
    requires SealedTrace(ops, states) && SealedFollows(states[|ops|], op, next) && Sealed(next.book, {})
    ensures SealedTrace(ops + [op], states + [next])
  {
  }

  lemma Opened(ops: seq<Op>, states: seq<State>, i: nat)
    requires SealedTrace(ops, states) && i <= |ops|
    ensures Inv(states[i].book)
    ensures i < |ops| ==> Follows(states[i], ops[i], states[i + 1])
  {
    SealedIsInv(states[i].book, {});
    if i < |ops| {
      assert Follows(states[i], ops[i], Unseal(states[i + 1]));
    }
  }

  /**
   * Every run from a fresh manager goes from the empty state through one that follows each call, and the bookkeeping
   * is coupled all along.
   */
  method Run(ops: seq<Op>) returns (a: AddrManager, ghost states: seq<State>)
    ensures |states| == |ops| + 1 && states[0] == State(Empty(), map[])
    ensures forall i :: 0 <= i < |ops| ==> Follows(states[i], ops[i], states[i + 1])
    ensures forall i :: 0 <= i <= |ops| ==> Inv(states[i].book)
    ensures a.Valid() && states[|ops|] == a.Snapshot()
  {
    a, states := Calls(ops);
    forall i | 0 <= i <= |ops|
      ensures Inv(states[i].book)
      ensures i < |ops| ==> Follows(states[i], ops[i], states[i + 1])
    {
      Opened(ops, states, i);
    }
  }

  method Calls(ops: seq<Op>) returns (a: AddrManager, ghost states: seq<State>)
    ensures SealedTrace(ops, states) && states[0] == State(Empty(), map[])
    ensures a.Valid() && states[|ops|] == a.Snapshot()
  {
    a := new AddrManager();
    states := [a.Snapshot()];
    for i := 0 to |ops|
      invariant fresh(a) && fresh(a.known) && a.Valid() && SealedTrace(ops[..i], states)
      invariant states[0] == State(Empty(), map[]) && states[i] == a.Snapshot()
    {
      Call(a, ops[i]);
      TraceGrows(ops[..i], states, ops[i], a.Snapshot());
      assert ops[..i] + [ops[i]] == ops[..i + 1];
      states := states + [a.Snapshot()];
    }
    assert ops[..|ops|] == ops;
  }

  method Call(a: AddrManager, op: Op)
    requires a.Valid()
    modifies a, a.known
    ensures a.Valid() && fresh(a.known - old(a.known)) && SealedFollows(old(a.Snapshot()), op, a.Snapshot())
  {
    CallOpen(a, op);
  }

  method CallOpen(a: AddrManager, op: Op)
    requires a.Valid()
    modifies a, a.known
    ensures a.Valid() && fresh(a.known - old(a.known)) && Follows(old(a.Snapshot()), op, a.Snapshot())
  {
    match op
    case Add(_, _, _, _, _, _) => CallAdd(a, op);
    case MarkGood(_, _, _, _) => CallGood(a, op);
    case MarkAttempt(key, now) => a.Attempt(key, now);
    case MarkConnected(key, now) => a.Connected(key, now);
    case MarkServices(key, services) => a.SetServices(key, services);
  }

  method CallAdd(a: AddrManager, op: Op)
    requires a.Valid() && op.Add?
    modifies a, a.known
    ensures a.Valid() && fresh(a.known - old(a.known)) && Follows(old(a.Snapshot()), op, a.Snapshot())
  {
    ghost var was := a.Snapshot();
    a.TimesAre(op.hash % NEW_BUCKET_COUNT);
    ghost var gone := a.UpdateAddress(op.na, op.srcAddr, op.routable, op.dice, op.hash % NEW_BUCKET_COUNT, op.bad);
    assert Added(was, op, gone, a.Snapshot());
  }

  method CallGood(a: AddrManager, op: Op)
    requires a.Valid() && op.MarkGood?
    modifies a, a.known
    ensures a.Valid() && a.known == old(a.known) && Follows(old(a.Snapshot()), op, a.Snapshot())
  {
    ghost var was := a.Snapshot();
    a.StampsAre(op.triedHash % TRIED_BUCKET_COUNT);
    ghost var place, first :=
      a.Good(op.key, op.triedHash % TRIED_BUCKET_COUNT, op.newHash % NEW_BUCKET_COUNT, op.now);
    assert op.key !in was.book.refs || op.key in was.book.tried || Marked(was, op, place, first, a.Snapshot());
  }

  // ---------- the documented size of a new bucket ----------

  /** The book after the first n of a row of addresses have been added, all hashed to the first new bucket. */
  ghost function Crowd(n: nat): (s: Book)
    ensures |s.news| == NEW_BUCKET_COUNT && s.tried == {}
    ensures forall k :: k in s.refs <==> k.host == "" && k.port < n
    ensures forall k :: k in s.news[0] <==> k in s.refs
  {
    if n == 0 then Empty() else Put(Learn(Crowd(n - 1), Key("", n - 1)), 0, Key("", n - 1))
  }

  /**
   * A new bucket may hold one address more than the size documented as its maximum: each of the first 65 additions
   * to one bucket goes through without an expiry, and then the bucket holds 65.
   */
  lemma {:induction false} BucketExceedsDocumentedSize(n: nat)
    requires n <= NEW_BUCKET_SIZE + 1
    ensures |Crowd(n).news[0]| == n && Sealed(Crowd(n), {})
    ensures n > 0 ==> Updated(Crowd(n - 1), Key("", n - 1), true, 0, 0, {}, Crowd(n))
  {
    if n == 0 {
      EmptySealed();
    } else {
      BucketExceedsDocumentedSize(n - 1);
      CrowdGrows(Crowd(n - 1), Key("", n - 1));
    }
  }

  /** Hearing of k leads to filing it: it is unknown, or new with fewer than eight references and the draw allows it. */
  predicate Files(was: Book, k: Key, routable: bool, dice: nat)
  {
    && routable
    && (k in was.refs ==> k !in was.tried && 0 < was.refs[k] < NEW_BUCKETS_PER_ADDRESS && dice % (2 * was.refs[k]) == 0)
  }

  /**
   * Exactly when a new bucket b is over its documented size after hearing of k: either it was and is not touched, or k
   * has just been filed in it and before that it held exactly 64, or 65 of which none was bad.
   */
  lemma OverSizeAfterUpdate(was: Book, k: Key, routable: bool, dice: nat, bucket: nat, bad: set<Key>,
                            times: map<Key, int>, gone: set<Key>, now: Book, b: nat)
    requires Inv(was) && Inv(now) && bucket < |was.news| && b < |was.news| && times.Keys == was.news[bucket]
    requires Updated(was, k, routable, dice, bucket, gone, now)
    requires gone == {} || (|was.news[bucket]| > NEW_BUCKET_SIZE && Expiry(times, bad, gone))
    ensures |now.news[b]| > NEW_BUCKET_SIZE <==>
              if b == bucket && Files(was, k, routable, dice) && k !in was.news[b]
              then |was.news[b]| == NEW_BUCKET_SIZE || (|was.news[b]| > NEW_BUCKET_SIZE && was.news[b] !! bad)
              else |was.news[b]| > NEW_BUCKET_SIZE
  {
    if b == bucket && Files(was, k, routable, dice) && k !in was.news[b] {
      FiledSize(if k in was.refs then was else Learn(was, k), b, k, gone, now);
      if |was.news[b]| > NEW_BUCKET_SIZE {
        BookSizes(now, b);
        if gone != {} {
          ExpirySize(times, bad, gone);
        }
      }
    } else {
      assert Counted(was, k, {});
      UnfiledSize(was, k, routable, dice, bucket, gone, now, b);
    }
  }

  lemma BookSizes(s: Book, b: nat)
    requires Inv(s) && b < |s.news|
    ensures |s.news[b]| <= NEW_BUCKET_SIZE + 1
  {
  }

  lemma FiledSize(was: Book, b: nat, k: Key, gone: set<Key>, now: Book)
    requires Filed(was, b, k, gone, now) && k !in was.news[b]
    ensures b < |now.news| && |now.news[b]| == |was.news[b]| - |gone| + 1
  {
    SizeMinus(was.news[b], gone);
  }

  lemma UnfiledSize(was: Book, k: Key, routable: bool, dice: nat, bucket: nat, gone: set<Key>, now: Book, b: nat)
    requires bucket < |was.news| && b < |was.news| && Updated(was, k, routable, dice, bucket, gone, now)
    requires b != bucket || !Files(was, k, routable, dice) || k in was.news[b]
    requires k in was.news[b] ==> k in was.refs
    requires k in was.refs && k !in was.tried ==> was.refs[k] <= NEW_BUCKETS_PER_ADDRESS
    ensures b < |now.news| && now.news[b] == was.news[b]
  {
  }

  /** An expiry takes exactly one address from a bucket of several if and only if none of them is bad. */
  lemma ExpirySize(times: map<Key, int>, bad: set<Key>, gone: set<Key>)
    requires Expiry(times, bad, gone) && |times.Keys| > 1
    ensures |gone| >= 1 && (|gone| == 1 <==> times.Keys !! bad)
  {
    if !(times.Keys <= bad) {
      var k :| gone == times.Keys * bad + {k} && IsOldest(times, times.Keys - bad, k);
      assert |gone| == |times.Keys * bad| + 1;
    }
    if times.Keys !! bad {
      assert times.Keys * bad == {};
    } else {
      var x :| x in times.Keys && x in bad;
      assert x in times.Keys * bad;
    }
  }

  /**
   * A promotion never lifts a new bucket above its documented size: exactly those are above it afterwards that were
   * before and kept their number, not holding k or being the one that took the displaced address in its place.
   */
  lemma OverSizeAfterGood(was: Book, k: Key, tb: nat, nb: nat, stamps: map<nat, int>, place: nat, first: nat,
                          now: Book, b: nat)
    requires Inv(was) && k !in was.tried && Moved(was, k, tb, nb, stamps, place, first, now) && b < |was.news|
    ensures |now.news[b]| > NEW_BUCKET_SIZE <==>
              && |was.news[b]| > NEW_BUCKET_SIZE
              && (k !in was.news[b]
                  || (b == first && |was.trieds[tb]| >= TRIED_BUCKET_SIZE && |was.news[nb] - {k}| >= NEW_BUCKET_SIZE))
  {
    UnfileFacts(was, k);
    if |was.trieds[tb]| >= TRIED_BUCKET_SIZE {
      EitherTriedOrNew(was, was.trieds[tb][place]);
    }
  }

  lemma CrowdGrows(s: Book, k: Key)
    requires Sealed(s, {}) && |s.news| > 0 && k !in s.refs && k !in s.tried && k !in s.news[0]
             && |s.news[0]| <= NEW_BUCKET_SIZE
    ensures var t := Put(Learn(s, k), 0, k);
      Sealed(t, {}) && Updated(s, k, true, 0, 0, {}, t) && |t.news[0]| == |s.news[0]| + 1
  {
    LearnSealed(s, k);
    DropNone(Learn(s, k), 0);
    FileSealed(Learn(s, k), 0, k, {}, {k});
  }

  /**
   * The book after k has been promoted to tried bucket tb, whose addresses carry the given times; `first` is the
   * first new bucket k was in.
   */
  ghost predicate Moved(was: Book, k: Key, tb: nat, nb: nat, stamps: map<nat, int>, place: nat, first: nat, now: Book)
  {
    && k in was.refs && tb < |was.trieds| && nb < |was.news| && FirstHolder(was.news, k, first)
    && if |was.trieds[tb]| < TRIED_BUCKET_SIZE then now == Promote(Unfile(was, k), k, tb)
       else
         && place < |was.trieds[tb]| && was.trieds[tb][place] in was.refs
         && Earliest(stamps, |was.trieds[tb]|, place)
         && now == Displace(Unfile(was, k), k, tb, place, if |was.news[nb] - {k}| >= NEW_BUCKET_SIZE then first else nb)
  }

  ghost function Stamps(s: seq<KnownAddress>): map<nat, int>
    reads s`timestamp
  {
    map i: nat | i < |s| :: s[i].timestamp
  }

  /** The first of the least among the first n. */
  ghost predicate Earliest(stamps: map<nat, int>, n: nat, place: nat)
  {
    && place < n && place in stamps
    && (forall j: nat :: j < n && j in stamps ==> stamps[place] <= stamps[j])
    && (forall j: nat :: j < place && j in stamps ==> stamps[place] < stamps[j])
  }

  ghost predicate FirstHolder(news: seq<set<Key>>, k: Key, b: int)
  {
    0 <= b < |news| && k in news[b] && forall c :: 0 <= c < b ==> k !in news[c]
  }

  function HoldersBelow(news: seq<set<Key>>, n: nat, k: Key): set<nat>
    requires n <= |news|
  {
    set b: nat | b < n && k in news[b]
  }

  lemma HoldersSnoc(news: seq<set<Key>>, i: nat, k: Key)
    requires i < |news|
    ensures |HoldersBelow(news, i + 1, k)| == |HoldersBelow(news, i, k)| + if k in news[i] then 1 else 0
  {
    assert HoldersBelow(news, i + 1, k) == HoldersBelow(news, i, k) + if k in news[i] then {i} else {};
  }

  /** The book after hearing of k. */
  ghost predicate Updated(was: Book, k: Key, routable: bool, dice: nat, bucket: nat, gone: set<Key>, now: Book)
  {
    if !routable then now == was
    else if k !in was.refs then Filed(Learn(was, k), bucket, k, gone, now)
    else if k in was.tried || was.refs[k] == NEW_BUCKETS_PER_ADDRESS then now == was
    else was.refs[k] > 0 && if dice % (2 * was.refs[k]) != 0 then now == was else Filed(was, bucket, k, gone, now)
  }

  lemma ExpiryNotEmpty(times: map<Key, int>, bad: set<Key>, gone: set<Key>)
    requires Expiry(times, bad, gone) && |times.Keys| > 0
    ensures gone != {} && |gone| >= 1
  {
  }

  /** The book after filing k in a bucket that `gone` was expired from. */
  ghost predicate Filed(was: Book, bucket: nat, k: Key, gone: set<Key>, now: Book)
  {
    && bucket < |was.news| && k in was.refs && gone <= was.news[bucket] && gone <= was.refs.Keys
    && if k in was.news[bucket] then now == was
       else k in DropAll(was, bucket, gone).refs && now == Put(DropAll(was, bucket, gone), bucket, k)
  }

  ghost function Times(bucket: AddrMap): map<Key, int>
    reads bucket.Values`timestamp
  {
    map k | k in bucket :: bucket[k].timestamp
  }

  ghost predicate IsOldest(times: map<Key, int>, among: set<Key>, k: Key)
  {
    k in among && k in times && forall x :: x in among && x in times ==> times[k] <= times[x]
  }

  /** Progress of an expiry: `gone` are the bad addresses seen so far, `oldest` the oldest of the others. */
  ghost predicate Scanned(times: map<Key, int>, seen: set<Key>, bad: set<Key>, gone: set<Key>, oldest: Option<Key>)
  {
    && seen <= times.Keys
    && gone == seen * bad
    && match oldest
       case None => seen <= bad
       case Some(k) => IsOldest(times, seen - bad, k)
  }

  ghost function KeyOf(v: KnownAddress?): Option<Key>
  {
    if v == null then None else Some(v.key)
  }

  lemma ScannedOneMore(times: map<Key, int>, seen: set<Key>, bad: set<Key>, gone: set<Key>, oldest: Option<Key>, k: Key)
    requires Scanned(times, seen, bad, gone, oldest) && k in times && k !in seen
    ensures k in bad ==> Scanned(times, seen + {k}, bad, gone + {k}, oldest)
    ensures k !in bad && (oldest.None? || times[k] <= times[oldest.value]) ==>
              Scanned(times, seen + {k}, bad, gone, Some(k))
    ensures k !in bad && oldest.Some? && times[oldest.value] < times[k] ==>
              Scanned(times, seen + {k}, bad, gone, oldest)
  {
  }

  lemma ScannedAll(times: map<Key, int>, seen: set<Key>, bad: set<Key>, gone: set<Key>, oldest: Key)
    requires Scanned(times, seen, bad, gone, Some(oldest)) && times.Keys == seen
    ensures oldest in times.Keys - gone && Expiry(times, bad, gone + {oldest})
  {
  }

  /** All bad addresses of a bucket and, if there are others, exactly one of those, an oldest one. */
  ghost predicate Expiry(times: map<Key, int>, bad: set<Key>, gone: set<Key>)
  {
    if times.Keys <= bad then gone == times.Keys
    else exists k :: gone == times.Keys * bad + {k} && IsOldest(times, times.Keys - bad, k)
  }
}
