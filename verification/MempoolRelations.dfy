/** Ancestors and descendants of a memory pool transaction, from the Depends lists of a snapshot. */
module MempoolRelations {
  type TxId = string

  type Entries = map<TxId, seq<TxId>>

  type Edges = set<(TxId, TxId)>

  /** Who depends on whom within the snapshot. */
  ghost function DependsOn(entries: Entries): Edges
  {
    set a, b | a in entries && b in entries[a] && b in entries :: (a, b)
  }

  ghost function Reverse(edges: Edges): Edges
  {
    set e | e in edges :: (e.1, e.0)
  }

  // ---------- paths ----------

  ghost predicate Path(edges: Edges, p: seq<TxId>)
  {
    |p| >= 2 && forall i {:trigger p[i]} :: 0 < i < |p| ==> (p[i - 1], p[i]) in edges
  }

  /** There is a way of one step or more. */
  ghost predicate Reaches(edges: Edges, a: TxId, b: TxId)
  {
    exists p :: Path(edges, p) && p[0] == a && p[|p| - 1] == b
  }

  lemma StepReaches(edges: Edges, a: TxId, b: TxId)
    requires (a, b) in edges
    ensures Reaches(edges, a, b)
  {
    assert Path(edges, [a, b]);
  }

  lemma ReachesTransitive(edges: Edges, a: TxId, b: TxId, c: TxId)
    requires Reaches(edges, a, b) && Reaches(edges, b, c)
    ensures Reaches(edges, a, c)
  {
    var p :| Path(edges, p) && p[0] == a && p[|p| - 1] == b;
    var q :| Path(edges, q) && q[0] == b && q[|q| - 1] == c;
    var r := p + q[1..];
    forall i | 0 < i < |r|
      ensures (r[i - 1], r[i]) in edges
    {
      if i < |p| {
        assert p[i] == r[i];
      } else {
        var k := i - |p| + 1;
        assert q[k] == r[i] && q[k - 1] == r[i - 1];
      }
    }
    assert Path(edges, r);
  }

  /** A set that every step stays in holds everything reached from it. */
  lemma {:induction false} StaysIn(edges: Edges, inside: set<TxId>, p: seq<TxId>)
    requires Path(edges, p) && p[1] in inside
    requires forall e :: e in edges && e.0 in inside ==> e.1 in inside
    ensures p[|p| - 1] in inside
    decreases |p|
  {
    if |p| > 2 {
      var q := p[1..];
      forall i | 0 < i < |q|
        ensures (q[i - 1], q[i]) in edges
      {
        assert p[i + 1] == q[i];
      }
      assert (p[1], p[2]) in edges;
      StaysIn(edges, inside, q);
    }
  }

  lemma ReverseReaches(edges: Edges, a: TxId, b: TxId)
    requires Reaches(edges, a, b)
    ensures Reaches(Reverse(edges), b, a)
  {
    var p :| Path(edges, p) && p[0] == a && p[|p| - 1] == b;
    var r := seq(|p|, i requires 0 <= i < |p| => p[|p| - 1 - i]);
    forall i | 0 < i < |r|
      ensures (r[i - 1], r[i]) in Reverse(edges)
    {
      var k := |p| - i;
      assert (p[k - 1], p[k]) in edges;
      assert r[i - 1] == p[k] && r[i] == p[k - 1];
    }
    assert Path(Reverse(edges), r);
  }

  lemma ReverseTwice(edges: Edges)
    ensures Reverse(Reverse(edges)) == edges
  {
    forall e | e in edges
      ensures e in Reverse(Reverse(edges))
    {
      assert (e.1, e.0) in Reverse(edges);
    }
  }

  // ---------- depth-first search with a shared visited set ----------

  /** Everything visited since, and the start itself, has all its successors visited. */
  ghost predicate Closed(edges: Edges, before: set<TxId>, after: set<TxId>, start: TxId)
  {
    forall e :: e in edges && (e.0 in after - before || e.0 == start) ==> e.1 in after
  }

  /** Everything visited since is reached from the start. */
  ghost predicate Sound(edges: Edges, before: set<TxId>, after: set<TxId>, start: TxId)
  {
    before <= after && forall x :: x in after - before ==> Reaches(edges, start, x)
  }

  /** What a visit of one successor adds. */
  lemma VisitedOne(edges: Edges, before: set<TxId>, now: set<TxId>, next: TxId, after: set<TxId>, start: TxId)
    requires Sound(edges, before, now, start) && (start, next) in edges && next !in now
    requires Sound(edges, now + {next}, after, next)
    ensures Sound(edges, before, after, start) && next in after
  {
    StepReaches(edges, start, next);
    forall x | x in after - before
      ensures Reaches(edges, start, x)
    {
      if x !in now && x != next {
        ReachesTransitive(edges, start, next, x);
      }
    }
  }

  /** A search from scratch finds exactly what is reached. */
  lemma FoundAll(edges: Edges, found: set<TxId>, start: TxId)
    requires Sound(edges, {}, found, start) && Closed(edges, {}, found, start)
    ensures forall x :: x in found <==> Reaches(edges, start, x)
  {
    forall x | Reaches(edges, start, x)
      ensures x in found
    {
      var p :| Path(edges, p) && p[0] == start && p[|p| - 1] == x;
      assert (p[0], p[1]) in edges;
      StaysIn(edges, found, p);
    }
  }

  method VisitDependencies(hash: TxId, entries: Entries, visited: set<TxId>) returns (ancestors: set<TxId>)
    requires visited <= entries.Keys
    ensures visited <= ancestors <= entries.Keys
    ensures Sound(DependsOn(entries), visited, ancestors, hash)
    ensures Closed(DependsOn(entries), visited, ancestors, hash)
    decreases entries.Keys - visited
  {
    ghost var edges := DependsOn(entries);
    ancestors := visited;
    if hash !in entries {
      return;
    }
    var depends := entries[hash];
    for i := 0 to |depends|
      invariant visited <= ancestors <= entries.Keys
      invariant Sound(edges, visited, ancestors, hash)
      invariant forall k :: 0 <= k < i && depends[k] in entries ==> depends[k] in ancestors
      invariant forall e :: e in edges && e.0 in ancestors - visited && e.0 != hash ==> e.1 in ancestors
    {
      var dependency := depends[i];
      if dependency !in entries {
        continue;
      }
      if dependency in ancestors {
        continue;
      }
      ghost var now := ancestors;
      assert (hash, dependency) in edges;
      ancestors := ancestors + {dependency};
      ancestors := VisitDependencies(dependency, entries, ancestors);
      VisitedOne(edges, visited, now, dependency, ancestors, hash);
    }
  }

  /** The ancestors are exactly the transactions it depends on, directly or not. */
  method AncestorSet(txid: TxId, entries: Entries) returns (ancestors: set<TxId>)
    ensures forall x :: x in ancestors <==> Reaches(DependsOn(entries), txid, x)
  {
    ancestors := VisitDependencies(txid, entries, {});
    FoundAll(DependsOn(entries), ancestors, txid);
  }

  // ---------- the other direction ----------

  function At(children: map<TxId, seq<TxId>>, hash: TxId): seq<TxId>
  {
    if hash in children then children[hash] else []
  }

  /** The children lists hold exactly the dependencies of the transactions seen, turned round. */
  ghost predicate Inverts(children: map<TxId, seq<TxId>>, entries: Entries, seen: set<TxId>)
  {
    forall a, b {:trigger b in At(children, a)} :: b in At(children, a) <==> b in seen && (b, a) in DependsOn(entries)
  }

  method AddChildren(children: map<TxId, seq<TxId>>, hash: TxId, entries: Entries, ghost seen: set<TxId>)
    returns (more: map<TxId, seq<TxId>>)
    requires hash in entries && hash !in seen && seen <= entries.Keys && Inverts(children, entries, seen)
    ensures Inverts(more, entries, seen + {hash})
  {
    more := children;
    var depends := entries[hash];
    for i := 0 to |depends|
      invariant forall a, b {:trigger b in At(more, a)} :: b in At(more, a) <==>
        b in At(children, a) || (b == hash && a in depends[..i] && a in entries)
    {
      if depends[i] in entries {
        ghost var was := more;
        more := more[depends[i] := At(more, depends[i]) + [hash]];
        assert forall a :: At(more, a) == if a == depends[i] then At(was, a) + [hash] else At(was, a);
      }
    }
    assert depends[..|depends|] == depends;
    forall a, b
      ensures b in At(more, a) <==> b in seen + {hash} && (b, a) in DependsOn(entries)
    {
      assert b in At(children, a) <==> b in seen && (b, a) in DependsOn(entries);
    }
  }

  /** The snapshot's keys come in any order. */
  method Children(entries: Entries) returns (children: map<TxId, seq<TxId>>)
    ensures Inverts(children, entries, entries.Keys)
  {
    children := map[];
    var left := entries.Keys;
    ghost var seen: set<TxId> := {};
    while left != {}
      invariant seen + left == entries.Keys && seen !! left
      invariant Inverts(children, entries, seen)
      decreases left
    {
      var hash :| hash in left;
      children := AddChildren(children, hash, entries, seen);
      left, seen := left - {hash}, seen + {hash};
    }
    assert seen == entries.Keys;
  }

  method VisitChildren(hash: TxId, children: map<TxId, seq<TxId>>, visited: set<TxId>, ghost entries: Entries)
    returns (descendants: set<TxId>)
    requires visited <= entries.Keys && Inverts(children, entries, entries.Keys)
    ensures visited <= descendants <= entries.Keys
    ensures Sound(Reverse(DependsOn(entries)), visited, descendants, hash)
    ensures Closed(Reverse(DependsOn(entries)), visited, descendants, hash)
    decreases entries.Keys - visited
  {
    ghost var edges := Reverse(DependsOn(entries));
    descendants := visited;
    var next := At(children, hash);
    EdgesFrom(children, entries, hash);
    for i := 0 to |next|
      invariant visited <= descendants <= entries.Keys
      invariant Sound(edges, visited, descendants, hash)
      invariant forall k :: 0 <= k < i ==> next[k] in descendants
      invariant forall e :: e in edges && e.0 in descendants - visited && e.0 != hash ==> e.1 in descendants
    {
      var child := next[i];
      if child in descendants {
        continue;
      }
      ghost var now := descendants;
      assert (hash, child) in edges;
      descendants := descendants + {child};
      descendants := VisitChildren(child, children, descendants, entries);
      VisitedOne(edges, visited, now, child, descendants, hash);
    }
  }

  lemma EdgesFrom(children: map<TxId, seq<TxId>>, entries: Entries, hash: TxId)
    requires Inverts(children, entries, entries.Keys)
    ensures forall b :: b in At(children, hash) ==> b in entries && (hash, b) in Reverse(DependsOn(entries))
    ensures forall e :: e in Reverse(DependsOn(entries)) && e.0 == hash ==> e.1 in At(children, hash)
  {
    var edges := DependsOn(entries);
    forall b | b in At(children, hash)
      ensures (hash, b) in Reverse(edges)
    {
      assert (b, hash) in edges;
    }
    forall e | e in Reverse(edges) && e.0 == hash
      ensures e.1 in At(children, hash)
    {
      var d :| d in edges && (d.1, d.0) == e;
      assert d == (e.1, hash);
    }
  }

  /** The descendants are exactly the transactions that depend on it, directly or not. */
  method DescendantSet(txid: TxId, entries: Entries) returns (descendants: set<TxId>)
    ensures forall x :: x in descendants <==> Reaches(DependsOn(entries), x, txid)
  {
    var children := Children(entries);
    descendants := VisitChildren(txid, children, {}, entries);
    ghost var edges := DependsOn(entries);
    FoundAll(Reverse(edges), descendants, txid);
    forall x
      ensures Reaches(Reverse(edges), txid, x) <==> Reaches(edges, x, txid)
    {
      ReverseBoth(edges, txid, x);
    }
  }

  lemma ReverseBoth(edges: Edges, a: TxId, b: TxId)
    ensures Reaches(Reverse(edges), a, b) <==> Reaches(edges, b, a)
  {
    if Reaches(edges, b, a) {
      ReverseReaches(edges, b, a);
    }
    if Reaches(Reverse(edges), a, b) {
      ReverseReaches(Reverse(edges), a, b);
      ReverseTwice(edges);
    }
  }

  /** One is an ancestor of the other exactly when the other is its descendant. */
  method Duality(a: TxId, b: TxId, entries: Entries) returns (ancestors: set<TxId>, descendants: set<TxId>)
    ensures a in ancestors <==> b in descendants
    ensures forall x, y :: x in ancestors && Reaches(DependsOn(entries), x, y) ==> y in ancestors
    ensures forall x, y :: x in descendants && Reaches(DependsOn(entries), y, x) ==> y in descendants
  {
    ancestors := AncestorSet(b, entries);
    descendants := DescendantSet(a, entries);
    ghost var edges := DependsOn(entries);
    forall x, y | x in ancestors && Reaches(edges, x, y)
      ensures y in ancestors
    {
      ReachesTransitive(edges, b, x, y);
    }
    forall x, y | x in descendants && Reaches(edges, y, x)
      ensures y in descendants
    {
      ReachesTransitive(edges, y, x, a);
    }
  }
}
