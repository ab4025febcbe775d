/** etcd/mvcc/kvstore.go: rebuilding the index of all keys when the store is opened. The
    surviving records of all keys arrive in the order of their revisions. */
module TreeRestore {
  import opened Bytes
  import opened KeyHistory
  import opened KeyIndices
  import opened TreeIndices

  datatype KeyRecord = KeyRecord(key: Key, record: Record)

  /** What one key finds among the records, in their order. */
  ghost function OfKey(rs: seq<KeyRecord>, k: Key): seq<Record> {
    if rs == [] then []
    else
      var last := rs[|rs| - 1];
      OfKey(rs[..|rs| - 1], k) + if last.key == k then [last.record] else []
  }

  ghost predicate RecordsOf(rs: seq<Record>, items: seq<Item>) {
    |rs| == |items| && forall i :: 0 <= i < |rs| ==> rs[i] == RecordOf(items[i])
  }

  /** The backend holds the items of every key and nothing else, however they interleave. */
  ghost predicate Backs(rs: seq<KeyRecord>, c: Contents) {
    forall k :: RecordsOf(OfKey(rs, k), ItemsAt(c, k))
  }

  ghost predicate AllReplayable(c: Contents) {
    forall k :: k in c ==> Replayable(c[k])
  }

  lemma {:induction false} OfKeyPrefix(rs: seq<KeyRecord>, n: nat, k: Key)
    requires n <= |rs|
    ensures OfKey(rs[..n], k) <= OfKey(rs, k)
  {
    if n == |rs| {
      assert rs[..n] == rs;
    } else {
      OfKeyPrefix(rs[..|rs| - 1], n, k);
      assert rs[..|rs| - 1][..n] == rs[..n];
    }
  }

  /** The next record is the next item of its key, and of no other. */
  lemma NextRecord(rs: seq<KeyRecord>, c: Contents, n: nat)
    requires Backs(rs, c) && n < |rs|
    ensures var r := rs[n];
      var m := |OfKey(rs[..n], r.key)|;
      && r.key in c && m < |c[r.key]| && r.record == RecordOf(c[r.key][m])
      && |OfKey(rs[..n + 1], r.key)| == m + 1
    ensures forall k :: k != rs[n].key ==> OfKey(rs[..n + 1], k) == OfKey(rs[..n], k)
  {
    var r := rs[n];
    assert rs[..n + 1][..n] == rs[..n];
    OfKeyPrefix(rs, n + 1, r.key);
    assert RecordsOf(OfKey(rs, r.key), ItemsAt(c, r.key));
    assert OfKey(rs[..n + 1], r.key) == OfKey(rs[..n], r.key) + [r.record];
  }

  lemma FirstIsPut(rs: seq<KeyRecord>, c: Contents, n: nat)
    requires Backs(rs, c) && AllReplayable(c) && n < |rs|
    ensures OfKey(rs[..n], rs[n].key) == [] ==> !rs[n].record.tomb
  {
    NextRecord(rs, c, n);
    assert Replayable(c[rs[n].key]);
  }

  /** The tree holds what the first n records give, of one key. */
  ghost predicate BuiltAt(tree: map<Key, KeyIndex>, c: Contents, rs: seq<KeyRecord>, n: nat, k: Key)
    requires n <= |rs| && k in tree
    reads tree[k]
  {
    var m := |OfKey(rs[..n], k)|;
    tree[k].key == k && k in c && m <= |c[k]| && Rebuilt(tree[k], k, c[k][..m])
  }

  ghost predicate BuiltSoFar(tree: map<Key, KeyIndex>, c: Contents, rs: seq<KeyRecord>, n: nat)
    requires n <= |rs|
    reads tree.Values
  {
    && (forall k :: k in tree <==> OfKey(rs[..n], k) != [])
    && (forall k :: k in tree ==> BuiltAt(tree, c, rs, n, k))
  }

  lemma OneMoreBuilt(tree: map<Key, KeyIndex>, ki: KeyIndex, c: Contents, rs: seq<KeyRecord>, n: nat)
    requires n < |rs| && Backs(rs, c)
    requires forall k :: k in tree <==> OfKey(rs[..n], k) != []
    requires forall k :: k in tree && k != rs[n].key ==> BuiltAt(tree, c, rs, n, k)
    requires rs[n].key in c && |OfKey(rs[..n], rs[n].key)| < |c[rs[n].key]|
    requires ki.key == rs[n].key && Rebuilt(ki, rs[n].key, c[rs[n].key][..|OfKey(rs[..n], rs[n].key)| + 1])
    ensures BuiltSoFar(tree[rs[n].key := ki], c, rs, n + 1)
  {
    hide Rebuilt, Backs;
    NextRecord(rs, c, n);
    var u := tree[rs[n].key := ki];
    forall x | x in u
      ensures BuiltAt(u, c, rs, n + 1, x)
    {
      if x != rs[n].key { assert BuiltAt(tree, c, rs, n, x); }
    }
  }

  ghost predicate CacheOf(kiCache: map<Key, KeyIndex>, tree: map<Key, KeyIndex>) {
    forall k :: k in kiCache ==> k in tree && kiCache[k] == tree[k]
  }

  /** A bounded cache stands before the tree. When it is full and the key is not in it, keys
      are thrown out; purged are those that the map's own order picks. */
  method Find(key: Key, tree: map<Key, KeyIndex>, kiCache: map<Key, KeyIndex>, limit: nat, purged: set<Key>)
    returns (ki: KeyIndex?, kiCache': map<Key, KeyIndex>)
    requires CacheOf(kiCache, tree)
    ensures CacheOf(kiCache', tree)
    ensures ki == if key in tree then tree[key] else null
  {
    ki, kiCache' := null, kiCache;
    if key in kiCache {
      return kiCache[key], kiCache;
    }
    if |kiCache| >= limit {
      kiCache' := kiCache - purged;
    }
    if key in tree {
      ki := tree[key];
      kiCache' := kiCache'[key := ki];
    }
  }

  /** A record of a key that the index holds. */
  method TakeNext(rs: seq<KeyRecord>, n: nat, tree: map<Key, KeyIndex>, ki: KeyIndex, ghost c: Contents)
    requires n < |rs| && Backs(rs, c) && AllReplayable(c) && BuiltSoFar(tree, c, rs, n)
    requires rs[n].key in tree && ki == tree[rs[n].key]
    modifies ki
    ensures BuiltSoFar(tree, c, rs, n + 1)
  {
    hide Rebuilt, Replayable, Backs, RecordOf, OfKey;
    var r := rs[n];
    ghost var m := |OfKey(rs[..n], r.key)|;
    NextRecord(rs, c, n);
    assert Replayable(c[r.key]) && BuiltAt(tree, c, rs, n, r.key);
    assert ki.key == r.key && Rebuilt(ki, r.key, c[r.key][..m]);
    assert forall k :: k in tree ==> BuiltAt(tree, c, rs, n, k) && tree[k].key == k;
    assert forall k :: k in tree <==> OfKey(rs[..n], k) != [];
    hide *;
    RestoreNext(ki, r.record, c[r.key], m);
    forall k | k in tree && k != r.key
      ensures BuiltAt(tree, c, rs, n, k)
    {
      assert tree[k] != ki;
    }
    assert tree[r.key := ki] == tree;
    OneMoreBuilt(tree, ki, c, rs, n);
  }

  /** The first record of a key. */
  method TakeFirst(rs: seq<KeyRecord>, n: nat, tree: map<Key, KeyIndex>, ghost c: Contents) returns (ki: KeyIndex)
    requires n < |rs| && Backs(rs, c) && AllReplayable(c) && BuiltSoFar(tree, c, rs, n)
    requires rs[n].key !in tree
    ensures fresh(ki) && BuiltSoFar(tree[rs[n].key := ki], c, rs, n + 1)
  {
    hide Rebuilt, Replayable, Backs, RecordOf, OfKey;
    var r := rs[n];
    NextRecord(rs, c, n);
    assert Replayable(c[r.key]);
    assert forall k :: k in tree ==> BuiltAt(tree, c, rs, n, k);
    assert forall k :: k in tree <==> OfKey(rs[..n], k) != [];
    assert OfKey(rs[..n], r.key) == [];
    hide *;
    ki := RestoreFirst(r.key, r.record, c[r.key]);
    OneMoreBuilt(tree, ki, c, rs, n);
  }

  /** One record, put into the index of its key or into a new one. */
  method TakeRecord(rs: seq<KeyRecord>, n: nat, tree: map<Key, KeyIndex>, kiCache: map<Key, KeyIndex>,
                    limit: nat, purged: set<Key>, ghost c: Contents)
    returns (tree': map<Key, KeyIndex>, kiCache': map<Key, KeyIndex>)
    requires n < |rs| && Backs(rs, c) && AllReplayable(c)
    requires BuiltSoFar(tree, c, rs, n) && CacheOf(kiCache, tree)
    modifies tree.Values
    ensures BuiltSoFar(tree', c, rs, n + 1) && CacheOf(kiCache', tree')
    ensures forall k :: k in tree' ==> fresh(tree'[k]) || (k in tree && tree'[k] == tree[k])
  {
    FirstIsPut(rs, c, n);
    assert rs[n].key in tree <==> OfKey(rs[..n], rs[n].key) != [];
    hide AllReplayable, Backs, BuiltSoFar, OfKey;
    var ki;
    tree' := tree;
    ki, kiCache' := Find(rs[n].key, tree, kiCache, limit, purged);
    if ki != null {
      TakeNext(rs, n, tree, ki, c);
    } else if !rs[n].record.tomb {
      ki := TakeFirst(rs, n, tree, c);
      tree' := tree[rs[n].key := ki];
      kiCache' := kiCache'[rs[n].key := ki];
    }
  }

  /** restoreIntoIndex: the index of every key is rebuilt, and the current revision is the
      last main revision seen. */
  method RestoreIntoTree(rs: seq<KeyRecord>, limit: nat, purged: seq<set<Key>>, ghost c: Contents)
    returns (tree: map<Key, KeyIndex>, currentRev: int)
    requires Backs(rs, c) && AllReplayable(c) && |purged| == |rs|
    ensures tree.Keys == c.Keys
    ensures forall k :: k in tree ==> fresh(tree[k]) && Rebuilt(tree[k], k, c[k])
    ensures currentRev == if rs == [] then 1 else rs[|rs| - 1].record.rev.main
  {
    NothingBuilt(c, rs);
    hide *;
    tree, currentRev := map[], 1;
    var kiCache: map<Key, KeyIndex> := map[];
    var n := 0;
    assert CacheOf(kiCache, tree) by { EmptyCache(tree); }
    while n < |rs|
      invariant 0 <= n <= |rs|
      invariant currentRev == if n == 0 then 1 else rs[n - 1].record.rev.main
      invariant BuiltSoFar(tree, c, rs, n) && CacheOf(kiCache, tree)
      invariant forall k :: k in tree ==> fresh(tree[k])
    {
      tree, kiCache := TakeRecord(rs, n, tree, kiCache, limit, purged[n], c);
      currentRev := rs[n].record.rev.main;
      n := n + 1;
    }
    AllBuilt(tree, c, rs);
  }

  lemma NothingBuilt(c: Contents, rs: seq<KeyRecord>)
    ensures BuiltSoFar(map[], c, rs, 0)
  {
    assert rs[..0] == [];
  }

  lemma EmptyCache(tree: map<Key, KeyIndex>)
    ensures CacheOf(map[], tree)
  {
  }

  lemma AllBuilt(tree: map<Key, KeyIndex>, c: Contents, rs: seq<KeyRecord>)
    requires Backs(rs, c) && AllReplayable(c) && BuiltSoFar(tree, c, rs, |rs|)
    ensures tree.Keys == c.Keys
    ensures forall k :: k in tree ==> Rebuilt(tree[k], k, c[k])
  {
    hide Rebuilt, RecordOf;
    assert rs[..|rs|] == rs;
    forall k
      ensures k in tree <==> k in c
      ensures k in tree ==> Rebuilt(tree[k], k, c[k])
    {
      assert RecordsOf(OfKey(rs, k), ItemsAt(c, k));
      assert k in c ==> Replayable(c[k]);
      if k in tree {
        assert BuiltAt(tree, c, rs, |rs|, k);
        assert c[k][..|c[k]|] == c[k];
      }
    }
  }

  // ---------- restoring a tree ----------

  lemma ContentsReplay(c: Contents, h: Histories, prev: int, cur: int)
    requires Agrees(c, h, {}, prev, cur)
    ensures AllReplayable(c)
  {
    forall k | k in c
      ensures Replayable(c[k])
    {
      CompactedReplays(h[k], cur);
      hide Compacted, Annotate, Sorted, TombsFollowPuts, Chained;
    }
  }

  /** Two indexes built from the same items are equal in the sense of equal. */
  lemma BuiltEqual(a: KeyIndex, b: KeyIndex, k: Key)
    requires Stored(b, k) && Rebuilt(a, k, b.items)
    ensures a.Equal(b)
    ensures a.key == b.key == k && a.modified == b.modified && SameItems(a.items, b.items)
  {
    hide ItemsOf, Shaped, Sorted;
    GenerationsDetermined(a.generations, b.generations);
    EmptyMeansNoItems(b.generations);
    var n := |b.items| - 1;
    assert a.items[n].(created := b.items[n].created) == b.items[n];
  }

  /** Between compactions: replaying what the backend holds of all keys, whatever the cache
      throws out, rebuilds a tree with the same keys, each index equal to the stored one. */
  method ReopenTree(ti: TreeIndex, rs: seq<KeyRecord>, limit: nat, purged: seq<set<Key>>)
    returns (tree: map<Key, KeyIndex>)
    requires ti.Valid() && ti.clone == [] && Backs(rs, ti.Contents()) && |purged| == |rs|
    ensures tree.Keys == ti.tree.Keys
    ensures forall k :: k in tree ==> tree[k].Equal(ti.tree[k])
    ensures forall k :: k in tree ==>
      tree[k].key == k && tree[k].modified == ti.tree[k].modified && SameItems(tree[k].items, ti.tree[k].items)
  {
    ghost var c := ti.Contents();
    ti.ContentsAgree();
    assert ti.Waiting() == {};
    hide Agrees, Rebuilt, Stored, Backs, AllReplayable, KeyIndex.Equal, SameItems;
    ContentsReplay(c, ti.histories, ti.prevRev, ti.compactRev);
    var currentRev;
    tree, currentRev := RestoreIntoTree(rs, limit, purged, c);
    forall k | k in tree
      ensures tree[k].Equal(ti.tree[k])
      ensures tree[k].key == k && tree[k].modified == ti.tree[k].modified
      ensures SameItems(tree[k].items, ti.tree[k].items)
    {
      ti.StoredInTree(k);
      BuiltEqual(tree[k], ti.tree[k], k);
    }
  }
}
