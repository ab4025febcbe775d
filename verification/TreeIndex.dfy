/** etcd/mvcc/index.go: the index of all keys, and its compaction one key at a
    time while writers keep going. */
module TreeIndices {
  import opened Bytes
  import opened KeyHistory
  import opened KeyIndices

  // ---------- what the index holds, as values ----------

  type Histories = map<Key, seq<Event>>
  type Contents = map<Key, seq<Item>>

  ghost function History(h: Histories, k: Key): seq<Event> {
    if k in h then h[k] else []
  }

  ghost function ItemsAt(c: Contents, k: Key): seq<Item> {
    if k in c then c[k] else []
  }

  ghost predicate Reasonable(h: seq<Event>) {
    && Lawful(h)
    && forall i :: 0 <= i < |h| ==> h[i].rev.main >= 1 && h[i].rev.sub >= 0
  }

  /** Every key holds what compacting its full history leaves: at the previous
      compacted revision while the key waits for the running compaction, and at
      the current one afterwards. A key with nothing left is absent. */
  ghost predicate Agrees(c: Contents, h: Histories, waiting: set<Key>, prev: int, cur: int) {
    && prev <= cur
    && waiting <= c.Keys <= h.Keys
    && (forall k :: k in c ==> c[k] != [])
    && (forall k :: k in h ==> Reasonable(h[k]))
    && (forall k :: k in h ==> ItemsAt(c, k) == Compacted(Annotate(h[k]), if k in waiting then prev else cur))
  }

  lemma AnnotateAppend(h: seq<Event>, e: Event)
    ensures Annotate(h + [e]) == Extend(Annotate(h), e)
  {
    assert (h + [e])[..|h|] == h;
  }

  lemma LiveMeaning(h: seq<Event>)
    ensures Live(Annotate(h)) <==> h != [] && !h[|h| - 1].tomb
  {
    AnnotateRevs(h);
  }

  /** A put or a tombstone above the compacted revision, whether or not the key is still waiting. */
  lemma WriteAgrees(c: Contents, h: Histories, waiting: set<Key>, prev: int, cur: int, k: Key, e: Event)
    requires Agrees(c, h, waiting, prev, cur)
    requires e.rev.main > cur && Reasonable(History(h, k) + [e])
    ensures Agrees(c[k := Extend(ItemsAt(c, k), e)], h[k := History(h, k) + [e]], waiting, prev, cur)
    ensures Live(ItemsAt(c, k)) <==> History(h, k) != [] && !History(h, k)[|History(h, k)| - 1].tomb
  {
    var at, a := if k in waiting then prev else cur, Annotate(History(h, k));
    AnnotateAppend(History(h, k), e);
    LiveMeaning(History(h, k));
    hide Annotate, Extend, Compacted;
    CompactExtend(a, at, e);
    assert ItemsAt(c, k) == Compacted(a, at) by { NoHistory(at); }
    assert Extend(ItemsAt(c, k), e) != [] by { ExtendNotEmpty(ItemsAt(c, k), e); }
  }

  /** A revision that continues the history is newer than what the index stores. */
  lemma NewerThanStored(c: Contents, h: Histories, waiting: set<Key>, prev: int, cur: int, k: Key, e: Event)
    requires Agrees(c, h, waiting, prev, cur) && k in c
    requires Reasonable(History(h, k) + [e])
    ensures c[k] != [] && e.rev.GreaterThan(c[k][|c[k]| - 1].rev)
  {
    var a, n := Annotate(h[k]), |h[k]|;
    AnnotateRevs(h[k]);
    hide Annotate, CompactFrom;
    assert c[k] == a[CompactFrom(a, if k in waiting then prev else cur)..];
    assert c[k][|c[k]| - 1].rev == h[k][n - 1].rev;
    assert (h[k] + [e])[n - 1] == h[k][n - 1] && (h[k] + [e])[n] == e;
  }

  lemma NoHistory(at: int)
    ensures Compacted(Annotate([]), at) == []
  {
  }

  lemma MainPositive(h: seq<Event>, e: Event)
    requires Reasonable(h + [e])
    ensures e.rev.GreaterThan(Revision(0, 0))
  {
    assert (h + [e])[|h|] == e;
  }

  lemma ExtendNotEmpty(items: seq<Item>, e: Event)
    ensures Extend(items, e) != []
  {
  }

  /** The tree is cloned: from here on every key in it waits to be compacted at `rev`. */
  lemma BeginAgrees(c: Contents, h: Histories, prev: int, cur: int, rev: int)
    requires Agrees(c, h, {}, prev, cur) && cur <= rev
    ensures Agrees(c, h, c.Keys, cur, rev)
  {
    hide Annotate, Reasonable;
    forall k | k in h && k !in c
      ensures Compacted(Annotate(h[k]), rev) == []
    {
      CompactTwice(Annotate(h[k]), cur, rev);
    }
  }

  ghost function CompactKey(c: Contents, k: Key, cur: int): Contents {
    if Compacted(ItemsAt(c, k), cur) == [] then c - {k} else c[k := Compacted(ItemsAt(c, k), cur)]
  }

  lemma CompactKeyAgrees(c: Contents, h: Histories, waiting: set<Key>, prev: int, cur: int, k: Key)
    requires Agrees(c, h, waiting, prev, cur) && k in waiting
    ensures Agrees(CompactKey(c, k, cur), h, waiting - {k}, prev, cur)
  {
    hide Annotate, Compacted, Reasonable;
    CompactTwice(Annotate(h[k]), prev, cur);
  }

  /** A read at or above the compacted revision sees the full history, at any
      point of a compaction. */
  lemma ReadAgrees(c: Contents, h: Histories, waiting: set<Key>, prev: int, cur: int, k: Key, at: int)
    requires Agrees(c, h, waiting, prev, cur) && cur <= at
    ensures Lookup(ItemsAt(c, k), at) == Truth(History(h, k), at)
  {
    var a := Annotate(History(h, k));
    CompactKeepsReads(a, if k in waiting then prev else cur, at);
    LookupIsTruth(History(h, k), at);
  }

  lemma LiveAgrees(c: Contents, h: Histories, waiting: set<Key>, prev: int, cur: int, k: Key)
    requires Agrees(c, h, waiting, prev, cur)
    ensures Live(ItemsAt(c, k)) <==> KeyLive(History(h, k))
    ensures k !in c ==> !KeyLive(History(h, k))
  {
    var a, at := Annotate(History(h, k)), if k in waiting then prev else cur;
    LiveMeaning(History(h, k));
    hide Annotate;
    LiveCompacted(a, at);
    NoHistory(at);
  }

  predicate KeyLive(h: seq<Event>) {
    h != [] && !h[|h| - 1].tomb
  }

  // ---------- the revisions that a compaction reports ----------

  /** The reported revisions are those that stay available of the keys already visited. */
  ghost predicate Collected(avail: set<Revision>, h: Histories, waiting: set<Key>, cur: int) {
    forall r :: r in avail <==> exists k :: k in h && k !in waiting && r in Available(Annotate(h[k]), cur)
  }

  lemma WriteCollected(avail: set<Revision>, h: Histories, waiting: set<Key>, cur: int, k: Key, e: Event)
    requires Collected(avail, h, waiting, cur) && e.rev.main > cur
    ensures Collected(avail, h[k := History(h, k) + [e]], waiting, cur)
  {
    var h' := h[k := History(h, k) + [e]];
    AnnotateAppend(History(h, k), e);
    AvailableExtend(Annotate(History(h, k)), cur, e);
    assert Available(Annotate([]), cur) == {};
    hide Annotate, Available;
    assert forall x :: x in h && x != k ==> h'[x] == h[x];
    assert forall r, x :: x in h && r in Available(Annotate(h[x]), cur) ==> r in Available(Annotate(h'[x]), cur);
  }

  lemma BeginCollected(c: Contents, h: Histories, prev: int, cur: int, rev: int)
    requires Agrees(c, h, {}, prev, cur) && cur <= rev
    ensures Collected({}, h, c.Keys, rev)
  {
    hide Annotate, Reasonable, Compacted;
    forall k | k in h && k !in c
      ensures Available(Annotate(h[k]), rev) == {}
    {
      AvailableCompacted(Annotate(h[k]), cur, rev);
    }
    hide Available;
  }

  lemma CompactKeyCollected(c: Contents, avail: set<Revision>, h: Histories, waiting: set<Key>,
                            prev: int, cur: int, k: Key)
    requires Agrees(c, h, waiting, prev, cur) && k in waiting
    requires Collected(avail, h, waiting, cur)
    ensures Collected(avail + Available(ItemsAt(c, k), cur), h, waiting - {k}, cur)
  {
    hide Annotate, Available, Compacted, Reasonable;
    AvailableCompacted(Annotate(h[k]), prev, cur);
  }

  // ---------- ranges ----------

  /** A range end as Go passes it: nil for a single key, empty for no upper bound. */
  datatype RangeEnd = Nil | End(bytes: Key)

  predicate InRange(k: Key, key: Key, end: RangeEnd) {
    if end.Nil? then k == key
    else !Less(k, key) && (end.bytes == [] || Less(k, end.bytes))
  }

  ghost predicate LiveKeys(h: Histories, key: Key, end: RangeEnd, at: int, keys: seq<Key>) {
    && Ascending(keys)
    && forall k :: k in keys <==> InRange(k, key, end) && Truth(History(h, k), at).Found?
  }

  ghost function ModifiedAt(h: Histories, keys: seq<Key>, at: int): (revs: seq<Revision>)
    ensures |revs| == |keys|
  {
    seq(|keys|, i requires 0 <= i < |keys| =>
      var a := Truth(History(h, keys[i]), at);
      if a.Found? then a.modified else Revision(0, 0))
  }

  lemma SingleKey(h: Histories, key: Key, at: int)
    ensures var a := Truth(History(h, key), at);
      forall x :: LiveKeys(h, key, Nil, at, x) ==>
        |x| == (if a.Found? then 1 else 0) && LatestOf(h, x, at, if a.Found? then [a.modified] else [])
  {
    var a := Truth(History(h, key), at);
    LiveKeysUnique(h, key, Nil, at, if a.Found? then [key] else []);
  }

  lemma LiveKeysUnique(h: Histories, key: Key, end: RangeEnd, at: int, keys: seq<Key>)
    requires LiveKeys(h, key, end, at, keys)
    ensures forall x :: LiveKeys(h, key, end, at, x) ==> x == keys
  {
    forall x | LiveKeys(h, key, end, at, x)
      ensures x == keys
    {
      AscendingUnique(x, keys);
    }
  }

  lemma AppendModified(h: Histories, keys: seq<Key>, k: Key, at: int)
    requires Truth(History(h, k), at).Found?
    ensures ModifiedAt(h, keys + [k], at) == ModifiedAt(h, keys, at) + [Truth(History(h, k), at).modified]
  {
  }

  ghost function LiveOf(h: Histories, ks: seq<Key>, at: int): seq<Key> {
    if ks == [] then []
    else
      var k := ks[|ks| - 1];
      LiveOf(h, ks[..|ks| - 1], at) + if Truth(History(h, k), at).Found? then [k] else []
  }

  lemma {:induction false} LiveOfMeaning(h: Histories, ks: seq<Key>, at: int)
    requires Ascending(ks)
    ensures Ascending(LiveOf(h, ks, at))
    ensures forall k :: k in LiveOf(h, ks, at) <==> k in ks && Truth(History(h, k), at).Found?
  {
    if ks != [] {
      var n := |ks| - 1;
      var p := ks[..n];
      LiveOfMeaning(h, p, at);
      var live := LiveOf(h, p, at);
      forall a | 0 <= a < |live|
        ensures Less(live[a], ks[n])
      {
        assert live[a] in live;
        var j :| 0 <= j < n && p[j] == live[a];
        assert Less(ks[j], ks[n]);
      }
      assert ks == p + [ks[n]];
    }
  }

  function Limited(keys: seq<Key>, limit: int): seq<Key> {
    if 0 < limit < |keys| then keys[..limit] else keys
  }

  /** The first keys and, for each of them, the revision of its latest modification. */
  ghost predicate LatestOf(h: Histories, keys: seq<Key>, at: int, revs: seq<Revision>) {
    && |revs| <= |keys|
    && forall i :: 0 <= i < |revs| ==>
      Truth(History(h, keys[i]), at).Found? && revs[i] == Truth(History(h, keys[i]), at).modified
  }

  lemma LimitedMeans(h: Histories, keys: seq<Key>, at: int, limit: int)
    requires forall k :: k in keys ==> Truth(History(h, k), at).Found?
    ensures LatestOf(h, keys, at, ModifiedAt(h, Limited(keys, limit), at))
    ensures |Limited(keys, limit)| == if 0 < limit < |keys| then limit else |keys|
  {
    hide Truth;
  }

  lemma LimitedStep(h: Histories, live: seq<Key>, k: Key, at: int, limit: int)
    requires Truth(History(h, k), at).Found?
    ensures var old', new' := ModifiedAt(h, Limited(live, limit), at), ModifiedAt(h, Limited(live + [k], limit), at);
      new' == if limit <= 0 || |old'| < limit then old' + [Truth(History(h, k), at).modified] else old'
  {
    hide Truth, ModifiedAt;
    AppendModified(h, live, k, at);
    if 0 < limit <= |live| {
      assert (live + [k])[..limit] == live[..limit] == Limited(live, limit);
    }
  }

  lemma VisitedExactly(all: seq<Key>, start: nat, i: nat, key: Key, end: Key)
    requires Ascending(all) && start <= i <= |all|
    requires forall j :: 0 <= j < start ==> Less(all[j], key)
    requires start < |all| ==> !Less(all[start], key)
    requires forall j :: start <= j < i ==> end == [] || Less(all[j], end)
    requires i < |all| ==> end != [] && !Less(all[i], end)
    ensures Ascending(all[start..i])
    ensures forall k :: k in all[start..i] <==> k in all && InRange(k, key, End(end))
  {
    forall j | 0 <= j < |all|
      ensures start <= j < i <==> InRange(all[j], key, End(end))
    {
      if start < j && Less(all[j], key) { LessTransitive(all[start], all[j], key); }
      if i < j && end != [] && Less(all[j], end) { LessTransitive(all[i], all[j], end); }
    }
    forall k | k in all && InRange(k, key, End(end))
      ensures k in all[start..i]
    {
      var j :| 0 <= j < |all| && all[j] == k;
      assert all[start..i][j - start] == k;
    }
  }

  ghost function KeptOf(c: Contents, ks: seq<Key>, rev: int): set<Revision> {
    if ks == [] then {}
    else KeptOf(c, ks[..|ks| - 1], rev) + Available(ItemsAt(c, ks[|ks| - 1]), rev)
  }

  lemma {:induction false} KeptMembers(c: Contents, ks: seq<Key>, rev: int)
    ensures forall r :: r in KeptOf(c, ks, rev) <==> exists k :: k in ks && r in Available(ItemsAt(c, k), rev)
  {
    hide Available;
    if ks != [] {
      KeptMembers(c, ks[..|ks| - 1], rev);
      assert ks == ks[..|ks| - 1] + [ks[|ks| - 1]];
    }
  }

  /** Compacting has taken nothing from `k` that a compaction at `rev` would keep. */
  ghost predicate SameAvailable(c: Contents, h: Histories, k: Key, rev: int) {
    && Available(ItemsAt(c, k), rev) == Available(Annotate(History(h, k)), rev)
    && (k !in c ==> Available(ItemsAt(c, k), rev) == {})
  }

  lemma KeptAll(c: Contents, h: Histories, ks: seq<Key>, rev: int)
    requires forall k :: k in h ==> SameAvailable(c, h, k, rev)
    requires c.Keys <= h.Keys && forall k :: k in ks <==> k in c
    ensures Collected(KeptOf(c, ks, rev), h, {}, rev)
  {
    hide Available, Annotate, KeptOf, ItemsAt;
    KeptMembers(c, ks, rev);
  }

  lemma ItemsReasonable(c: Contents, h: Histories, waiting: set<Key>, prev: int, cur: int, k: Key)
    requires Agrees(c, h, waiting, prev, cur) && k in c
    ensures forall i :: 0 <= i < |c[k]| ==> c[k][i].rev.main >= 1 && c[k][i].rev.sub >= 0
  {
    AnnotateRevs(h[k]);
    var a := Annotate(h[k]);
    hide Annotate, CompactFrom;
    assert c[k] == a[CompactFrom(a, if k in waiting then prev else cur)..];
  }

  // ---------- merging ----------

  ghost predicate InOrder(revs: seq<Revision>) {
    forall i, j :: 0 <= i < j < |revs| ==> !revs[i].GreaterThan(revs[j])
  }

  ghost function SinceBag(c: Contents, ks: seq<Key>, rev: int): multiset<Revision> {
    if ks == [] then multiset{}
    else SinceBag(c, ks[..|ks| - 1], rev) + multiset(SinceOf(ItemsAt(c, ks[|ks| - 1]), rev))
  }

  method SortRevisions(revs: seq<Revision>) returns (r: seq<Revision>)
    ensures InOrder(r) && multiset(r) == multiset(revs)
  {
    r := [];
    var i := 0;
    while i < |revs|
      invariant 0 <= i <= |revs|
      invariant InOrder(r) && multiset(r) == multiset(revs[..i])
    {
      r := InsertRevision(r, revs[i]);
      assert revs[..i + 1] == revs[..i] + [revs[i]];
      i := i + 1;
    }
    assert revs[..i] == revs;
  }

  method InsertRevision(revs: seq<Revision>, x: Revision) returns (r: seq<Revision>)
    requires InOrder(revs)
    ensures InOrder(r) && multiset(r) == multiset(revs) + multiset{x}
  {
    var j := |revs|;
    while j > 0 && revs[j - 1].GreaterThan(x)
      invariant 0 <= j <= |revs|
      invariant forall k :: j <= k < |revs| ==> revs[k].GreaterThan(x)
    {
      j := j - 1;
    }
    r := revs[..j] + [x] + revs[j..];
    InsertedInOrder(revs, j, x);
    assert revs == revs[..j] + revs[j..];
    hide InOrder;
  }

  lemma InsertedInOrder(revs: seq<Revision>, j: nat, x: Revision)
    requires InOrder(revs) && j <= |revs|
    requires j > 0 ==> !revs[j - 1].GreaterThan(x)
    requires j < |revs| ==> revs[j].GreaterThan(x)
    ensures InOrder(revs[..j] + [x] + revs[j..])
  {
    var r := revs[..j] + [x] + revs[j..];
    forall a, b | 0 <= a < b < |r|
      ensures !r[a].GreaterThan(r[b])
    {
      var p, q := if a < j then revs[a] else if a == j then x else revs[a - 1],
                  if b < j then revs[b] else if b == j then x else revs[b - 1];
      assert r[a] == p && r[b] == q;
      assert a < j - 1 ==> !revs[a].GreaterThan(revs[j - 1]);
      assert j < b - 1 ==> !revs[j].GreaterThan(revs[b - 1]);
    }
  }

  ghost predicate KeysInRange(keys: set<Key>, key: Key, end: RangeEnd, ks: seq<Key>) {
    && Ascending(ks)
    && forall k :: k in ks <==> k in keys && InRange(k, key, end)
  }

  lemma KeysInRangeUnique(keys: set<Key>, key: Key, end: RangeEnd, ks: seq<Key>)
    requires KeysInRange(keys, key, end, ks)
    ensures forall x :: KeysInRange(keys, key, end, x) ==> x == ks
  {
    forall x | KeysInRange(keys, key, end, x)
      ensures x == ks
    {
      AscendingUnique(x, ks);
    }
  }

  /** What the index would hold without any compaction. */
  ghost function Uncompacted(h: Histories): Contents {
    map k | k in h :: Annotate(h[k])
  }

  ghost predicate SameKeys(c: Contents, few: seq<Key>, all: seq<Key>) {
    Ascending(few) && Ascending(all) && forall k :: k in few <==> k in all && k in c
  }

  lemma NoneOfNone(c: Contents, few: seq<Key>)
    requires SameKeys(c, few, [])
    ensures few == []
  {
    assert few != [] ==> exists k :: k in few by {
      if few != [] { FirstIn(few); }
    }
  }

  lemma FirstIn(ks: seq<Key>)
    requires ks != []
    ensures exists k :: k in ks
  {
    assert ks[0] in ks;
  }

  lemma LastKey(ks: seq<Key>, n: nat, k: Key)
    requires Ascending(ks) && n == |ks| - 1 && k in ks && k != ks[n]
    ensures k in ks[..n] && Less(k, ks[n])
  {
    var i :| 0 <= i < |ks| && ks[i] == k;
    assert ks[..n][i] == k;
  }

  lemma DropLast(ks: seq<Key>, n: nat)
    requires Ascending(ks) && n == |ks| - 1
    ensures Ascending(ks[..n])
    ensures forall k :: k in ks[..n] <==> k in ks && k != ks[n]
  {
    assert ks == ks[..n] + [ks[n]];
    forall k | k in ks && k != ks[n]
      ensures k in ks[..n]
    {
      LastKey(ks, n, k);
    }
    forall i | 0 <= i < n
      ensures ks[..n][i] != ks[n]
    {
      assert Less(ks[i], ks[n]);
      LessTotal(ks[n], ks[n]);
    }
  }

  lemma SameLast(c: Contents, few: seq<Key>, all: seq<Key>)
    requires SameKeys(c, few, all) && all != [] && all[|all| - 1] in c
    ensures few != [] && few[|few| - 1] == all[|all| - 1]
  {
    var last := all[|all| - 1];
    assert last in few;
    var f := few[|few| - 1];
    assert f in few;
    if f != last {
      LastKey(all, |all| - 1, f);
      LastKey(few, |few| - 1, last);
      LessTransitive(f, last, f);
      LessTotal(f, f);
    }
  }

  ghost predicate SameSince(c: Contents, full: Contents, k: Key, rev: int) {
    && SinceOf(ItemsAt(c, k), rev) == SinceOf(ItemsAt(full, k), rev)
    && (k !in c ==> SinceOf(ItemsAt(c, k), rev) == [])
  }

  /** Keys that are absent contribute nothing. */
  lemma {:induction false} SinceComplete(c: Contents, full: Contents, few: seq<Key>, all: seq<Key>, rev: int)
    requires SameKeys(c, few, all) && forall k :: k in all ==> SameSince(c, full, k, rev)
    ensures SinceBag(c, few, rev) == SinceBag(full, all, rev)
    decreases |all|
  {
    hide Ascending, SinceOf, ItemsAt;
    if all == [] {
      NoneOfNone(c, few);
    } else {
      var n, k := |all| - 1, all[|all| - 1];
      assert SameSince(c, full, k, rev);
      DropLast(all, n);
      if k in c {
        SameLast(c, few, all);
        DropLast(few, |few| - 1);
        SinceComplete(c, full, few[..|few| - 1], all[..n], rev);
      } else {
        SinceComplete(c, full, few, all[..n], rev);
      }
    }
  }

  /** Compacting before a revision takes nothing that a scan from it would report. */
  lemma CompactedSince(c: Contents, h: Histories, k: Key, at: int, rev: int)
    requires k in h && at < rev && Lawful(h[k]) && ItemsAt(c, k) == Compacted(Annotate(h[k]), at)
    ensures SameSince(c, Uncompacted(h), k, rev)
  {
    AnnotateRevs(h[k]);
    CompactKeepsSince(Annotate(h[k]), at, rev);
    assert SinceOf([], rev) == [];
    hide Annotate, SinceOf, CompactFrom;
  }

  lemma SinceInRange(c: Contents, h: Histories, waiting: set<Key>, prev: int, cur: int,
                     key: Key, end: RangeEnd, ks: seq<Key>, rev: int)
    requires Agrees(c, h, waiting, prev, cur) && cur < rev && KeysInRange(c.Keys, key, end, ks)
    ensures forall all :: KeysInRange(h.Keys, key, end, all) ==>
      SinceBag(c, ks, rev) == SinceBag(Uncompacted(h), all, rev)
  {
    forall all | KeysInRange(h.Keys, key, end, all)
      ensures SinceBag(c, ks, rev) == SinceBag(Uncompacted(h), all, rev)
    {
      assert c.Keys <= h.Keys;
      assert SameKeys(c, ks, all);
      forall k | k in all
        ensures SameSince(c, Uncompacted(h), k, rev)
      {
        CompactedSince(c, h, k, if k in waiting then prev else cur, rev);
      }
      hide Agrees, SameSince, SameKeys, KeysInRange, Uncompacted;
      SinceComplete(c, Uncompacted(h), ks, all, rev);
    }
  }

  // ---------- the index ----------

  ghost predicate Stored(ki: KeyIndex, k: Key)
    reads ki
  {
    ki.key == k && ki.Valid() && ki.generations != [] && !ki.IsEmpty()
  }

  ghost function KeysOf(kis: seq<KeyIndex>): set<Key> {
    set i | 0 <= i < |kis| :: kis[i].key
  }

  /** The cloned tree shares its items with the tree. */
  ghost predicate Cloned(kis: seq<KeyIndex>, t: map<Key, KeyIndex>) {
    && (forall i :: 0 <= i < |kis| ==> kis[i].key in t && t[kis[i].key] == kis[i])
    && (forall i, j :: 0 <= i < j < |kis| ==> kis[i].key != kis[j].key)
  }

  lemma ClonedRest(kis: seq<KeyIndex>, t: map<Key, KeyIndex>)
    requires Cloned(kis, t) && kis != []
    ensures Cloned(kis[1..], t) && Cloned(kis[1..], t - {kis[0].key})
    ensures KeysOf(kis[1..]) == KeysOf(kis) - {kis[0].key}
    ensures kis[0].key in t && t[kis[0].key] == kis[0] && kis[0].key in KeysOf(kis)
  {
    var rest := kis[1..];
    forall i | 0 < i < |kis|
      ensures kis[i].key in KeysOf(rest)
    {
      assert rest[i - 1].key == kis[i].key;
    }
  }

  lemma ClonedAll(kis: seq<KeyIndex>, ks: seq<Key>, t: map<Key, KeyIndex>)
    requires Ascending(ks) && forall k :: k in ks <==> k in t
    requires |kis| == |ks| && forall j :: 0 <= j < |ks| ==> kis[j] == t[ks[j]]
    requires forall k :: k in t ==> t[k].key == k
    ensures Cloned(kis, t) && KeysOf(kis) == t.Keys
  {
    forall i, j | 0 <= i < j < |kis|
      ensures kis[i].key != kis[j].key
    {
      assert Less(ks[i], ks[j]);
      LessTotal(ks[i], ks[i]);
    }
    forall k | k in t
      ensures k in KeysOf(kis)
    {
      var j :| 0 <= j < |ks| && ks[j] == k;
      assert kis[j].key == k;
    }
  }

  method CloneTree(t: map<Key, KeyIndex>) returns (kis: seq<KeyIndex>)
    requires forall k :: k in t ==> t[k].key == k
    ensures Cloned(kis, t) && KeysOf(kis) == t.Keys
  {
    var ks := SortKeys(t.Keys);
    kis := seq(|ks|, i requires 0 <= i < |ks| && ks[i] in t => t[ks[i]]);
    ClonedAll(kis, ks, t);
  }

  class TreeIndex {
    var tree: map<Key, KeyIndex>
    /** The part of the cloned tree that the running compaction has not visited. */
    var clone: seq<KeyIndex>
    /** The revision of the last compaction, and what that one has reported so far. */
    var compactRev: int
    var available: set<Revision>

    ghost var histories: Histories
    ghost var prevRev: int

    ghost function Contents(): Contents
      reads this, tree.Values
    {
      map k | k in tree :: tree[k].items
    }

    ghost function Waiting(): set<Key>
      reads this
    {
      KeysOf(clone)
    }

    /** Each stored index is sound and not empty, and what the compaction has still
        to visit is what the tree holds. */
    ghost predicate Linked()
      reads this, tree.Values
    {
      && (forall k :: k in tree ==> Stored(tree[k], k))
      && Cloned(clone, tree)
    }

    ghost predicate Valid()
      reads this, tree.Values
    {
      && Linked()
      && Agrees(Contents(), histories, Waiting(), prevRev, compactRev)
      && Collected(available, histories, Waiting(), compactRev)
    }

    constructor ()
      ensures Valid() && tree == map[] && clone == [] && histories == map[] && compactRev == -1
    {
      tree, clone, available := map[], [], {};
      histories, prevRev, compactRev := map[], -1, -1;
    }

    method Put(key: Key, rev: Revision)
      requires Valid()
      requires rev.main > compactRev
      requires Reasonable(History(histories, key) + [Event(rev, false)])
      modifies this, tree.Values
      ensures Valid()
      ensures histories == old(histories)[key := History(old(histories), key) + [Event(rev, false)]]
      ensures compactRev == old(compactRev) && prevRev == old(prevRev)
      ensures clone == old(clone) && available == old(available)
    {
      hide Agrees, Reasonable, ItemsOf, Shaped, Sorted, Extend, Annotate, Linked, Collected;
      ghost var c, e, h := Contents(), Event(rev, false), History(histories, key);
      WriteAgrees(c, histories, Waiting(), prevRev, compactRev, key, e);
      WriteCollected(available, histories, Waiting(), compactRev, key, e);
      MainPositive(h, e);
      KeysMatch();
      var keyi;
      if key !in tree {
        keyi := new KeyIndex(key);
        keyi.Put(rev.main, rev.sub);
        tree := tree[key := keyi];
      } else {
        NewerThanStored(c, histories, Waiting(), prevRev, compactRev, key, e);
        keyi := tree[key];
        StoredInTree(key);
        keyi.Put(rev.main, rev.sub);
      }
      histories := histories[key := h + [e]];
      OneWritten(key, keyi);
    }

    method Tombstone(key: Key, rev: Revision) returns (ok: bool)
      requires Valid()
      requires rev.main > compactRev
      requires KeyLive(History(histories, key)) ==> Reasonable(History(histories, key) + [Event(rev, true)])
      modifies this, tree.Values
      ensures Valid()
      ensures ok == KeyLive(History(old(histories), key))
      ensures histories == if !ok then old(histories)
                           else old(histories)[key := History(old(histories), key) + [Event(rev, true)]]
      ensures compactRev == old(compactRev) && prevRev == old(prevRev)
      ensures clone == old(clone) && available == old(available)
    {
      hide Agrees, Reasonable, ItemsOf, Shaped, Sorted, Extend, Annotate, Linked, Live, Collected;
      ghost var c, e, h := Contents(), Event(rev, true), History(histories, key);
      LiveAgrees(c, histories, Waiting(), prevRev, compactRev, key);
      if key !in tree {
        return false;
      }
      KeysMatch();
      StoredInTree(key);
      var keyi := tree[key];
      if KeyLive(h) {
        WriteAgrees(c, histories, Waiting(), prevRev, compactRev, key, e);
        WriteCollected(available, histories, Waiting(), compactRev, key, e);
        NewerThanStored(c, histories, Waiting(), prevRev, compactRev, key, e);
      }
      ok := keyi.Tombstone(rev.main, rev.sub);
      if ok {
        histories := histories[key := h + [e]];
      }
      OneWritten(key, keyi);
      assert !ok ==> Contents() == c;
    }

    /** The store refuses reads below the compacted revision before they get here. */
    method Get(key: Key, atRev: int) returns (a: Answer)
      requires Valid() && atRev >= compactRev
      ensures a == Truth(History(histories, key), atRev)
    {
      ReadAgrees(Contents(), histories, Waiting(), prevRev, compactRev, key, atRev);
      if key !in tree {
        return NotFound;
      }
      StoredInTree(key);
      a := tree[key].Get(atRev);
    }

    /** The locked start of Compact: clone the tree. One compaction runs at a time. */
    method BeginCompact(rev: int)
      requires Valid() && clone == [] && rev >= compactRev
      modifies this
      ensures Valid()
      ensures tree == old(tree) && histories == old(histories)
      ensures prevRev == old(compactRev) && compactRev == rev
      ensures Waiting() == tree.Keys
    {
      hide Agrees, Stored, Collected, Contents, Cloned, KeysOf;
      ghost var c := Contents();
      CanBegin(rev);
      KeysMatch();
      clone := CloneTree(tree);
      available := {};
      prevRev, compactRev := compactRev, rev;
      ContentsAre(c);
      assert Linked();
    }

    lemma CanBegin(rev: int)
      requires Valid() && clone == [] && rev >= compactRev
      ensures Agrees(Contents(), histories, tree.Keys, compactRev, rev)
      ensures Collected({}, histories, tree.Keys, rev)
      ensures forall k :: k in tree ==> tree[k].key == k && tree[k].items == Contents()[k]
      ensures Contents().Keys == tree.Keys
    {
      hide Agrees, Collected;
      assert Waiting() == {};
      assert Contents().Keys == tree.Keys;
      BeginAgrees(Contents(), histories, prevRev, compactRev, rev);
      BeginCollected(Contents(), histories, prevRev, compactRev, rev);
    }

    /** One locked step of Compact: the next cloned index is compacted, and removed when
        nothing is left of it. The panics of the source are the `assert` here and the
        precondition of KeyIndex.Compact. */
    method CompactNext()
      requires Valid() && clone != []
      modifies this, clone[0]
      ensures Valid()
      ensures histories == old(histories) && compactRev == old(compactRev) && prevRev == old(prevRev)
      ensures clone == old(clone)[1..]
      ensures Waiting() == old(Waiting()) - {old(clone)[0].key}
    {
      hide TreeIndex.Valid, KeyIndex.Valid, KeyIndex.IsEmpty;
      hide Agrees, Collected, Compacted, Available, Contents, Cloned, KeysOf;
      var keyi := clone[0];
      ghost var c, cut := Contents(), CompactKey(Contents(), clone[0].key, compactRev);
      CanVisit();
      available := keyi.Compact(compactRev, available);
      if keyi.IsEmpty() {
        assert keyi.key in tree;
        tree := tree - {keyi.key};
      }
      clone := clone[1..];
      assert keyi.items != [] ==> Stored(keyi, keyi.key);
      hide Stored;
      assert cut == if keyi.items == [] then c - {keyi.key} else c[keyi.key := keyi.items];
      forall k | k in tree && k != keyi.key
        ensures Stored(tree[k], k) && tree[k].items == cut[k]
      {
        assert tree[k] != keyi;
      }
      ValidWith(cut);
    }

    lemma CanVisit()
      requires Valid() && clone != []
      ensures var ki := clone[0];
        && ki.key in tree && tree[ki.key] == ki && Stored(ki, ki.key)
        && ItemsAt(Contents(), ki.key) == ki.items
        && Cloned(clone[1..], tree) && Cloned(clone[1..], tree - {ki.key})
        && KeysOf(clone[1..]) == Waiting() - {ki.key}
        && Agrees(CompactKey(Contents(), ki.key, compactRev), histories, Waiting() - {ki.key}, prevRev, compactRev)
        && Collected(available + Available(ki.items, compactRev), histories, Waiting() - {ki.key}, compactRev)
      ensures forall k :: k in tree ==> Stored(tree[k], k) && tree[k].key == k && tree[k].items == Contents()[k]
      ensures Contents().Keys == tree.Keys
    {
      hide Agrees, Collected, Available, CompactKey, ItemsOf, Shaped, Sorted;
      ClonedRest(clone, tree);
      CompactKeyAgrees(Contents(), histories, Waiting(), prevRev, compactRev, clone[0].key);
      CompactKeyCollected(Contents(), available, histories, Waiting(), prevRev, compactRev, clone[0].key);
    }

    lemma NothingLost(rev: int)
      requires Valid() && rev >= compactRev
      ensures Contents().Keys <= histories.Keys
      ensures forall k :: k in histories ==> SameAvailable(Contents(), histories, k, rev)
    {
      hide Annotate, Compacted, Reasonable, Stored, Collected;
      assert Available([], rev) == {};
      forall k | k in histories
        ensures SameAvailable(Contents(), histories, k, rev)
      {
        AvailableCompacted(Annotate(histories[k]), if k in Waiting() then prevRev else compactRev, rev);
      }
    }

    lemma AllKept(ks: seq<Key>, rev: int)
      requires Valid() && rev >= compactRev
      requires forall k :: k in ks <==> k in tree
      ensures Collected(KeptOf(Contents(), ks, rev), histories, {}, rev)
    {
      hide Agrees, Stored, Collected, SameAvailable, KeptOf;
      NothingLost(rev);
      KeptAll(Contents(), histories, ks, rev);
    }

    /** The revisions a compaction at `rev` would keep, of all keys. */
    method Keep(rev: int) returns (keep: set<Revision>)
      requires Valid() && rev >= compactRev
      ensures Collected(keep, histories, {}, rev)
    {
      hide TreeIndex.Valid, KeyIndex.Valid, Contents, Available;
      ghost var c := Contents();
      keep := {};
      var ks := SortKeys(tree.Keys);
      var i := 0;
      while i < |ks|
        invariant 0 <= i <= |ks|
        invariant keep == KeptOf(c, ks[..i], rev)
      {
        CanScan(ks[i]);
        keep := tree[ks[i]].Keep(rev, keep);
        assert ks[..i + 1][..i] == ks[..i];
        i := i + 1;
      }
      assert ks[..i] == ks;
      AllKept(ks, rev);
    }

    /** The keys from `key` on, in order, up to but not including a non-empty `end`. */
    method Visit(key: Key, end: Key) returns (ks: seq<Key>)
      ensures KeysInRange(tree.Keys, key, End(end), ks)
    {
      var all := SortKeys(tree.Keys);
      var i := 0;
      while i < |all| && Less(all[i], key)
        invariant 0 <= i <= |all|
        invariant forall j :: 0 <= j < i ==> Less(all[j], key)
      {
        i := i + 1;
      }
      var start := i;
      while i < |all|
        invariant start <= i <= |all|
        invariant forall j :: start <= j < i ==> end == [] || Less(all[j], end)
      {
        if |end| > 0 && !Less(all[i], end) {
          break;
        }
        i := i + 1;
      }
      ks := all[start..i];
      VisitedExactly(all, start, i, key, end);
    }

    lemma DeadOutsideTree(atRev: int)
      requires Valid() && atRev >= compactRev
      ensures forall k :: k !in tree ==> Truth(History(histories, k), atRev).NotFound?
    {
      forall k | k !in tree
        ensures Truth(History(histories, k), atRev).NotFound?
      {
        ReadAgrees(Contents(), histories, Waiting(), prevRev, compactRev, k, atRev);
      }
    }

    /** The revisions of the live keys of a range in key order, at most `limit` of them
        when it is positive, and the full count. */
    method Revisions(key: Key, end: RangeEnd, atRev: int, limit: int) returns (revs: seq<Revision>, total: nat)
      requires Valid() && atRev >= compactRev
      ensures |revs| == if 0 < limit < total then limit else total
      ensures forall keys :: LiveKeys(histories, key, end, atRev, keys) ==>
        total == |keys| && LatestOf(histories, keys, atRev, revs)
    {
      hide Agrees, Stored, Cloned, Truth, Linked, Collected, Annotate;
      if end.Nil? {
        var a := Get(key, atRev);
        SingleKey(histories, key, atRev);
        hide LatestOf;
        if a.NotFound? {
          return [], 0;
        }
        return [a.modified], 1;
      }
      var ks := Visit(key, end.bytes);
      revs, total := [], 0;
      var i := 0;
      while i < |ks|
        invariant 0 <= i <= |ks|
        invariant total == |LiveOf(histories, ks[..i], atRev)|
        invariant revs == ModifiedAt(histories, Limited(LiveOf(histories, ks[..i], atRev), limit), atRev)
      {
        var a := Get(ks[i], atRev);
        assert ks[..i + 1][..i] == ks[..i];
        if a.Found? {
          LimitedStep(histories, LiveOf(histories, ks[..i], atRev), ks[i], atRev, limit);
          if limit <= 0 || |revs| < limit {
            revs := revs + [a.modified];
          }
          total := total + 1;
        }
        i := i + 1;
      }
      assert ks[..i] == ks;
      DeadOutsideTree(atRev);
      LiveOfMeaning(histories, ks, atRev);
      LiveKeysUnique(histories, key, end, atRev, LiveOf(histories, ks, atRev));
      LimitedMeans(histories, LiveOf(histories, ks, atRev), atRev, limit);
    }

    /** The visible revisions at or above `rev` of every key in range, merged in order: as
        the index stores them, and above the compacted revision as if nothing had ever
        been compacted. */
    method RangeSince(key: Key, end: RangeEnd, rev: int) returns (revs: seq<Revision>)
      requires Valid()
      ensures InOrder(revs)
      ensures forall ks :: KeysInRange(tree.Keys, key, end, ks) ==> multiset(revs) == SinceBag(Contents(), ks, rev)
      ensures rev > compactRev ==> forall ks :: KeysInRange(histories.Keys, key, end, ks) ==>
        multiset(revs) == SinceBag(Uncompacted(histories), ks, rev)
    {
      hide TreeIndex.Valid, Contents, InOrder, Uncompacted, SinceBag;
      ghost var ks := [];
      if end.Nil? {
        ks := if key in tree then [key] else [];
        revs := SinceKey(key, rev);
      } else {
        var visited := Visit(key, end.bytes);
        ks := visited;
        revs := SinceKeys(visited, rev);
        revs := SortRevisions(revs);
      }
      assert KeysInRange(tree.Keys, key, end, ks);
      assert multiset(revs) == SinceBag(Contents(), ks, rev);
      KeysInRangeUnique(tree.Keys, key, end, ks);
      hide KeysInRange, Agrees;
      ContentsAgree();
      if rev > compactRev {
        SinceInRange(Contents(), histories, Waiting(), prevRev, compactRev, key, end, ks, rev);
      }
    }

    lemma ContentsAgree()
      requires Valid()
      ensures Agrees(Contents(), histories, Waiting(), prevRev, compactRev) && Contents().Keys == tree.Keys
    {
    }

    method SinceKeys(ks: seq<Key>, rev: int) returns (revs: seq<Revision>)
      requires Valid() && forall k :: k in ks ==> k in tree
      ensures multiset(revs) == SinceBag(Contents(), ks, rev)
    {
      hide TreeIndex.Valid, KeyIndex.Valid, Contents, SinceOf;
      ghost var c := Contents();
      revs := [];
      var i := 0;
      while i < |ks|
        invariant 0 <= i <= |ks|
        invariant multiset(revs) == SinceBag(c, ks[..i], rev)
      {
        CanScan(ks[i]);
        var more := tree[ks[i]].Since(rev);
        revs := revs + more;
        assert ks[..i + 1][..i] == ks[..i];
        i := i + 1;
      }
      assert ks[..i] == ks;
    }

    method SinceKey(key: Key, rev: int) returns (revs: seq<Revision>)
      requires Valid()
      ensures InOrder(revs)
      ensures forall ks :: KeysInRange(tree.Keys, key, Nil, ks) ==> multiset(revs) == SinceBag(Contents(), ks, rev)
    {
      hide TreeIndex.Valid, KeyIndex.Valid, Contents, SinceOf;
      ghost var c := Contents();
      KeysInRangeUnique(tree.Keys, key, Nil, if key in tree then [key] else []);
      hide KeysInRange;
      if key !in tree {
        return [];
      }
      hide InOrder;
      CanScan(key);
      revs := tree[key].Since(rev);
      SinceInOrder(tree[key], rev);
      assert [key][..0] == [] && SinceBag(c, [key], rev) == multiset(revs);
    }

    lemma CanScan(key: Key)
      requires Valid() && key in tree
      ensures tree[key].Valid() && tree[key].generations != [] && !tree[key].IsEmpty()
      ensures tree[key].items == ItemsAt(Contents(), key)
      ensures var items := tree[key].items;
        forall i :: 0 <= i < |items| ==> items[i].rev.main >= 1 && items[i].rev.sub >= 0
    {
      StoredInTree(key);
      ItemsReasonable(Contents(), histories, Waiting(), prevRev, compactRev, key);
    }

    lemma SinceInOrder(ki: KeyIndex, rev: int)
      requires ki.Valid()
      ensures InOrder(SinceOf(ki.items, rev))
    {
      VisibleRevsIncrease(ki.items, rev, |ki.items|);
    }

    /** Determines the contents from the stored items. */
    lemma ContentsAre(c: Contents)
      requires c.Keys == tree.Keys && forall k :: k in tree ==> tree[k].items == c[k]
      ensures Contents() == c
    {
    }

    lemma ValidWith(c: Contents)
      requires Linked() && c.Keys == tree.Keys && forall k :: k in tree ==> tree[k].items == c[k]
      requires Agrees(c, histories, Waiting(), prevRev, compactRev)
      requires Collected(available, histories, Waiting(), compactRev)
      ensures Valid()
    {
      hide Agrees, Collected;
      ContentsAre(c);
    }

    lemma StoredInTree(key: Key)
      requires Linked() && key in tree
      ensures Stored(tree[key], key)
    {
    }

    lemma KeysMatch()
      requires Linked()
      ensures forall k :: k in tree ==> tree[k].key == k
    {
    }

    /** Writing to the index of one key leaves the links between tree and clone alone. */
    twostate lemma OneWritten(key: Key, new ki: KeyIndex)
      requires old(Linked())
      requires tree == old(tree)[key := ki] && clone == old(clone)
      requires key in old(tree) ==> ki == old(tree)[key]
      requires Stored(ki, key)
      requires forall k :: k in old(tree) && k != key ==> unchanged(old(tree)[k])
      ensures Linked()
      ensures Contents() == old(Contents())[key := ki.items]
      ensures Waiting() == old(Waiting())
    {
      hide KeyIndex.Valid;
      forall k | k in tree && k != key
        ensures Stored(tree[k], k) && tree[k].items == old(Contents())[k]
      {
        assert tree[k] == old(tree)[k];
      }
      hide Stored;
      assert Contents() == old(Contents())[key := ki.items];
    }
  }
}
