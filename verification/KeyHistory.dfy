// The history of one key, as a flat list of revisions. It is the reference
// that the generation lists of etcd/mvcc/key_index.go are proved against.
module KeyHistory {

  datatype Revision = Revision(main: int, sub: int) {
    predicate GreaterThan(b: Revision) {
      main > b.main || (main == b.main && sub > b.sub)
    }
  }

  /** A strict total order in which the main revision comes first. */
  lemma RevisionOrder(a: Revision, b: Revision, c: Revision)
    ensures a.main > b.main ==> a.GreaterThan(b)
    ensures a.main == b.main ==> (a.GreaterThan(b) <==> a.sub > b.sub)
    ensures a == b || a.GreaterThan(b) || b.GreaterThan(a)
    ensures !(a.GreaterThan(b) && b.GreaterThan(a))
    ensures a.GreaterThan(b) && b.GreaterThan(c) ==> a.GreaterThan(c)
  {
  }

  /** One modification of a key: a put, or a tombstone. */
  datatype Event = Event(rev: Revision, tomb: bool)

  /** An event together with the revision that created the key and the
      number of modifications since then. */
  datatype Item = Item(rev: Revision, tomb: bool, created: Revision, ver: int)

  datatype Answer = NotFound | Found(modified: Revision, created: Revision, ver: int)

  predicate Live(items: seq<Item>) {
    items != [] && !items[|items| - 1].tomb
  }

  function Extend(items: seq<Item>, e: Event): seq<Item> {
    if Live(items) then
      items + [Item(e.rev, e.tomb, items[|items| - 1].created, items[|items| - 1].ver + 1)]
    else
      items + [Item(e.rev, e.tomb, e.rev, 1)]
  }

  function Annotate(h: seq<Event>): seq<Item> {
    if h == [] then [] else Extend(Annotate(h[..|h| - 1]), h[|h| - 1])
  }

  ghost predicate Sorted(items: seq<Item>) {
    forall i, j :: 0 <= i < j < |items| ==> items[j].rev.GreaterThan(items[i].rev)
  }

  /** Revisions only grow, and a tombstone always follows a put. */
  ghost predicate Lawful(h: seq<Event>) {
    && (forall i, j :: 0 <= i < j < |h| ==> h[j].rev.GreaterThan(h[i].rev))
    && (h != [] ==> !h[0].tomb)
    && (forall i, j :: 0 <= i < j < |h| && j == i + 1 ==> !(h[i].tomb && h[j].tomb))
  }

  ghost predicate TombsFollowPuts(items: seq<Item>) {
    && (items != [] ==> !items[0].tomb)
    && (forall i, j :: 0 <= i < j < |items| && j == i + 1 ==> !(items[i].tomb && items[j].tomb))
  }

  lemma SortedExtend(items: seq<Item>, e: Event)
    requires Sorted(items)
    requires items != [] ==> e.rev.GreaterThan(items[|items| - 1].rev)
    ensures Sorted(Extend(items, e))
  {
    var ext := Extend(items, e);
    forall i, j | 0 <= i < j < |ext|
      ensures ext[j].rev.GreaterThan(ext[i].rev)
    {
      assert i < |items| - 1 ==> items[|items| - 1].rev.GreaterThan(items[i].rev);
    }
  }

  function CloseLife(items: seq<Item>): seq<Item>
    requires items != []
  {
    items[|items| - 1 := items[|items| - 1].(tomb := true)]
  }

  lemma SortedCloseLife(items: seq<Item>)
    requires items != [] && Sorted(items)
    ensures Sorted(CloseLife(items))
  {
    var c := CloseLife(items);
    assert forall i :: 0 <= i < |c| ==> c[i].rev == items[i].rev;
  }

  lemma SortedSuffix(items: seq<Item>, k: nat)
    requires k <= |items| && Sorted(items)
    ensures Sorted(items[k..])
    ensures k < |items| ==> items[k..][|items| - k - 1] == items[|items| - 1]
  {
  }

  // ---------- reading ----------

  /** The position of the last item at or before main revision `at`, or -1. */
  function Latest(items: seq<Item>, at: int): (n: int)
    ensures -1 <= n < |items|
    ensures n >= 0 ==> items[n].rev.main <= at
    ensures forall j :: n < j < |items| ==> items[j].rev.main > at
  {
    if items == [] then -1
    else if items[|items| - 1].rev.main <= at then |items| - 1
    else Latest(items[..|items| - 1], at)
  }

  lemma LatestUnique(items: seq<Item>, at: int, n: int)
    requires -1 <= n < |items|
    requires n >= 0 ==> items[n].rev.main <= at
    requires forall j :: n < j < |items| ==> items[j].rev.main > at
    ensures Latest(items, at) == n
  {
    var m := Latest(items, at);
    assert n >= 0 ==> items[n].rev.main <= at;
    assert m >= 0 ==> items[m].rev.main <= at;
  }

  function Lookup(items: seq<Item>, at: int): Answer {
    var n := Latest(items, at);
    if n == -1 || items[n].tomb then NotFound
    else Found(items[n].rev, items[n].created, items[n].ver)
  }

  /** Where the life of the key that includes event `n` began. */
  ghost function Birth(h: seq<Event>, n: nat): (b: nat)
    requires n < |h|
    ensures b <= n
  {
    if n == 0 || h[n - 1].tomb then n else Birth(h, n - 1)
  }

  /** Creation revision and version read off the uncompacted event list. */
  lemma {:induction false} AnnotateMeaning(h: seq<Event>, n: nat)
    requires n < |h|
    ensures |Annotate(h)| == |h|
    ensures Annotate(h)[n]
         == Item(h[n].rev, h[n].tomb, h[Birth(h, n)].rev, n - Birth(h, n) + 1)
  {
    var p := h[..|h| - 1];
    assert Annotate(h) == Extend(Annotate(p), h[|h| - 1]);
    if |h| > 1 {
      var m := if n < |p| then n else |p| - 1;
      AnnotateMeaning(p, m);
      BirthPrefix(h, m);
      hide Annotate;
      assert p[m] == h[m] && p[Birth(p, m)] == h[Birth(h, m)];
    }
  }

  lemma {:induction false} BirthPrefix(h: seq<Event>, n: nat)
    requires n < |h| - 1
    ensures Birth(h, n) == Birth(h[..|h| - 1], n)
  {
    if n > 0 && !h[n - 1].tomb { BirthPrefix(h, n - 1); }
  }

  lemma {:induction false} AnnotateRevs(h: seq<Event>)
    ensures |Annotate(h)| == |h|
    ensures forall i :: 0 <= i < |h| ==> Annotate(h)[i].rev == h[i].rev && Annotate(h)[i].tomb == h[i].tomb
  {
    forall i | 0 <= i < |h|
      ensures |Annotate(h)| == |h| && Annotate(h)[i].rev == h[i].rev && Annotate(h)[i].tomb == h[i].tomb
    {
      AnnotateMeaning(h, i);
    }
  }

  /** The answer a reader must get, stated on the events alone: the latest
      event at or before `at` decides, a tombstone hides the key, and the
      creation revision and version count from the birth of that life. */
  ghost function Truth(h: seq<Event>, at: int): Answer {
    var n := LatestEvent(h, at);
    if n == -1 || h[n].tomb then NotFound
    else Found(h[n].rev, h[Birth(h, n)].rev, n - Birth(h, n) + 1)
  }

  ghost function LatestEvent(h: seq<Event>, at: int): (n: int)
    ensures -1 <= n < |h|
    ensures n >= 0 ==> h[n].rev.main <= at
    ensures forall j :: n < j < |h| ==> h[j].rev.main > at
  {
    if h == [] then -1
    else
      var later := LatestEvent(h[1..], at);
      assert forall j :: 0 < j < |h| ==> h[j] == h[1..][j - 1];
      if later >= 0 then later + 1 else if h[0].rev.main <= at then 0 else -1
  }

  lemma LookupIsTruth(h: seq<Event>, at: int)
    ensures Lookup(Annotate(h), at) == Truth(h, at)
  {
    AnnotateRevs(h);
    var n := LatestEvent(h, at);
    LatestUnique(Annotate(h), at, n);
    if n >= 0 { AnnotateMeaning(h, n); }
  }

  // ---------- compaction ----------

  /** Compaction drops a prefix: everything before the latest item at or
      before `at`, and that item too when it is a tombstone. */
  function CompactFrom(items: seq<Item>, at: int): (k: nat)
    ensures k <= |items|
  {
    var n := Latest(items, at);
    if n == -1 then 0 else if items[n].tomb then n + 1 else n
  }

  function Compacted(items: seq<Item>, at: int): seq<Item> {
    items[CompactFrom(items, at)..]
  }

  lemma LatestOfSuffix(items: seq<Item>, k: nat, at: int)
    requires k <= |items|
    ensures Latest(items[k..], at) == if Latest(items, at) >= k then Latest(items, at) - k else -1
  {
    var n := Latest(items, at);
    LatestUnique(items[k..], at, if n >= k then n - k else -1);
  }

  /** Reads at or above the compacted revision do not see the compaction. */
  lemma CompactKeepsReads(items: seq<Item>, c: int, at: int)
    requires c <= at
    ensures Lookup(Compacted(items, c), at) == Lookup(items, at)
  {
    var m, n := Latest(items, c), Latest(items, at);
    assert m >= 0 ==> items[m].rev.main <= at;
    LatestOfSuffix(items, CompactFrom(items, c), at);
  }

  lemma CompactTwice(items: seq<Item>, c1: int, c2: int)
    requires c1 <= c2
    ensures Compacted(Compacted(items, c1), c2) == Compacted(items, c2)
  {
    hide Latest;
    var k, m, n := CompactFrom(items, c1), Latest(items, c1), Latest(items, c2);
    assert m >= 0 ==> items[m].rev.main <= c2;
    assert m <= n;
    LatestOfSuffix(items, k, c2);
    var left := items[k..];
    assert n >= k ==> left[n - k] == items[n];
    assert CompactFrom(left, c2) == CompactFrom(items, c2) - k;
  }

  lemma LiveSuffix(items: seq<Item>, k: nat, e: Event)
    requires k <= |items|
    requires k == |items| ==> !Live(items)
    ensures Live(items[k..]) == Live(items)
    ensures Extend(items[k..], e) == Extend(items, e)[k..]
  {
    assert k < |items| ==> items[k..][|items| - k - 1] == items[|items| - 1];
    var x := Extend(items, e)[|items|];
    assert (items + [x])[k..] == items[k..] + [x];
  }

  lemma LatestExtend(items: seq<Item>, c: int, e: Event)
    requires e.rev.main > c
    ensures Latest(Extend(items, e), c) == Latest(items, c)
    ensures CompactFrom(Extend(items, e), c) == CompactFrom(items, c)
  {
    var ext := Extend(items, e);
    assert ext[..|items|] == items;
  }

  /** A modification above the compacted revision commutes with compaction. */
  lemma CompactExtend(items: seq<Item>, c: int, e: Event)
    requires e.rev.main > c
    ensures Compacted(Extend(items, e), c) == Extend(Compacted(items, c), e)
    ensures Live(Compacted(items, c)) == Live(items)
  {
    LatestExtend(items, c, e);
    hide Latest, Extend;
    LiveSuffix(items, CompactFrom(items, c), e);
  }

  /** The revisions at or before `at` that survive: at most one. */
  ghost function Available(items: seq<Item>, at: int): set<Revision> {
    var n := Latest(items, at);
    if n == -1 || items[n].tomb then {} else {items[n].rev}
  }

  lemma AvailableExtend(items: seq<Item>, c: int, e: Event)
    requires e.rev.main > c
    ensures Available(Extend(items, e), c) == Available(items, c)
  {
    LatestExtend(items, c, e);
  }

  lemma AvailableCompacted(items: seq<Item>, c1: int, c2: int)
    requires c1 <= c2
    ensures Available(Compacted(items, c1), c2) == Available(items, c2)
  {
    var m, n := Latest(items, c1), Latest(items, c2);
    assert m >= 0 ==> items[m].rev.main <= c2;
    LatestOfSuffix(items, CompactFrom(items, c1), c2);
  }

  lemma LiveCompacted(items: seq<Item>, c: int)
    ensures Live(Compacted(items, c)) == Live(items)
  {
    var k := CompactFrom(items, c);
    assert k < |items| ==> items[k..][|items| - k - 1] == items[|items| - 1];
  }

  ghost function Revs(items: seq<Item>): set<Revision> {
    set i | 0 <= i < |items| :: items[i].rev
  }

  lemma SurvivorIndex(items: seq<Item>, at: int, i: nat)
    requires Sorted(items) && i < |items|
    ensures CompactFrom(items, at) <= i
        <==> items[i].rev.main > at || (i == Latest(items, at) && !items[i].tomb)
  {
    var n := Latest(items, at);
    assert i < n ==> items[n].rev.GreaterThan(items[i].rev);
  }

  /** What is left is exactly the available revisions and those above `at`;
      the first survivor is a put. */
  lemma SurvivorsExact(items: seq<Item>, at: int)
    requires Sorted(items)
    requires TombsFollowPuts(items)
    ensures forall r :: r in Revs(Compacted(items, at))
                   <==> r in Available(items, at) || (r in Revs(items) && r.main > at)
    ensures Compacted(items, at) != [] ==> !Compacted(items, at)[0].tomb
  {
    var n, k := Latest(items, at), CompactFrom(items, at);
    var left := Compacted(items, at);
    forall r | r in Revs(left)
      ensures r in Available(items, at) || (r in Revs(items) && r.main > at)
    {
      var i :| 0 <= i < |left| && left[i].rev == r;
      SurvivorIndex(items, at, k + i);
    }
    forall r | r in Available(items, at)
      ensures r in Revs(left)
    {
      assert left[0].rev == r;
    }
    forall r | r in Revs(items) && r.main > at
      ensures r in Revs(left)
    {
      var i :| 0 <= i < |items| && items[i].rev == r;
      SurvivorIndex(items, at, i);
      assert left[i - k].rev == r;
    }
  }

  // ---------- replaying what is left ----------

  function EventOf(i: Item): Event {
    Event(i.rev, i.tomb)
  }

  /** Each item continues the one before it. */
  ghost predicate Continues(items: seq<Item>, n: int) {
    0 < n < |items| ==> items[..n + 1] == Extend(items[..n], EventOf(items[n]))
  }

  ghost predicate Chained(items: seq<Item>) {
    forall n :: Continues(items, n)
  }

  lemma {:induction false} AnnotatePrefix(h: seq<Event>, n: nat)
    requires n <= |h|
    ensures |Annotate(h)| == |h|
    ensures Annotate(h[..n]) == Annotate(h)[..n]
  {
    AnnotateRevs(h);
    if n < |h| {
      var p := h[..|h| - 1];
      AnnotatePrefix(p, n);
      assert p[..n] == h[..n];
      assert Annotate(h) == Extend(Annotate(p), h[|h| - 1]);
      hide Annotate;
      assert Annotate(h)[..n] == Annotate(p)[..n];
    } else {
      assert h[..n] == h;
    }
  }

  lemma AnnotateLawful(h: seq<Event>)
    requires Lawful(h)
    ensures Sorted(Annotate(h)) && TombsFollowPuts(Annotate(h))
  {
    AnnotateRevs(h);
  }

  lemma AnnotateStep(h: seq<Event>, i: nat)
    requires i < |h|
    ensures |Annotate(h)| == |h|
    ensures Annotate(h)[..i + 1] == Extend(Annotate(h)[..i], EventOf(Annotate(h)[i]))
  {
    AnnotatePrefix(h, i);
    AnnotatePrefix(h, i + 1);
    AnnotateRevs(h);
    var p := h[..i + 1];
    assert p[..i] == h[..i];
    assert Annotate(p) == Extend(Annotate(h[..i]), h[i]);
  }

  lemma ContinuesSuffix(h: seq<Event>, k: nat, n: int)
    requires |Annotate(h)| == |h| && k <= |h|
    ensures Continues(Annotate(h)[k..], n)
  {
    hide Annotate, Extend;
    var items, left, i := Annotate(h), Annotate(h)[k..], k + n;
    if 0 < n < |left| {
      AnnotateStep(h, i);
      LiveSuffix(items[..i], k, EventOf(items[i]));
      assert left[..n] == items[..i][k..] && left[..n + 1] == items[..i + 1][k..];
    }
  }

  lemma LiveBeforeTomb(items: seq<Item>, n: nat)
    requires TombsFollowPuts(items) && n < |items| && items[n].tomb
    ensures n > 0 && Live(items[..n])
  {
  }

  /** What a compaction leaves of a lawful history starts with a put and can be
      rebuilt item by item from its first one. */
  lemma CompactedReplays(h: seq<Event>, at: int)
    requires Lawful(h)
    ensures var left := Compacted(Annotate(h), at);
      && Sorted(left) && TombsFollowPuts(left) && Chained(left)
  {
    AnnotateLawful(h);
    AnnotateRevs(h);
    var items, k := Annotate(h), CompactFrom(Annotate(h), at);
    SurvivorsExact(items, at);
    SortedSuffix(items, k);
    forall n ensures Continues(items[k..], n) {
      ContinuesSuffix(h, k, n);
    }
    hide Annotate, CompactFrom, Continues;
    assert Chained(items[k..]);
    TombsSuffix(items, k);
  }

  lemma TombsSuffix(items: seq<Item>, k: nat)
    requires TombsFollowPuts(items) && k <= |items|
    requires k < |items| ==> !items[k].tomb
    ensures TombsFollowPuts(items[k..])
  {
  }

  // ---------- scanning from a revision ----------

  /** Item `i` is what an outside reader sees of its main revision: the newest of that main. */
  ghost predicate Visible(items: seq<Item>, rev: int, i: nat) {
    && i < |items|
    && items[i].rev.main >= rev
    && (i + 1 < |items| ==> items[i + 1].rev.main != items[i].rev.main)
  }

  ghost function VisibleRevs(items: seq<Item>, rev: int, n: nat): seq<Revision> {
    if n == 0 then []
    else VisibleRevs(items, rev, n - 1) + if Visible(items, rev, n - 1) then [items[n - 1].rev] else []
  }

  ghost function SinceOf(items: seq<Item>, rev: int): seq<Revision> {
    VisibleRevs(items, rev, |items|)
  }

  /** None at or above `rev` is missing, and nothing else is there. */
  lemma {:induction false} VisibleRevsMembers(items: seq<Item>, rev: int, n: nat)
    requires n <= |items|
    ensures forall r :: r in VisibleRevs(items, rev, n)
                   <==> exists i: nat :: i < n && Visible(items, rev, i) && items[i].rev == r
  {
    if n > 0 { VisibleRevsMembers(items, rev, n - 1); }
  }

  ghost predicate Increasing(v: seq<Revision>) {
    forall a, b :: 0 <= a < b < |v| ==> v[a].main < v[b].main
  }

  lemma VisibleBelow(items: seq<Item>, rev: int, n: nat, r: Revision)
    requires Sorted(items) && n < |items| && r in VisibleRevs(items, rev, n)
    ensures r.main < items[n].rev.main
  {
    VisibleRevsMembers(items, rev, n);
    var i: nat :| i < n && Visible(items, rev, i) && items[i].rev == r;
    assert items[i + 1].rev.GreaterThan(items[i].rev);
    assert i + 1 < n ==> items[n].rev.GreaterThan(items[i + 1].rev);
  }

  /** The revisions come in strictly increasing order of main. */
  lemma {:induction false} VisibleRevsIncrease(items: seq<Item>, rev: int, n: nat)
    requires Sorted(items) && n <= |items|
    ensures Increasing(VisibleRevs(items, rev, n))
  {
    if n > 0 {
      var u := VisibleRevs(items, rev, n - 1);
      VisibleRevsIncrease(items, rev, n - 1);
      forall a | 0 <= a < |u|
        ensures u[a].main < items[n - 1].rev.main
      {
        assert u[a] in u;
        VisibleBelow(items, rev, n - 1, u[a]);
      }
    }
  }

  lemma VisibleIsHighestSub(items: seq<Item>, rev: int, i: nat)
    requires Sorted(items) && i < |items|
    ensures Visible(items, rev, i) <==>
      && items[i].rev.main >= rev
      && forall j :: 0 <= j < |items| && items[j].rev.main == items[i].rev.main ==> items[j].rev.sub <= items[i].rev.sub
  {
    if i + 1 < |items| {
      assert items[i + 1].rev.GreaterThan(items[i].rev);
      forall j | i + 1 < j < |items|
        ensures items[j].rev.GreaterThan(items[i + 1].rev)
      {
      }
    }
  }

  lemma {:induction false} VisibleRevsPrefix(a: seq<Item>, b: seq<Item>, rev: int, n: nat)
    requires n < |a| && n < |b| && a[..n + 1] == b[..n + 1]
    ensures VisibleRevs(a, rev, n) == VisibleRevs(b, rev, n)
  {
    if n > 0 {
      assert a[..n + 1][..n] == a[..n] && b[..n + 1][..n] == b[..n];
      VisibleRevsPrefix(a, b, rev, n - 1);
      assert a[..n + 1][n - 1] == a[n - 1] && a[..n + 1][n] == a[n];
      assert b[..n + 1][n - 1] == b[n - 1] && b[..n + 1][n] == b[n];
    }
  }

  /** One more item either replaces the last result or is added to it. */
  lemma SinceStep(items: seq<Item>, rev: int, n: nat)
    requires Sorted(items) && n < |items|
    ensures var p, s, r := SinceOf(items[..n], rev), SinceOf(items[..n + 1], rev), items[n].rev;
      && (r.main < rev ==> p == s == [])
      && (r.main >= rev && p != [] && p[|p| - 1].main == r.main ==> s == p[..|p| - 1] + [r])
      && (r.main >= rev && (p == [] || p[|p| - 1].main != r.main) ==> s == p + [r])
  {
    var a, b := items[..n], items[..n + 1];
    if n > 0 {
      assert items[n].rev.GreaterThan(items[n - 1].rev);
      VisibleRevsPrefix(a, b, rev, n - 1);
      var w := VisibleRevs(b, rev, n - 1);
      var keep := if items[n - 1].rev.main >= rev then [items[n - 1].rev] else [];
      assert VisibleRevs(a, rev, n) == w + keep;
      assert VisibleRevs(b, rev, n) == w + if items[n - 1].rev.main != items[n].rev.main then keep else [];
      if items[n - 1].rev.main < rev { NothingSince(a, rev, n); }
    }
    if items[n].rev.main < rev { NothingSince(b, rev, n + 1); }
  }

  lemma {:induction false} NothingSince(items: seq<Item>, rev: int, n: nat)
    requires Sorted(items) && n <= |items|
    requires n > 0 ==> items[n - 1].rev.main < rev
    ensures VisibleRevs(items, rev, n) == []
  {
    if n > 1 {
      assert items[n - 1].rev.GreaterThan(items[n - 2].rev);
      NothingSince(items, rev, n - 1);
    }
  }

  lemma {:induction false} VisibleRevsSuffix(items: seq<Item>, k: nat, rev: int, n: nat)
    requires Sorted(items) && k + n <= |items|
    requires k > 0 ==> items[k - 1].rev.main < rev
    ensures VisibleRevs(items, rev, k + n) == VisibleRevs(items[k..], rev, n)
  {
    if n == 0 {
      NothingSince(items, rev, k);
    } else {
      VisibleRevsSuffix(items, k, rev, n - 1);
      assert Visible(items, rev, k + n - 1) <==> Visible(items[k..], rev, n - 1);
    }
  }

  /** A scan that starts above the compacted revision misses nothing. */
  lemma CompactKeepsSince(items: seq<Item>, c: int, rev: int)
    requires Sorted(items) && c < rev
    ensures SinceOf(Compacted(items, c), rev) == SinceOf(items, rev)
  {
    var n, k := Latest(items, c), CompactFrom(items, c);
    assert 0 < k ==> k == n || k == n + 1;
    assert n > 0 ==> items[n].rev.GreaterThan(items[n - 1].rev);
    VisibleRevsSuffix(items, k, rev, |items| - k);
  }
}
