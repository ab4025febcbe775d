/** etcd/mvcc/key_index.go: the generations of one key. */
module KeyIndices {
  import opened Bytes
  import opened KeyHistory

  /** A run of revisions from the creation of the key to its tombstone. */
  datatype Generation = Generation(ver: int, created: Revision, revs: seq<Revision>) {
    predicate IsEmpty() { revs == [] }
  }

  const EmptyGeneration := Generation(0, Revision(0, 0), [])

  // ---------- the items that a list of generations stands for ----------

  ghost function GenItems(g: Generation, closed: bool): (s: seq<Item>)
    ensures |s| == |g.revs|
  {
    seq(|g.revs|, j requires 0 <= j < |g.revs| =>
      Item(g.revs[j], closed && j == |g.revs| - 1, g.created, g.ver - (|g.revs| - 1 - j)))
  }

  ghost function ClosedItems(gs: seq<Generation>): seq<Item> {
    if gs == [] then []
    else ClosedItems(gs[..|gs| - 1]) + GenItems(gs[|gs| - 1], true)
  }

  /** Every generation but the last one ends with a tombstone. */
  ghost function ItemsOf(gs: seq<Generation>): seq<Item> {
    if gs == [] then []
    else ClosedItems(gs[..|gs| - 1]) + GenItems(gs[|gs| - 1], false)
  }

  ghost function Offset(gs: seq<Generation>, i: nat): nat
    requires i <= |gs|
  {
    |ClosedItems(gs[..i])|
  }

  /** Closed generations hold at least a put and a tombstone, and a generation that
      follows another one was created by its first revision. */
  ghost predicate Shaped(gs: seq<Generation>) {
    && (forall i :: 0 <= i < |gs| - 1 ==> |gs[i].revs| >= 2)
    && (forall i :: 1 <= i < |gs| && gs[i].revs != [] ==> gs[i].created == gs[i].revs[0])
    && (gs != [] && gs[|gs| - 1].revs == [] ==> gs[|gs| - 1].ver == 0)
  }

  lemma {:induction false} ClosedSplit(a: seq<Generation>, b: seq<Generation>)
    ensures ClosedItems(a + b) == ClosedItems(a) + ClosedItems(b)
  {
    if b == [] {
      assert a + b == a;
    } else {
      hide GenItems;
      var c, last := b[..|b| - 1], b[|b| - 1];
      var ab := a + b;
      ClosedSplit(a, c);
      assert ab[..|ab| - 1] == a + c && ab[|ab| - 1] == last;
      assert ClosedItems(ab) == ClosedItems(a + c) + GenItems(last, true);
    }
  }

  lemma ItemsSplit(a: seq<Generation>, b: seq<Generation>)
    requires b != []
    ensures ItemsOf(a + b) == ClosedItems(a) + ItemsOf(b)
  {
    hide GenItems, ClosedItems;
    var c, last := b[..|b| - 1], b[|b| - 1];
    var ab := a + b;
    ClosedSplit(a, c);
    assert ab[..|ab| - 1] == a + c && ab[|ab| - 1] == last;
    Assoc(ClosedItems(a), ClosedItems(c), GenItems(last, false));
  }

  lemma Assoc<T>(a: seq<T>, b: seq<T>, c: seq<T>)
    ensures (a + b) + c == a + (b + c)
  {
  }

  lemma Singleton(g: Generation)
    ensures ClosedItems([g]) == GenItems(g, true)
    ensures ItemsOf([g]) == GenItems(g, false)
  {
    assert [g][..0] == [];
  }

  /** Generation `i` occupies one segment of the items. */
  lemma Segment(gs: seq<Generation>, i: nat)
    requires i < |gs|
    ensures Offset(gs, i) + |gs[i].revs| <= |ItemsOf(gs)|
    ensures ItemsOf(gs)[Offset(gs, i)..Offset(gs, i) + |gs[i].revs|] == GenItems(gs[i], i < |gs| - 1)
    ensures Offset(gs, i + 1) == Offset(gs, i) + |gs[i].revs|
    ensures i == |gs| - 1 ==> |ItemsOf(gs)| == Offset(gs, i + 1)
  {
    hide GenItems, ClosedItems, ItemsOf;
    assert gs == gs[..i] + gs[i..];
    ItemsSplit(gs[..i], gs[i..]);
    assert gs[..i + 1] == gs[..i] + [gs[i]];
    ClosedSplit(gs[..i], [gs[i]]);
    Singleton(gs[i]);
    if i < |gs| - 1 {
      assert gs[i..] == [gs[i]] + gs[i + 1..];
      ItemsSplit([gs[i]], gs[i + 1..]);
    } else {
      assert gs[i..] == [gs[i]];
    }
  }

  lemma Ends(gs: seq<Generation>)
    ensures Offset(gs, 0) == 0
    ensures Offset(gs, |gs|) == |ItemsOf(gs)|
  {
    if gs != [] {
      Segment(gs, |gs| - 1);
    }
  }

  /** Item `Offset(gs, i) + j` is revision `j` of generation `i`. */
  lemma ItemAt(gs: seq<Generation>, i: nat, j: nat)
    requires i < |gs| && j < |gs[i].revs|
    ensures Offset(gs, i) + j < |ItemsOf(gs)|
    ensures ItemsOf(gs)[Offset(gs, i) + j] == GenItems(gs[i], i < |gs| - 1)[j]
  {
    Segment(gs, i);
    var o := Offset(gs, i);
    assert ItemsOf(gs)[o..o + |gs[i].revs|][j] == GenItems(gs[i], i < |gs| - 1)[j];
  }

  lemma TrimmedItems(g: Generation, j: nat, closed: bool)
    requires j <= |g.revs|
    ensures GenItems(g.(revs := g.revs[j..]), closed) == GenItems(g, closed)[j..]
  {
  }

  /** Trimming generation `i` and removing the ones before it drops a prefix of the items. */
  lemma DropPrefix(gs: seq<Generation>, i: nat, j: nat)
    requires i < |gs| && j <= |gs[i].revs|
    ensures Offset(gs, i) + j <= |ItemsOf(gs)|
    ensures ItemsOf([gs[i].(revs := gs[i].revs[j..])] + gs[i + 1..]) == ItemsOf(gs)[Offset(gs, i) + j..]
  {
    var g, rest := gs[i].(revs := gs[i].revs[j..]), gs[i + 1..];
    var tail := [gs[i]] + rest;
    assert gs == gs[..i] + tail;
    ItemsSplit(gs[..i], tail);
    assert ItemsOf([g] + rest) == ItemsOf(tail)[j..] by { TrimHead(gs[i], rest, j); }
    assert |ItemsOf(tail)| >= j by { TrimHead(gs[i], rest, j); }
  }

  lemma TrimHead(g: Generation, rest: seq<Generation>, j: nat)
    requires j <= |g.revs|
    ensures |ItemsOf([g] + rest)| >= j
    ensures ItemsOf([g.(revs := g.revs[j..])] + rest) == ItemsOf([g] + rest)[j..]
  {
    hide ItemsOf, GenItems, ClosedItems;
    var t := g.(revs := g.revs[j..]);
    TrimmedItems(g, j, rest != []);
    Singleton(g);
    Singleton(t);
    if rest == [] {
      assert [g] + rest == [g] && [t] + rest == [t];
    } else {
      ItemsSplit([g], rest);
      ItemsSplit([t], rest);
    }
  }

  lemma GrownItems(l: Generation, g: Generation, rev: Revision)
    requires g == Generation(l.ver + 1, if l.revs == [] then rev else l.created, l.revs + [rev])
    requires l.revs == [] ==> l.ver == 0
    ensures GenItems(g, false) == GenItems(l, false) + [Item(rev, false, g.created, l.ver + 1)]
  {
  }

  /** Appending a revision to the last generation extends the items by one put. */
  lemma AppendToLast(gs: seq<Generation>, g: Generation, rev: Revision)
    requires gs != []
    requires var l := gs[|gs| - 1];
      && g == Generation(l.ver + 1, if l.revs == [] then rev else l.created, l.revs + [rev])
      && (l.revs == [] ==> l.ver == 0)
    requires forall i :: 0 <= i < |gs| - 1 ==> |gs[i].revs| >= 2
    ensures ItemsOf(gs[|gs| - 1 := g]) == Extend(ItemsOf(gs), Event(rev, false))
  {
    var n := |gs| - 1;
    var gs' := gs[n := g];
    assert gs'[..n] == gs[..n];
    GrownItems(gs[n], g, rev);
    assert ItemsOf(gs') == ItemsOf(gs) + [Item(rev, false, g.created, gs[n].ver + 1)];
    LastItem(gs);
  }

  lemma PutKeepsShape(gs: seq<Generation>, g: Generation, rev: Revision)
    requires gs != [] && Shaped(gs)
    requires var l := gs[|gs| - 1];
      g == Generation(l.ver + 1, if l.revs == [] then rev else l.created, l.revs + [rev])
    ensures Shaped(gs[|gs| - 1 := g])
  {
    var gs' := gs[|gs| - 1 := g];
    assert forall i :: 0 <= i < |gs'| - 1 ==> gs'[i] == gs[i];
  }

  ghost function LastSize(gs: seq<Generation>): nat {
    if gs == [] then 0 else |gs[|gs| - 1].revs|
  }

  lemma EmptyItems()
    ensures ItemsOf([]) == []
    ensures ItemsOf([EmptyGeneration]) == []
  {
    Singleton(EmptyGeneration);
  }

  lemma LastItem(gs: seq<Generation>)
    requires gs != []
    requires forall i :: 0 <= i < |gs| - 1 ==> |gs[i].revs| >= 2
    ensures var l := gs[|gs| - 1];
      && (l.revs == [] ==> !Live(ItemsOf(gs)))
      && (l.revs != [] ==>
            && ItemsOf(gs) != []
            && ItemsOf(gs)[|ItemsOf(gs)| - 1] == Item(l.revs[|l.revs| - 1], false, l.created, l.ver))
  {
    var n := |gs| - 1;
    if gs[n].revs != [] {
      ItemAt(gs, n, |gs[n].revs| - 1);
      Segment(gs, n);
    } else if n > 0 {
      ItemAt(gs, n - 1, |gs[n - 1].revs| - 1);
      Segment(gs, n - 1);
      Segment(gs, n);
    }
  }

  lemma ClosedGenItems(g: Generation)
    requires g.revs != []
    ensures GenItems(g, true) == CloseLife(GenItems(g, false))
  {
  }

  /** A generation that has a put and a tombstone is closed by starting an empty one. */
  lemma CloseLastItems(gs: seq<Generation>)
    requires gs != [] && gs[|gs| - 1].revs != []
    ensures ItemsOf(gs) != []
    ensures ItemsOf(gs + [EmptyGeneration]) == CloseLife(ItemsOf(gs))
  {
    var g := gs[|gs| - 1];
    var front, last := ClosedItems(gs[..|gs| - 1]), GenItems(g, false);
    ItemsSplit(gs, [EmptyGeneration]);
    EmptyItems();
    ClosedGenItems(g);
    assert front + CloseLife(last) == CloseLife(front + last);
  }

  lemma CloseKeepsShape(gs: seq<Generation>)
    requires Shaped(gs) && LastSize(gs) >= 2
    ensures Shaped(gs + [EmptyGeneration])
  {
    var gs' := gs + [EmptyGeneration];
    assert forall i :: 0 <= i < |gs| ==> gs'[i] == gs[i];
  }

  /** When generation `i` starts at or before `rev` and does not end there, the latest item is one of its puts. */
  lemma LatestInside(gs: seq<Generation>, i: nat, rev: int)
    requires i < |gs| && gs[i].revs != [] && gs[i].revs[0].main <= rev
    requires i < |gs| - 1 ==> gs[i].revs[|gs[i].revs| - 1].main > rev
    requires forall j :: Offset(gs, i + 1) <= j < |ItemsOf(gs)| ==> ItemsOf(gs)[j].rev.main > rev
    ensures Offset(gs, i) <= Latest(ItemsOf(gs), rev) < Offset(gs, i) + |gs[i].revs|
    ensures !ItemsOf(gs)[Latest(ItemsOf(gs), rev)].tomb
  {
    Segment(gs, i);
    ItemAt(gs, i, 0);
    var n := Latest(ItemsOf(gs), rev);
    assert n >= 0 ==> ItemsOf(gs)[n].rev.main <= rev;
    ItemAt(gs, i, n - Offset(gs, i));
  }

  /** A tombstone at or before `rev` with nothing newer up to `rev` hides the key. */
  lemma TombDecides(gs: seq<Generation>, i: nat, rev: int)
    requires i < |gs| - 1 && gs[i].revs != [] && gs[i].revs[|gs[i].revs| - 1].main <= rev
    requires forall j :: Offset(gs, i + 1) <= j < |ItemsOf(gs)| ==> ItemsOf(gs)[j].rev.main > rev
    ensures Lookup(ItemsOf(gs), rev) == NotFound
  {
    Segment(gs, i);
    ItemAt(gs, i, |gs[i].revs| - 1);
    LatestUnique(ItemsOf(gs), rev, Offset(gs, i) + |gs[i].revs| - 1);
  }

  lemma AllAbove(gs: seq<Generation>, i: nat, rev: int)
    requires i < |gs| && Sorted(ItemsOf(gs))
    requires gs[i].revs != [] ==> gs[i].revs[0].main > rev
    requires forall j :: Offset(gs, i + 1) <= j < |ItemsOf(gs)| ==> ItemsOf(gs)[j].rev.main > rev
    ensures forall j :: Offset(gs, i) <= j < |ItemsOf(gs)| ==> ItemsOf(gs)[j].rev.main > rev
  {
    Segment(gs, i);
    if gs[i].revs != [] {
      ItemAt(gs, i, 0);
      var items, o := ItemsOf(gs), Offset(gs, i);
      forall j | o < j < |items|
        ensures items[j].rev.main > rev
      {
        assert items[j].rev.GreaterThan(items[o].rev);
      }
    }
  }

  lemma ItemRev(gs: seq<Generation>, i: nat, j: nat)
    requires i < |gs| && j < |gs[i].revs|
    ensures Offset(gs, i) + j < |ItemsOf(gs)|
    ensures ItemsOf(gs)[Offset(gs, i) + j].rev == gs[i].revs[j]
    ensures ItemsOf(gs)[Offset(gs, i) + j].tomb == (i < |gs| - 1 && j == |gs[i].revs| - 1)
  {
    ItemAt(gs, i, j);
  }

  ghost predicate AllBelow(items: seq<Item>, n: nat, rev: int) {
    forall j :: 0 <= j < n && j < |items| ==> items[j].rev.main < rev
  }

  /** Everything before a generation created below `rev` is below `rev` too. */
  lemma NothingBefore(gs: seq<Generation>, i: nat, rev: int)
    requires 0 < i < |gs| && Sorted(ItemsOf(gs)) && Shaped(gs)
    requires gs[i].revs != [] && Revision(rev, 0).GreaterThan(gs[i].created)
    requires gs[i].revs[0].sub >= 0
    ensures AllBelow(ItemsOf(gs), Offset(gs, i), rev)
  {
    ItemRev(gs, i, 0);
    var items, o := ItemsOf(gs), Offset(gs, i);
    hide ItemsOf, ClosedItems, GenItems;
    forall j | 0 <= j < o
      ensures items[j].rev.main < rev
    {
      assert items[o].rev.GreaterThan(items[j].rev);
    }
  }

  lemma StartSince(gs: seq<Generation>, items: seq<Item>, i: nat, rev: int)
    requires i < |gs| && items == ItemsOf(gs) && Sorted(items)
    requires AllBelow(items, Offset(gs, i), rev)
    ensures Offset(gs, i) <= |items|
    ensures SinceOf(items[..Offset(gs, i)], rev) == []
  {
    hide ItemsOf, ClosedItems, GenItems;
    Segment(gs, i);
    var o := Offset(gs, i);
    assert o > 0 ==> items[..o][o - 1].rev.main < rev;
    NothingSince(items[..o], rev, o);
  }

  // ---------- compaction ----------

  /** All generations before `i` ended at or before `at`. */
  ghost predicate Passed(gs: seq<Generation>, items: seq<Item>, i: nat, at: int)
    requires i <= |gs|
  {
    var o := Offset(gs, i);
    o <= |items| && (o > 0 ==> items[o - 1].tomb && items[o - 1].rev.main <= at)
  }

  lemma PassOne(gs: seq<Generation>, items: seq<Item>, i: nat, at: int)
    requires i < |gs| - 1 && items == ItemsOf(gs)
    requires gs[i].revs != [] && gs[i].revs[|gs[i].revs| - 1].main <= at
    ensures Passed(gs, items, i + 1, at)
  {
    hide ItemsOf, ClosedItems, GenItems;
    Segment(gs, i);
    ItemRev(gs, i, |gs[i].revs| - 1);
  }

  lemma CompactPoint(gs: seq<Generation>, items: seq<Item>, i: nat, j: int, at: int)
    requires i < |gs| && items == ItemsOf(gs) && Sorted(items) && Passed(gs, items, i, at)
    requires i < |gs| - 1 ==> gs[i].revs != [] && gs[i].revs[|gs[i].revs| - 1].main > at
    requires -1 <= j < |gs[i].revs|
    requires j >= 0 ==> gs[i].revs[j].main <= at
    requires forall k :: j < k < |gs[i].revs| ==> gs[i].revs[k].main > at
    ensures CompactFrom(items, at) == Offset(gs, i) + if j == -1 then 0 else j
    ensures Available(items, at) == if j == -1 then {} else {gs[i].revs[j]}
  {
    hide ItemsOf, ClosedItems, GenItems;
    var o := Offset(gs, i);
    Segment(gs, i);
    if i < |gs| - 1 {
      var last := |gs[i].revs| - 1;
      ItemRev(gs, i, last);
      forall k | o + last < k < |items|
        ensures items[k].rev.main > at
      {
        assert items[k].rev.GreaterThan(items[o + last].rev);
      }
    }
    forall k | o + j < k < o + |gs[i].revs| && k >= o
      ensures items[k].rev.main > at
    {
      ItemRev(gs, i, k - o);
    }
    if j >= 0 { ItemRev(gs, i, j); }
    LatestUnique(items, at, o + j);
  }

  lemma TrimKeepsShape(gs: seq<Generation>, i: nat, j: nat)
    requires i < |gs| && Shaped(gs) && j <= |gs[i].revs|
    requires i < |gs| - 1 ==> j < |gs[i].revs| - 1
    requires i == |gs| - 1 && gs[i].revs != [] ==> j < |gs[i].revs|
    ensures Shaped([gs[i].(revs := gs[i].revs[j..])] + gs[i + 1..])
  {
    var gs' := [gs[i].(revs := gs[i].revs[j..])] + gs[i + 1..];
    assert forall k :: 1 <= k < |gs'| ==> gs'[k] == gs[i + k];
  }

  lemma EmptyMeansNoItems(gs: seq<Generation>)
    requires gs != [] && Shaped(gs)
    ensures ItemsOf(gs) == [] <==> |gs| == 1 && gs[0].IsEmpty()
  {
    if |gs| == 1 {
      assert gs == [gs[0]];
      Singleton(gs[0]);
    } else {
      ItemAt(gs, 0, 0);
    }
  }

  lemma ClosedHasTwo(gs: seq<Generation>)
    requires Shaped(gs)
    ensures forall i :: 0 <= i < |gs| - 1 ==> |gs[i].revs| >= 2
  {
  }

  predicate GenerationsEqual(a: seq<Generation>, b: seq<Generation>) {
    && |a| == |b|
    && forall i :: 0 <= i < |a| ==> a[i].ver == b[i].ver && a[i].revs == b[i].revs
  }

  class KeyIndex {
    const key: Key
    var modified: Revision
    var generations: seq<Generation>
    ghost var items: seq<Item>

    ghost predicate Valid() reads this {
      && items == ItemsOf(generations)
      && Shaped(generations)
      && Sorted(items)
      && (items != [] ==> modified == items[|items| - 1].rev)
    }

    predicate IsEmpty() reads this {
      |generations| == 1 && generations[0].IsEmpty()
    }

    constructor (key: Key)
      ensures Valid() && this.key == key
      ensures generations == [] && items == [] && modified == Revision(0, 0)
    {
      this.key := key;
      modified := Revision(0, 0);
      generations := [];
      items := [];
    }

    /** Panics in the source unless the revision is newer than `modified`. */
    method Put(main: int, sub: int)
      requires Valid()
      requires Revision(main, sub).GreaterThan(modified)
      modifies this
      ensures Valid() && generations != [] && !IsEmpty()
      ensures items == Extend(old(items), Event(Revision(main, sub), false))
      ensures modified == Revision(main, sub)
      ensures LastSize(generations) == LastSize(old(generations)) + 1
    {
      hide ItemsOf;
      var rev := Revision(main, sub);
      if |generations| == 0 {
        EmptyItems();
        generations := [EmptyGeneration];
      }
      var last := |generations| - 1;
      var g := generations[last];
      if |g.revs| == 0 {
        g := g.(created := rev);
      }
      g := g.(revs := g.revs + [rev], ver := g.ver + 1);
      AppendToLast(generations, g, rev);
      PutKeepsShape(generations, g, rev);
      SortedExtend(items, Event(rev, false));
      generations := generations[last := g];
      modified := rev;
      items := Extend(items, Event(rev, false));
    }

    /** Fails with ErrRevisionNotFound when the key is not live; panics in the source on an empty index. */
    method Tombstone(main: int, sub: int) returns (ok: bool)
      requires Valid() && generations != [] && !IsEmpty()
      requires Live(items) ==> Revision(main, sub).GreaterThan(modified)
      modifies this
      ensures Valid() && generations != [] && !IsEmpty()
      ensures ok == old(Live(items))
      ensures items == if ok then Extend(old(items), Event(Revision(main, sub), true)) else old(items)
      ensures modified == if ok then Revision(main, sub) else old(modified)
    {
      LastItem(generations);
      if generations[|generations| - 1].IsEmpty() {
        return false;
      }
      Put(main, sub);
      CloseLastItems(generations);
      CloseKeepsShape(generations);
      SortedCloseLife(items);
      generations := generations + [EmptyGeneration];
      items := CloseLife(items);
      return true;
    }

    /** Where the generation that holds main revision `rev` is, or -1. */
    method FindGeneration(rev: int) returns (cg: int)
      requires Valid()
      ensures -1 <= cg < |generations|
      ensures cg == -1 ==> Lookup(items, rev) == NotFound
      ensures cg >= 0 ==>
        && Offset(generations, cg) <= Latest(items, rev) < Offset(generations, cg) + |generations[cg].revs|
        && !items[Latest(items, rev)].tomb
    {
      hide ItemsOf, ClosedItems;
      var lastg := |generations| - 1;
      cg := lastg;
      Ends(generations);
      while cg >= 0
        invariant -1 <= cg <= lastg
        invariant forall j :: Offset(generations, cg + 1) <= j < |items| ==> items[j].rev.main > rev
      {
        if |generations[cg].revs| == 0 {
          AllAbove(generations, cg, rev);
          cg := cg - 1;
          continue;
        }
        var g := generations[cg];
        if cg != lastg {
          if g.revs[|g.revs| - 1].main <= rev {
            TombDecides(generations, cg, rev);
            return -1;
          }
        }
        if g.revs[0].main <= rev {
          LatestInside(generations, cg, rev);
          return;
        }
        AllAbove(generations, cg, rev);
        cg := cg - 1;
      }
      LatestUnique(items, rev, -1);
    }

    method Get(atRev: int) returns (a: Answer)
      requires Valid() && generations != [] && !IsEmpty()
      ensures a == Lookup(items, atRev)
    {
      hide ItemsOf, ClosedItems, Latest;
      var cg := FindGeneration(atRev);
      if cg == -1 {
        return NotFound;
      }
      var g := generations[cg];
      var n := Walk(g.revs, (rev: Revision) => rev.main > atRev);
      ghost var m := Latest(items, atRev) - Offset(generations, cg);
      ItemAt(generations, cg, m);
      if n != -1 {
        ItemAt(generations, cg, n);
        return Found(g.revs[n], g.created, g.ver - (|g.revs| - n - 1));
      }
      return NotFound;
    }

    /** The newest revision of every main at or above `rev`. */
    method Since(rev: int) returns (revs: seq<Revision>)
      requires Valid() && generations != [] && !IsEmpty()
      requires forall i :: 0 <= i < |items| ==> items[i].rev.main >= 1 && items[i].rev.sub >= 0
      ensures revs == SinceOf(items, rev)
    {
      hide ItemsOf, ClosedItems, GenItems, VisibleRevs, Shaped, Sorted;
      var since := Revision(rev, 0);
      var gi := |generations| - 1;
      Ends(generations);
      // find the generations to start checking
      while gi > 0
        invariant 0 <= gi < |generations|
      {
        var g := generations[gi];
        if !g.IsEmpty() {
          if since.GreaterThan(g.created) {
            ItemRev(generations, gi, 0);
            NothingBefore(generations, gi, rev);
            break;
          }
        }
        gi := gi - 1;
      }
      revs := [];
      var last := 0;
      StartSince(generations, items, gi, rev);
      while gi < |generations|
        invariant 0 <= gi <= |generations|
        invariant Offset(generations, gi) <= |items|
        invariant revs == SinceOf(items[..Offset(generations, gi)], rev)
        invariant last == if revs == [] then 0 else revs[|revs| - 1].main
        invariant forall r :: r in revs ==> r.main >= 1
      {
        var gr := generations[gi].revs;
        ghost var o := Offset(generations, gi);
        Segment(generations, gi);
        var j := 0;
        while j < |gr|
          invariant 0 <= j <= |gr|
          invariant revs == SinceOf(items[..o + j], rev)
          invariant last == if revs == [] then 0 else revs[|revs| - 1].main
          invariant forall r :: r in revs ==> r.main >= 1
        {
          var r := gr[j];
          ItemRev(generations, gi, j);
          SinceStep(items, rev, o + j);
          j := j + 1;
          if since.GreaterThan(r) {
            continue;
          }
          if r.main == last {
            revs := revs[|revs| - 1 := r];
            continue;
          }
          revs := revs + [r];
          last := r.main;
        }
        gi := gi + 1;
      }
      assert items[..|items|] == items;
    }

    /** The generation and the position in it that a compaction at `atRev` starts from. */
    method DoCompact(atRev: int, available: set<Revision>)
      returns (genIdx: nat, revIndex: int, available': set<Revision>)
      requires Valid() && generations != []
      ensures genIdx < |generations| && -1 <= revIndex < |generations[genIdx].revs|
      ensures genIdx < |generations| - 1 ==> revIndex < |generations[genIdx].revs| - 1
      ensures CompactFrom(items, atRev) == Offset(generations, genIdx) + if revIndex == -1 then 0 else revIndex
      ensures available' == available + Available(items, atRev)
    {
      hide ItemsOf, ClosedItems, GenItems, Sorted, Latest;
      genIdx := 0;
      var g := generations[0];
      Ends(generations);
      // find first generation includes atRev or created after atRev
      while genIdx < |generations| - 1
        invariant genIdx < |generations| && g == generations[genIdx]
        invariant Passed(generations, items, genIdx, atRev)
      {
        var tomb := g.revs[|g.revs| - 1].main;
        if tomb > atRev {
          break;
        }
        PassOne(generations, items, genIdx, atRev);
        genIdx := genIdx + 1;
        g := generations[genIdx];
      }
      revIndex := Walk(g.revs, (rev: Revision) => rev.main > atRev);
      available' := available;
      if revIndex != -1 {
        available' := available + {g.revs[revIndex]};
      }
      CompactPoint(generations, items, genIdx, revIndex, atRev);
    }

    method Compact(atRev: int, available: set<Revision>) returns (available': set<Revision>)
      requires Valid() && generations != [] && !IsEmpty()
      modifies this
      ensures Valid() && generations != []
      ensures items == Compacted(old(items), atRev)
      ensures IsEmpty() <==> items == []
      ensures modified == old(modified)
      ensures available' == available + Available(old(items), atRev)
    {
      hide ItemsOf, ClosedItems, GenItems, Sorted, Latest, CompactFrom, Available, Offset, Shaped;
      var genIdx, revIndex;
      genIdx, revIndex, available' := DoCompact(atRev, available);
      var g := generations[genIdx];
      ghost var j := if revIndex == -1 then 0 else revIndex;
      DropPrefix(generations, genIdx, j);
      ClosedHasTwo(generations);
      TrimKeepsShape(generations, genIdx, j);
      SortedSuffix(items, CompactFrom(items, atRev));
      if !g.IsEmpty() {
        // remove the previous contents
        if revIndex != -1 {
          g := g.(revs := g.revs[revIndex..]);
        }
        // a closed generation still holds its tombstone and the put before it
        if |g.revs| == 1 && genIdx != |generations| - 1 {
          assert false;
        }
      }
      // remove the previous generations
      generations := [g] + generations[genIdx + 1..];
      items := Compacted(items, atRev);
      EmptyMeansNoItems(generations);
    }

    /** What Compact would report, without compacting. */
    method Keep(atRev: int, available: set<Revision>) returns (available': set<Revision>)
      requires Valid() && generations != []
      ensures available' == available + Available(items, atRev)
    {
      if IsEmpty() {
        EmptyMeansNoItems(generations);
        return available;
      }
      var genIdx, revIndex;
      genIdx, revIndex, available' := DoCompact(atRev, available);
      var g := generations[genIdx];
      if !g.IsEmpty() {
        if revIndex == |g.revs| - 1 && genIdx != |generations| - 1 {
          assert false;
        }
      }
    }

    /** Panics in the source on an index that already holds generations. */
    method Restore(created: Revision, modified: Revision, ver: int)
      requires Valid() && generations == []
      modifies this
      ensures Valid() && generations != [] && !IsEmpty()
      ensures items == [Item(modified, false, created, ver)]
      ensures this.modified == modified
    {
      this.modified := modified;
      var g := Generation(ver, created, [modified]);
      generations := [g];
      Singleton(g);
      items := [Item(modified, false, created, ver)];
      assert GenItems(g, false) == items;
    }

    /** Compares everything but the `created` revisions, as the source does. */
    predicate Equal(b: KeyIndex)
      reads this, b
    {
      && key == b.key
      && modified == b.modified
      && GenerationsEqual(generations, b.generations)
    }
  }

  /** Scans the revisions from the newest on and stops at the first one that `f` rejects. */
  method Walk(revs: seq<Revision>, f: Revision -> bool) returns (n: int)
    ensures -1 <= n < |revs|
    ensures n >= 0 ==> !f(revs[n])
    ensures forall j :: n < j < |revs| ==> f(revs[j])
  {
    var l := |revs|;
    for i := 0 to l
      invariant forall j :: l - i <= j < l ==> f(revs[j])
    {
      if !f(revs[l - i - 1]) {
        return l - i - 1;
      }
    }
    return -1;
  }

  // ---------- rebuilding a compacted index ----------

  /** The same but for the creation revisions, which `Equal` does not look at. */
  ghost predicate Alike(a: seq<Item>, b: seq<Item>) {
    |a| == |b| && forall i :: 0 <= i < |a| ==> a[i].(created := b[i].created) == b[i]
  }

  /** Equal in everything that readers look at: the sub part of the creation revision is
      not stored with the values and is lost by a restore. */
  ghost predicate SameItems(a: seq<Item>, b: seq<Item>) {
    Alike(a, b) && forall i :: 0 <= i < |a| ==> a[i].created.main == b[i].created.main
  }

  lemma SameExtend(a: seq<Item>, b: seq<Item>, e: Event)
    requires SameItems(a, b)
    ensures SameItems(Extend(a, e), Extend(b, e))
    ensures Live(a) == Live(b)
  {
  }

  ghost predicate EndsWithTomb(items: seq<Item>) {
    items != [] ==> items[|items| - 1].tomb
  }

  lemma NoTombInside(q: seq<Item>, h: Generation, closed: bool)
    ensures var b := q + GenItems(h, closed);
      forall k :: |q| <= k < |b| && b[k].tomb ==> closed && k == |b| - 1
  {
  }

  /** The items of a generation hold no tombstone but at the very end, so two ways to
      split the same items after a tombstone agree. */
  lemma TailNotLonger(p: seq<Item>, g: Generation, q: seq<Item>, h: Generation, closed: bool)
    requires Alike(p + GenItems(g, closed), q + GenItems(h, closed))
    requires EndsWithTomb(p)
    requires closed ==> g.revs != []
    ensures |h.revs| <= |g.revs|
  {
    var a, b := p + GenItems(g, closed), q + GenItems(h, closed);
    NoTombInside(q, h, closed);
    assert p != [] ==> a[|p| - 1] == p[|p| - 1];
  }

  lemma SplitAgrees(p: seq<Item>, g: Generation, q: seq<Item>, h: Generation, closed: bool)
    requires Alike(p + GenItems(g, closed), q + GenItems(h, closed))
    requires EndsWithTomb(p) && EndsWithTomb(q)
    requires closed ==> g.revs != [] && h.revs != []
    ensures Alike(p, q) && g.revs == h.revs
    ensures g.revs != [] ==> g.ver == h.ver
  {
    TailNotLonger(p, g, q, h, closed);
    TailNotLonger(q, h, p, g, closed);
    var a, b := p + GenItems(g, closed), q + GenItems(h, closed);
    assert |p| == |q|;
    forall i | 0 <= i < |p|
      ensures p[i].(created := q[i].created) == q[i]
    {
      assert p[i] == a[i] && q[i] == b[i];
    }
    forall j | 0 <= j < |g.revs|
      ensures g.revs[j] == h.revs[j] && g.ver == h.ver
    {
      assert GenItems(g, closed)[j] == a[|p| + j] && GenItems(h, closed)[j] == b[|p| + j];
    }
    assert g.revs != [] ==> g.revs[0] == h.revs[0];
  }

  ghost predicate NoEmpties(a: seq<Generation>) {
    forall i :: 0 <= i < |a| ==> a[i].revs != []
  }

  lemma ClosedEnds(a: seq<Generation>)
    requires NoEmpties(a)
    ensures EndsWithTomb(ClosedItems(a))
    ensures ClosedItems(a) == [] <==> a == []
  {
  }

  lemma EqualAppend(c: seq<Generation>, g: Generation, d: seq<Generation>, h: Generation)
    requires GenerationsEqual(c, d) && g.ver == h.ver && g.revs == h.revs
    ensures GenerationsEqual(c + [g], d + [h])
  {
  }

  lemma AlikeEmptiness(a: seq<Item>, b: seq<Item>)
    requires Alike(a, b)
    ensures a == [] <==> b == []
  {
  }

  /** The closed generations can be read off their items. */
  lemma {:induction false} ClosedDetermined(a: seq<Generation>, b: seq<Generation>)
    requires NoEmpties(a) && NoEmpties(b)
    requires Alike(ClosedItems(a), ClosedItems(b))
    ensures GenerationsEqual(a, b)
  {
    ClosedEnds(a);
    ClosedEnds(b);
    AlikeEmptiness(ClosedItems(a), ClosedItems(b));
    hide GenItems, Alike;
    if a != [] && b != [] {
      var n, m := |a| - 1, |b| - 1;
      var c, d := a[..n], b[..m];
      ClosedEnds(c);
      ClosedEnds(d);
      SplitAgrees(ClosedItems(c), a[n], ClosedItems(d), b[m], true);
      ClosedDetermined(c, d);
      hide GenerationsEqual, ClosedItems;
      EqualAppend(c, a[n], d, b[m]);
      assert a == c + [a[n]] && b == d + [b[m]];
    }
  }

  lemma LastOpen(gs: seq<Generation>)
    requires gs != [] && Shaped(gs)
    ensures var n := |gs| - 1;
      && ItemsOf(gs) == ClosedItems(gs[..n]) + GenItems(gs[n], false)
      && gs == gs[..n] + [gs[n]]
      && NoEmpties(gs[..n])
      && (gs[n].revs == [] ==> gs[n].ver == 0)
  {
  }

  /** So can a whole index: nothing else distinguishes two well-shaped generation lists. */
  lemma GenerationsDetermined(a: seq<Generation>, b: seq<Generation>)
    requires a != [] && b != [] && Shaped(a) && Shaped(b)
    requires Alike(ItemsOf(a), ItemsOf(b))
    ensures GenerationsEqual(a, b)
  {
    hide *;
    var n, m := |a| - 1, |b| - 1;
    LastOpen(a);
    LastOpen(b);
    ClosedEnds(a[..n]);
    ClosedEnds(b[..m]);
    SplitAgrees(ClosedItems(a[..n]), a[n], ClosedItems(b[..m]), b[m], false);
    ClosedDetermined(a[..n], b[..m]);
    EqualAppend(a[..n], a[n], b[..m], b[m]);
  }

  lemma AlikeGeneration(g: Generation, h: Generation, closed: bool)
    requires g.ver == h.ver && g.revs == h.revs
    ensures Alike(GenItems(g, closed), GenItems(h, closed))
  {
  }

  lemma AlikeConcat(p: seq<Item>, a: seq<Item>, q: seq<Item>, b: seq<Item>)
    requires Alike(p, q) && Alike(a, b)
    ensures Alike(p + a, q + b)
  {
  }

  lemma {:induction false} ClosedAlike(a: seq<Generation>, b: seq<Generation>)
    requires GenerationsEqual(a, b)
    ensures Alike(ClosedItems(a), ClosedItems(b))
  {
    hide GenItems, Alike;
    if a != [] {
      var n := |a| - 1;
      ClosedAlike(a[..n], b[..n]);
      AlikeGeneration(a[n], b[n], true);
      AlikeConcat(ClosedItems(a[..n]), GenItems(a[n], true), ClosedItems(b[..n]), GenItems(b[n], true));
    } else {
      AlikeEmpty();
    }
  }

  lemma AlikeEmpty()
    ensures Alike([], [])
  {
  }

  lemma EqualAlike(a: seq<Generation>, b: seq<Generation>)
    requires a != [] && GenerationsEqual(a, b)
    ensures Alike(ItemsOf(a), ItemsOf(b))
  {
    hide GenItems, Alike, ClosedItems;
    var n := |a| - 1;
    ClosedAlike(a[..n], b[..n]);
    AlikeGeneration(a[n], b[n], false);
    AlikeConcat(ClosedItems(a[..n]), GenItems(a[n], false), ClosedItems(b[..n]), GenItems(b[n], false));
  }

  /** The comparison of two indexes finds them equal if and only if they belong to one
      key and agree in every revision, tombstone and version. */
  lemma EqualExactly(a: KeyIndex, b: KeyIndex)
    requires a.Valid() && a.generations != [] && a.items != []
    requires b.Valid() && b.generations != [] && b.items != []
    ensures a.Equal(b) <==> a.key == b.key && Alike(a.items, b.items)
  {
    hide ItemsOf, Shaped, Sorted;
    if a.Equal(b) {
      EqualAlike(a.generations, b.generations);
    } else if Alike(a.items, b.items) {
      GenerationsDetermined(a.generations, b.generations);
      assert a.items[|a.items| - 1].(created := b.items[|a.items| - 1].created) == b.items[|a.items| - 1];
    }
  }

  /** What the backend stores for one surviving revision of a key. */
  datatype Record = Record(rev: Revision, tomb: bool, createRevision: int, version: int)

  ghost function RecordOf(i: Item): Record {
    Record(i.rev, i.tomb, i.created.main, i.ver)
  }

  /** Items that can be rebuilt from their records one after the other. */
  ghost predicate Replayable(items: seq<Item>) {
    items != [] && Sorted(items) && TombsFollowPuts(items) && Chained(items)
  }

  /** The index of the key has been rebuilt from these items. */
  ghost predicate Rebuilt(ki: KeyIndex, key: Key, items: seq<Item>)
    reads ki
  {
    ki.key == key && ki.Valid() && ki.generations != [] && !ki.IsEmpty() && SameItems(ki.items, items)
  }

  /** The first record of a key makes a new index. */
  method RestoreFirst(key: Key, r: Record, ghost items: seq<Item>) returns (ki: KeyIndex)
    requires Replayable(items) && r == RecordOf(items[0])
    ensures fresh(ki) && ki.key == key && Rebuilt(ki, key, items[..1])
  {
    hide Sorted, Chained, Shaped, ItemsOf;
    ki := new KeyIndex(key);
    ki.Restore(Revision(r.createRevision, 0), r.rev, r.version);
    assert items[..1] == [items[0]];
  }

  method RestoreNext(ki: KeyIndex, r: Record, ghost items: seq<Item>, ghost m: nat)
    requires Replayable(items) && 0 < m < |items| && r == RecordOf(items[m])
    requires Rebuilt(ki, ki.key, items[..m])
    modifies ki
    ensures Rebuilt(ki, ki.key, items[..m + 1])
  {
    hide Extend, TombsFollowPuts, ItemsOf, Shaped;
    assert Continues(items, m);
    assert items[m].rev.GreaterThan(items[m - 1].rev);
    SameExtend(ki.items, items[..m], EventOf(items[m]));
    assert ki.modified == items[..m][m - 1].rev;
    if r.tomb {
      LiveBeforeTomb(items, m);
      var ok := ki.Tombstone(r.rev.main, r.rev.sub);
    } else {
      ki.Put(r.rev.main, r.rev.sub);
    }
  }

  /** The replay of the surviving revisions of one key. */
  method RestoreIntoIndex(key: Key, records: seq<Record>, ghost its: seq<Item>) returns (ki: KeyIndex)
    requires |records| == |its| && forall i :: 0 <= i < |its| ==> records[i] == RecordOf(its[i])
    requires Replayable(its)
    ensures fresh(ki) && Rebuilt(ki, key, its)
  {
    assert |its| > 0;
    hide *;
    ki := RestoreFirst(key, records[0], its);
    for n := 1 to |records|
      invariant fresh(ki) && ki.key == key && Rebuilt(ki, key, its[..n])
    {
      RestoreNext(ki, records[n], its, n);
    }
    assert its[..|its|] == its;
  }

  /** Restoring what a compaction left behind rebuilds an index equal to the compacted one. */
  method CompactThenRestore(ki: KeyIndex, atRev: int, records: seq<Record>, ghost h: seq<Event>)
    returns (restored: KeyIndex)
    requires ki.Valid() && ki.generations != [] && !ki.IsEmpty()
    requires Lawful(h) && ki.items == Annotate(h)
    requires var left := Compacted(ki.items, atRev);
      && left != []
      && |records| == |left|
      && forall i :: 0 <= i < |left| ==> records[i] == RecordOf(left[i])
    modifies ki
    ensures ki.Valid() && ki.items == Compacted(Annotate(h), atRev)
    ensures fresh(restored) && restored.Valid() && restored.Equal(ki)
    ensures restored.key == ki.key && restored.modified == ki.modified && SameItems(restored.items, ki.items)
  {
    CompactedReplays(h, atRev);
    var available := ki.Compact(atRev, {});
    restored := RestoreIntoIndex(ki.key, records, ki.items);
    GenerationsDetermined(restored.generations, ki.generations);
    assert restored.items[|ki.items| - 1].rev == ki.items[|ki.items| - 1].rev;
  }
}
