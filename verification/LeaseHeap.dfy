// The heap of leases by expiry: sifting on values, with the meaning of container/heap,
// and the queue of shared items that carry their own position.
module Heaps {
  datatype Entry = Entry(id: int, time: int)

  function Parent(k: int): int {
    (k - 1) / 2
  }

  function Swapped(s: seq<Entry>, i: nat, j: nat): seq<Entry>
    requires i < |s| && j < |s|
  {
    s[i := s[j]][j := s[i]]
  }

  /** heap.up */
  function Up(s: seq<Entry>, j: nat): (r: seq<Entry>)
    requires j < |s|
    ensures |r| == |s|
    decreases j
  {
    if j == 0 || s[j].time >= s[Parent(j)].time then s
    else Up(Swapped(s, Parent(j), j), Parent(j))
  }

  /** The smaller child of i; the left one when they are equal. */
  function Child(s: seq<Entry>, i: nat, n: nat): (j: nat)
    requires n <= |s| && 2 * i + 1 < n
    ensures i < j < n
  {
    if 2 * i + 2 < n && s[2 * i + 2].time < s[2 * i + 1].time then 2 * i + 2 else 2 * i + 1
  }

  predicate Sinks(s: seq<Entry>, i: nat, n: nat)
    requires i < n <= |s|
  {
    2 * i + 1 < n && s[Child(s, i, n)].time < s[i].time
  }

  /** heap.down, over the first n elements. */
  function Down(s: seq<Entry>, i: nat, n: nat): (r: seq<Entry>)
    requires i < n <= |s|
    ensures |r| == |s|
    decreases n - i
  {
    if Sinks(s, i, n) then Down(Swapped(s, i, Child(s, i, n)), Child(s, i, n), n) else s
  }

  ghost predicate Ordered(s: seq<Entry>, n: nat)
    requires n <= |s|
  {
    forall k :: 0 < k < n ==> s[Parent(k)].time <= s[k].time
  }

  /** Order everywhere but around position i, whose parent is not above its children. */
  ghost predicate OrderedBut(s: seq<Entry>, n: nat, i: nat)
    requires i < n <= |s|
  {
    && (forall k :: 0 < k < n && k != i && Parent(k) != i ==> s[Parent(k)].time <= s[k].time)
    && (forall k :: 0 < k < n && Parent(k) == i && i > 0 ==> s[Parent(i)].time <= s[k].time)
  }

  ghost predicate ChildrenOk(s: seq<Entry>, n: nat, i: nat)
    requires i < n <= |s|
  {
    forall k :: 0 < k < n && Parent(k) == i ==> s[i].time <= s[k].time
  }

  ghost predicate ParentOk(s: seq<Entry>, i: nat)
    requires i < |s|
  {
    i > 0 ==> s[Parent(i)].time <= s[i].time
  }

  lemma {:induction false} UpOrders(s: seq<Entry>, n: nat, j: nat)
    requires j < n <= |s| && OrderedBut(s, n, j) && ChildrenOk(s, n, j)
    ensures Ordered(Up(s, j), n)
    decreases j
  {
    if j > 0 && s[j].time < s[Parent(j)].time {
      var p := Parent(j);
      var t := Swapped(s, p, j);
      forall k | 0 < k < n && k != p && Parent(k) != p
        ensures t[Parent(k)].time <= t[k].time
      {
        assert k != j;
      }
      UpOrders(t, n, p);
    }
  }

  lemma {:induction false} DownOrders(s: seq<Entry>, n: nat, i: nat)
    requires i < n <= |s| && OrderedBut(s, n, i) && ParentOk(s, i)
    ensures Ordered(Down(s, i, n), n)
    decreases n - i
  {
    if Sinks(s, i, n) {
      var j := Child(s, i, n);
      DownStep(s, n, i);
      DownOrders(Swapped(s, i, j), n, j);
    }
  }

  lemma DownStep(s: seq<Entry>, n: nat, i: nat)
    requires i < n <= |s| && OrderedBut(s, n, i) && Sinks(s, i, n)
    ensures var j := Child(s, i, n);
      var t := Swapped(s, i, j);
      OrderedBut(t, n, j) && ParentOk(t, j)
  {
    var j := Child(s, i, n);
    var t := Swapped(s, i, j);
    assert Parent(j) == i;
    forall k | 0 < k < n && k != j && Parent(k) != j
      ensures t[Parent(k)].time <= t[k].time
    {
      if Parent(k) == i {
        assert k == 2 * i + 1 || k == 2 * i + 2;
      } else if k == i {
        assert s[Parent(i)].time <= s[j].time;
      }
    }
    forall k | 0 < k < n && Parent(k) == j
      ensures t[Parent(j)].time <= t[k].time
    {
      assert k > j && s[Parent(k)].time <= s[k].time;
    }
  }

  /** heap.Fix: sinks from i, and rises if it did not sink. */
  function Fixed(s: seq<Entry>, i: nat): seq<Entry>
    requires i < |s|
  {
    if Sinks(s, i, |s|) then Down(s, i, |s|) else Up(s, i)
  }

  lemma FixOrders(s: seq<Entry>, i: nat)
    requires i < |s| && OrderedBut(s, |s|, i)
    ensures |Fixed(s, i)| == |s| && Ordered(Fixed(s, i), |s|)
  {
    if Sinks(s, i, |s|) {
      DownStep(s, |s|, i);
      DownOrders(Swapped(s, i, Child(s, i, |s|)), |s|, Child(s, i, |s|));
    } else {
      forall k | 0 < k < |s| && Parent(k) == i
        ensures s[i].time <= s[k].time
      {
        assert k == 2 * i + 1 || k == 2 * i + 2;
      }
      UpOrders(s, |s|, i);
    }
  }

  /** Changing the time of one element disturbs the order only around it. */
  lemma RetimedIsOrderedBut(s: seq<Entry>, i: nat, time: int)
    requires i < |s| && Ordered(s, |s|)
    ensures OrderedBut(s[i := s[i].(time := time)], |s|, i)
  {
    forall k | 0 < k < |s| && Parent(k) == i && i > 0
      ensures s[Parent(i)].time <= s[k].time
    {
      assert s[Parent(k)].time <= s[k].time && s[Parent(i)].time <= s[i].time;
    }
  }

  lemma {:induction false} RootIsLeast(s: seq<Entry>, n: nat, k: nat)
    requires k < n <= |s| && Ordered(s, n)
    ensures s[0].time <= s[k].time
    decreases k
  {
    if k > 0 { RootIsLeast(s, n, Parent(k)); }
  }

  lemma SwapKeepsAll(s: seq<Entry>, i: nat, j: nat)
    requires i < |s| && j < |s|
    ensures multiset(Swapped(s, i, j)) == multiset(s)
  {
  }

  lemma {:induction false} UpKeepsAll(s: seq<Entry>, j: nat)
    requires j < |s|
    ensures multiset(Up(s, j)) == multiset(s)
    decreases j
  {
    if j > 0 && s[j].time < s[Parent(j)].time {
      SwapKeepsAll(s, Parent(j), j);
      UpKeepsAll(Swapped(s, Parent(j), j), Parent(j));
    }
  }

  lemma {:induction false} DownKeepsAll(s: seq<Entry>, i: nat, n: nat)
    requires i < n <= |s|
    ensures multiset(Down(s, i, n)) == multiset(s)
    ensures Down(s, i, n)[n..] == s[n..]
    decreases n - i
  {
    if Sinks(s, i, n) {
      SwapKeepsAll(s, i, Child(s, i, n));
      DownKeepsAll(Swapped(s, i, Child(s, i, n)), Child(s, i, n), n);
    }
  }

  /** The child that is compared with its parent is the least of them, and the left one
      when both have the same time. */
  lemma ChildIsLeast(s: seq<Entry>, i: nat, n: nat)
    requires n <= |s| && 2 * i + 1 < n
    ensures forall k :: 0 < k < n && Parent(k) == i ==> s[Child(s, i, n)].time <= s[k].time
    ensures 2 * i + 2 < n && s[2 * i + 1].time == s[2 * i + 2].time ==> Child(s, i, n) == 2 * i + 1
  {
    forall k | 0 < k < n && Parent(k) == i
      ensures k == 2 * i + 1 || k == 2 * i + 2
    {
    }
  }

  /** In a heap that is in order nothing moves, whatever leases expire at the same time. */
  lemma OrderedStays(s: seq<Entry>, i: nat, n: nat)
    requires i < n <= |s| && Ordered(s, n)
    ensures Up(s, i) == s && Down(s, i, n) == s && (n == |s| ==> Fixed(s, i) == s)
  {
    if 2 * i + 1 < n { assert Parent(Child(s, i, n)) == i; }
    if i > 0 { assert s[Parent(i)].time <= s[i].time; }
  }

  /** What heap.Pop leaves: the last element is put at the root and sinks. */
  function Popped(s: seq<Entry>): seq<Entry>
    requires s != []
  {
    var n := |s| - 1;
    if n == 0 then [] else Down(Swapped(s, 0, n), 0, n)[..n]
  }

  lemma PushOrders(s: seq<Entry>, e: Entry)
    requires Ordered(s, |s|)
    ensures Ordered(Up(s + [e], |s|), |s| + 1)
  {
    UpOrders(s + [e], |s| + 1, |s|);
  }

  lemma LastDropped(d: seq<Entry>)
    requires d != []
    ensures multiset(d[..|d| - 1]) == multiset(d) - multiset{d[|d| - 1]}
  {
    assert d == d[..|d| - 1] + [d[|d| - 1]];
  }

  lemma PoppedRoot(s: seq<Entry>)
    requires |s| > 1 && Ordered(s, |s|)
    ensures OrderedBut(Swapped(s, 0, |s| - 1), |s| - 1, 0)
  {
  }

  lemma PrefixOrdered(d: seq<Entry>, n: nat)
    requires n <= |d| && Ordered(d, n)
    ensures Ordered(d[..n], n)
  {
  }

  lemma PopOrders(s: seq<Entry>)
    requires s != [] && Ordered(s, |s|)
    ensures Ordered(Popped(s), |Popped(s)|)
    ensures multiset(Popped(s)) == multiset(s) - multiset{s[0]}
  {
    var n := |s| - 1;
    LastDropped(s);
    if n > 0 {
      var t := Swapped(s, 0, n);
      var d := Down(t, 0, n);
      SwapKeepsAll(s, 0, n);
      PoppedRoot(s);
      DownOrders(t, n, 0);
      DownKeepsAll(t, 0, n);
      assert d[n] == d[n..][0] == t[n..][0] == s[0];
      hide Down, Ordered, OrderedBut, Swapped;
      PrefixOrdered(d, n);
      LastDropped(d);
    }
  }
}

module LeaseQueues {
  import opened Heaps

  class LeaseWithTime {
    var id: int
    var time: int
    var index: int

    constructor (id: int, time: int)
      ensures this.id == id && this.time == time
    {
      this.id, this.time, this.index := id, time, 0;
    }
  }

  ghost function Entries(q: seq<LeaseWithTime>): (s: seq<Entry>)
    reads q
    ensures |s| == |q|
    ensures forall i :: 0 <= i < |q| ==> s[i] == Entry(q[i].id, q[i].time)
  {
    if q == [] then []
    else
      var last := q[|q| - 1];
      Entries(q[..|q| - 1]) + [Entry(last.id, last.time)]
  }

  class LeaseExpiredNotifier {
    var m: map<int, LeaseWithTime>
    var queue: seq<LeaseWithTime>
    ghost var items: set<LeaseWithTime>

    /** Every item in the queue knows its position, and is the one the map has for its lease. */
    ghost predicate Placed()
      reads this, items
    {
      && (forall i :: 0 <= i < |queue| ==> queue[i] in items && queue[i].index == i)
      && (forall x :: x in items ==> 0 <= x.index < |queue| && queue[x.index] == x && x.id in m && m[x.id] == x)
    }

    /** The map holds nothing else. */
    ghost predicate Complete()
      reads this`m, this`items, m.Values`id
    {
      forall id :: id in m ==> m[id] in items && m[id].id == id
    }

    ghost predicate Valid()
      reads this, items, m.Values
    {
      Placed() && Complete() && Ordered(Now(), |queue|)
    }

    ghost function Now(): (s: seq<Entry>)
      requires Placed()
      reads this, items
      ensures |s| == |queue|
    {
      Entries(queue)
    }

    /** Each lease with its latest registered time. */
    ghost function Times(): map<int, int>
      reads this`m, m.Values`time
    {
      map id | id in m :: m[id].time
    }

    constructor ()
      ensures Valid() && m == map[] && queue == []
    {
      m, queue, items := map[], [], {};
    }

    // ----- LeaseQueue and container/heap -----

    method Swap(i: nat, j: nat)
      requires Placed() && i < |queue| && j < |queue|
      modifies this`queue, items`index
      ensures Placed() && Now() == Swapped(old(Now()), i, j)
      ensures queue == old(queue)[i := old(queue[j])][j := old(queue[i])]
    {
      hide Entries;
      queue := queue[i := queue[j]][j := queue[i]];
      queue[i].index := i;
      queue[j].index := j;
    }

    method SiftUp(start: nat)
      requires Placed() && start < |queue|
      modifies this`queue, items`index
      ensures Placed() && Now() == Up(old(Now()), start)
    {
      hide Entries, Swapped;
      var j: nat := start;
      while j > 0 && queue[j].time < queue[(j - 1) / 2].time
        invariant j < |queue| && Placed()
        invariant Up(Now(), j) == Up(old(Now()), start)
        decreases j
      {
        Swap((j - 1) / 2, j);
        j := (j - 1) / 2;
      }
    }

    method SmallerChild(i: nat, n: nat) returns (j: nat)
      requires Placed() && 2 * i + 1 < n <= |queue|
      ensures j == Child(Now(), i, n)
    {
      j := 2 * i + 1;
      if j + 1 < n && queue[j + 1].time < queue[j].time { j := j + 1; }
    }

    method SiftDown(start: nat, n: nat) returns (moved: bool)
      requires Placed() && start < n <= |queue|
      modifies this`queue, items`index
      ensures Placed() && Now() == Down(old(Now()), start, n)
      ensures moved == Sinks(old(Now()), start, n)
      ensures queue[n..] == old(queue[n..])
    {
      hide Child, Swapped, Entries;
      var i: nat := start;
      var done := false;
      while !done
        invariant start <= i < n <= |queue| == |old(queue)| && Placed()
        invariant queue[n..] == old(queue[n..])
        invariant Down(Now(), i, n) == Down(old(Now()), start, n)
        invariant if i > start then Sinks(old(Now()), start, n) else Now() == old(Now())
        invariant done ==> !Sinks(Now(), i, n)
        decreases n - i, !done
      {
        if 2 * i + 1 >= n {
          done := true;
        } else {
          var j := SmallerChild(i, n);
          if queue[j].time >= queue[i].time {
            done := true;
          } else {
            Swap(i, j);
            i := j;
          }
        }
      }
      moved := i > start;
    }

    ghost function PositionOf(x: LeaseWithTime): (i: nat)
      requires Placed() && x in items
      reads this, items
      ensures i < |queue| && queue[i] == x && x.index == i
    {
      x.index
    }

    /** heap.Fix */
    method Fix(i: nat)
      requires Placed() && i < |queue|
      modifies this`queue, items`index
      ensures Placed() && Now() == Fixed(old(Now()), i)
    {
      var moved := SiftDown(i, |queue|);
      if !moved { SiftUp(i); }
    }

    // ----- LeaseExpiredNotifier -----

    /** The item may be one the queue holds already, its time changed by the caller. */
    method RegisterOrUpdate(item: LeaseWithTime)
      requires Placed() && Complete()
      requires if item in items then OrderedBut(Now(), |queue|, item.index) else Ordered(Now(), |queue|)
      modifies this, items, item
      ensures Valid()
      ensures item.id == old(item.id) && item.time == old(item.time)
      ensures Times() == old(Times())[item.id := item.time]
    {
      if item.id in m { Update(item); } else { Insert(item); }
    }

    lemma Known(id: int)
      requires Complete() && id in m
      ensures m[id] in items && m[id].id == id
    {
    }

    method Update(item: LeaseWithTime)
      requires Placed() && Complete() && item.id in m
      requires if item in items then OrderedBut(Now(), |queue|, item.index) else Ordered(Now(), |queue|)
      modifies this`queue, items`index, items`time
      ensures Valid() && item.time == old(item.time)
      ensures Times() == old(Times())[item.id := item.time]
    {
      hide Ordered, OrderedBut, Up, Down, Fixed, Sinks, Entries;
      var known := m[item.id];
      ghost var before := Now();
      ghost var times := Times();
      Known(item.id);
      ghost var i := PositionOf(known);
      if item !in items { RetimedIsOrderedBut(before, i, item.time); }
      assert item in items ==> item == known;
      known.time := item.time;
      forall id | id in m
        ensures Times()[id] == times[item.id := item.time][id]
      {
        Known(id);
      }
      assert Times() == times[item.id := item.time];
      assert Now() == before[i := before[i].(time := item.time)];
      FixOrders(Now(), i);
      Fix(known.index);
    }

    method Insert(item: LeaseWithTime)
      requires Valid() && item.id !in m && item !in items
      modifies this, items`index, item`index
      ensures Valid() && Times() == old(Times())[item.id := item.time]
    {
      hide Ordered, Up, Entries;
      ghost var before := Now();
      item.index := |queue|;
      queue := queue + [item];
      m := m[item.id := item];
      items := items + {item};
      assert Now() == before + [Entry(item.id, item.time)];
      PushOrders(before, Entry(item.id, item.time));
      SiftUp(|queue| - 1);
    }

    /** heap.Pop on an empty queue is a panic. */
    method Unregister() returns (item: LeaseWithTime)
      requires Valid() && queue != []
      modifies this, items
      ensures Valid()
      ensures item == old(queue[0]) && item.id in old(m)
      ensures Times() == old(Times()) - {item.id}
      ensures forall id :: id in old(Times()) ==> item.time <= old(Times())[id]
    {
      hide Ordered, Popped, Entries, Placed, Complete, Times;
      PopOrders(Now());
      LeastTime();
      EachMapped();
      item := HeapPop();
      DropFromMap(item);
    }

    lemma EachMapped()
      requires Placed() && Complete()
      ensures forall id :: id in m ==> m[id] in items && m[id].id == id
      ensures queue != [] ==> queue[0].id in m && m[queue[0].id] == queue[0]
    {
    }

    /** The map forgets the item that has left the queue. */
    method DropFromMap(item: LeaseWithTime)
      requires Placed() && item.id in m && m[item.id] == item && item !in items
      requires forall id :: id in m ==> m[id] in items + {item} && m[id].id == id
      modifies this`m
      ensures m == old(m) - {item.id} && Placed() && Complete() && Times() == old(Times()) - {item.id}
    {
      hide Entries;
      forall id | id in m && id != item.id
        ensures m[id] in items
      {
        assert m[id].id == id;
      }
      m := m - {item.id};
    }

    /** heap.Pop: the map still has the item that leaves the queue. */
    method HeapPop() returns (item: LeaseWithTime)
      requires Placed() && queue != []
      modifies this`queue, this`items, items`index
      ensures item == old(queue[0]) && item in old(items) && items == old(items) - {item}
      ensures Placed() && Now() == Popped(old(Now()))
    {
      hide Down, Sinks, Ordered, Swapped, Entries;
      var n := |queue| - 1;
      if n > 0 {
        Swap(0, n);
        var moved := SiftDown(0, n);
        assert queue[n..][0] == queue[n];
      }
      item := Pop();
    }

    /** LeaseQueue.Pop */
    method Pop() returns (item: LeaseWithTime)
      requires Placed() && queue != []
      modifies this`queue, this`items, items`index
      ensures item == old(queue[|queue| - 1]) && item in old(items) && items == old(items) - {item}
      ensures Placed() && |queue| == old(|queue|) - 1 && Now() == old(Now())[..|queue|]
    {
      hide Entries;
      var n := |queue| - 1;
      item := queue[n];
      item.index := -1;
      queue := queue[..n];
      items := items - {item};
    }

    lemma LeastTime()
      requires Valid() && queue != []
      ensures forall id :: id in m ==> queue[0].time <= m[id].time
      ensures forall id :: id in Times() ==> queue[0].time <= Times()[id]
    {
      forall id | id in m
        ensures queue[0].time <= m[id].time
      {
        RootIsLeast(Now(), |queue|, m[id].index);
      }
    }

    lemma EmptyTogether()
      requires Valid()
      ensures queue == [] ==> m == map[]
    {
      forall id | id in m
        ensures 0 < |queue|
      {
        assert m[id] in items;
      }
    }

    /** The lease whose time is least, with the time registered last. */
    method Poll() returns (item: LeaseWithTime?)
      requires Valid()
      ensures item == null <==> m == map[]
      ensures item != null ==>
        && item.id in Times() && item.time == Times()[item.id]
        && forall id :: id in Times() ==> item.time <= Times()[id]
    {
      if |m| == 0 { return null; }
      EmptyTogether();
      LeastTime();
      return queue[0];
    }
  }
}
