// The events a watcher is owed: the store's history, cut by revision.
module WatchHistory {
  /** One change of one key; a transaction gives all its events the same revision. */
  datatype Event = Event(rev: nat, key: seq<int>, deleted: bool)

  /** Key range and filters of a watch. */
  type Interest = Event -> bool

  ghost predicate Ordered(log: seq<Event>, store: nat) {
    && (forall i, j :: 0 <= i < j < |log| ==> log[i].rev <= log[j].rev)
    && (forall i :: 0 <= i < |log| ==> 0 < log[i].rev <= store)
  }

  /** The matching events with low <= revision < high, in order. */
  function Matching(log: seq<Event>, want: Interest, low: nat, high: nat): seq<Event> {
    if log == [] then []
    else
      var e := log[|log| - 1];
      Matching(log[..|log| - 1], want, low, high) + Taken(e, want, low, high)
  }

  function Taken(e: Event, want: Interest, low: nat, high: nat): seq<Event> {
    if want(e) && low <= e.rev < high then [e] else []
  }

  lemma {:induction false} MatchingNone(log: seq<Event>, want: Interest, low: nat, high: nat)
    requires high <= low
    ensures Matching(log, want, low, high) == []
  {
    if log != [] { MatchingNone(log[..|log| - 1], want, low, high); }
  }

  lemma {:induction false} MatchingMembers(log: seq<Event>, want: Interest, low: nat, high: nat, e: Event)
    ensures e in Matching(log, want, low, high) <==> e in log && want(e) && low <= e.rev < high
    ensures e in Matching(log, want, low, high) ==>
      multiset(Matching(log, want, low, high))[e] == multiset(log)[e]
  {
    if log != [] {
      var front, last := log[..|log| - 1], log[|log| - 1];
      MatchingMembers(front, want, low, high, e);
      assert log == front + [last];
    }
  }

  lemma {:induction false} NothingBeyond(log: seq<Event>, want: Interest, low: nat, high: nat)
    requires forall i :: 0 <= i < |log| ==> log[i].rev < low
    ensures Matching(log, want, low, high) == []
  {
    if log != [] { NothingBeyond(log[..|log| - 1], want, low, high); }
  }

  lemma {:induction false} MatchingSplit(log: seq<Event>, want: Interest, store: nat, low: nat, mid: nat, high: nat)
    requires Ordered(log, store) && low <= mid <= high
    ensures Matching(log, want, low, high) == Matching(log, want, low, mid) + Matching(log, want, mid, high)
  {
    if log != [] {
      var front, last := log[..|log| - 1], log[|log| - 1];
      MatchingSplit(front, want, store, low, mid, high);
      if last.rev < mid { NothingBeyond(front, want, mid, high); }
      assert Matching(log, want, low, high) == Matching(front, want, low, high) + Taken(last, want, low, high);
      assert Matching(log, want, low, mid) == Matching(front, want, low, mid) + Taken(last, want, low, mid);
      assert Matching(log, want, mid, high) == Matching(front, want, mid, high) + Taken(last, want, mid, high);
      hide Matching;
    }
  }

  lemma {:induction false} MatchingGrows(log: seq<Event>, more: seq<Event>, want: Interest, low: nat, high: nat)
    requires forall i :: 0 <= i < |more| ==> more[i].rev >= high
    ensures Matching(log + more, want, low, high) == Matching(log, want, low, high)
  {
    if more == [] {
      assert log + more == log;
    } else {
      MatchingGrows(log, more[..|more| - 1], want, low, high);
      assert (log + more)[..|log + more| - 1] == log + more[..|more| - 1];
    }
  }
}
