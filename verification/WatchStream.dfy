// The run loop of a watch stream as the code writes it: fields changed in place,
// queues walked index by index.
module WatchStream {
  import opened WatchHistory
  import opened WatchResume

  lemma {:induction false} ClearedAt(slots: seq<Slot>, w: nat, i: nat)
    requires i <= |slots| && forall j :: 0 <= j < i ==> slots[j] != Of(w)
    requires i < |slots| ==> slots[i] == Of(w)
    ensures Cleared(slots, w) == if i < |slots| then slots[i := Nobody] else slots
  {
    if i > 0 { ClearedAt(slots[1..], w, i - 1); }
  }

  lemma {:induction false} StrippedAppend(slots: seq<Slot>, x: Slot)
    ensures Stripped(slots + [x]) == Stripped(slots) + (if x.Of? then [x] else [])
  {
    if slots == [] {
      assert [x][1..] == [] && slots + [x] == [x];
    } else {
      assert (slots + [x])[1..] == slots[1..] + [x];
      StrippedAppend(slots[1..], x);
    }
  }

  ghost predicate OneEach(c: Client) {
    && (forall id :: id in c.substreams ==> c.substreams[id] in c.watchers)
    && (forall i, j :: i in c.substreams && j in c.substreams && i != j ==> c.substreams[i] != c.substreams[j])
  }

  /** An order in which the map of substreams may be walked. */
  ghost predicate Walk(c: Client, walk: seq<int>) {
    && (forall i, j :: 0 <= i < j < |walk| ==> walk[i] != walk[j])
    && (forall i :: 0 <= i < |walk| ==> walk[i] in c.substreams)
    && (forall id :: id in c.substreams ==> id in walk)
  }

  function Slots(c: Client, walk: seq<int>): seq<Slot>
    requires forall i :: 0 <= i < |walk| ==> walk[i] in c.substreams
  {
    seq(|walk|, i requires 0 <= i < |walk| => Of(c.substreams[walk[i]]))
  }

  /** The watchers walked so far have lost their ids. */
  ghost predicate Resumed(c: Client, walk: seq<int>, n: nat, watchers: map<nat, Watcher>)
    requires Walk(c, walk) && n <= |walk|
  {
    && watchers.Keys == c.watchers.Keys
    && forall w :: w in watchers ==>
         watchers[w] == if Of(w) in Slots(c, walk)[..n] then Detached(c.watchers[w]) else c.watchers[w]
  }

  lemma ResumedStep(c: Client, walk: seq<int>, n: nat, watchers: map<nat, Watcher>)
    requires OneEach(c) && Walk(c, walk) && n < |walk| && Resumed(c, walk, n, watchers)
    ensures walk[n] in c.substreams
    ensures var w := c.substreams[walk[n]];
      && w in watchers
      && Resumed(c, walk, n + 1, watchers[w := Detached(watchers[w])])
  {
    assert walk[n] in walk;
    var slots := Slots(c, walk);
    assert slots[..n + 1] == slots[..n] + [slots[n]];
  }

  lemma ResumedAll(c: Client, walk: seq<int>, watchers: map<nat, Watcher>)
    requires OneEach(c) && Walk(c, walk) && Resumed(c, walk, |walk|, watchers)
    ensures Distinct(Slots(c, walk)) && forall x :: x in Slots(c, walk) <==> x.Of? && x.w in Serving(c)
    ensures OnReconnect(c, Slots(c, walk)) == Client(watchers, map[], Stripped(c.resuming + Slots(c, walk)), c.cur)
  {
    var slots := Slots(c, walk);
    assert slots[..|walk|] == slots;
    forall x: Slot | x.Of? && x.w in Serving(c)
      ensures x in slots
    {
      var id :| id in c.substreams && c.substreams[id] == x.w;
      var i :| 0 <= i < |walk| && walk[i] == id;
      assert slots[i] == x;
    }
    forall x | x in slots
      ensures x.Of? && x.w in Serving(c)
    {
      var i :| 0 <= i < |slots| && slots[i] == x;
      assert walk[i] in walk && walk[i] in c.substreams;
    }
    forall i, j | 0 <= i < j < |slots|
      ensures slots[i].w != slots[j].w
    {
      assert walk[i] in walk && walk[j] in walk;
    }
    assert OnReconnect(c, slots).watchers == watchers;
  }

  class WatchGrpcStream {
    var watchers: map<nat, Watcher>
    var substreams: map<int, nat>
    var resuming: seq<Slot>
    var cur: CurrentResponse

    ghost function Now(): Client
      reads this
    {
      Client(watchers, substreams, resuming, cur)
    }

    constructor ()
      ensures Now() == Client(map[], map[], [], NoResponse)
    {
      watchers, substreams, resuming, cur := map[], map[], [], NoResponse;
    }

    /** nextResume */
    method NextResume() returns (next: Slot)
      modifies this`resuming
      ensures resuming == DropNobody(old(resuming))
      ensures next == if resuming == [] then Nobody else resuming[0]
    {
      while |resuming| != 0
        invariant DropNobody(resuming) == DropNobody(old(resuming))
        decreases |resuming|
      {
        if resuming[0].Of? { return resuming[0]; }
        resuming := resuming[1..];
      }
      next := Nobody;
    }

    /** closeSubstream, as far as the stream's own bookkeeping goes. */
    method CloseSubstream(w: nat)
      requires w in watchers
      modifies this`substreams, this`resuming
      ensures Now() == OnClosing(old(Now()), w)
    {
      if watchers[w].id != INVALID_WATCH_ID {
        substreams := substreams - {watchers[w].id};
        return;
      }
      for i := 0 to |resuming|
        invariant resuming == old(resuming)
        invariant forall j :: 0 <= j < i ==> resuming[j] != Of(w)
      {
        if resuming[i] == Of(w) {
          ClearedAt(resuming, w, i);
          resuming := resuming[i := Nobody];
          return;
        }
      }
      ClearedAt(resuming, w, |resuming|);
    }

    /** The loop of newWatchClient over the map of substreams, in the order of walk. */
    method QueueAll(walk: seq<int>)
      requires OneEach(Now()) && Walk(Now(), walk)
      modifies this`watchers, this`resuming
      ensures Resumed(old(Now()), walk, |walk|, watchers)
      ensures resuming == old(resuming) + Slots(old(Now()), walk)
    {
      ghost var before := Now();
      ghost var slots := Slots(before, walk);
      assert before.resuming + slots[..0] == before.resuming;
      assert slots[..0] == [] && Resumed(before, walk, 0, watchers);
      hide Detached, OneEach, Resumed;
      for i := 0 to |walk|
        invariant resuming == before.resuming + slots[..i]
        invariant Resumed(before, walk, i, watchers)
      {
        ResumedStep(before, walk, i, watchers);
        var w := substreams[walk[i]];
        watchers := watchers[w := Detached(watchers[w])];
        resuming := resuming + [Of(w)];
        assert slots[..i + 1] == slots[..i] + [slots[i]];
      }
      assert slots[..|walk|] == slots;
    }

    /** The part of newWatchClient before it connects: everybody resumes. walk is the
        order in which the map of substreams is walked. */
    method ResumeAll(walk: seq<int>)
      requires OneEach(Now()) && Walk(Now(), walk)
      modifies this
      ensures Now() == OnReconnect(old(Now()), Slots(old(Now()), walk))
    {
      ghost var before := Now();
      hide OneEach, Walk, Slots, OnReconnect, Stripped, Resumed;
      QueueAll(walk);
      ResumedAll(before, walk, watchers);
      Strip();
      substreams := map[];
    }

    /** Abandoned places in the queue are left behind with the old stream. */
    method Strip()
      modifies this`resuming
      ensures resuming == Stripped(old(resuming))
    {
      var kept: seq<Slot> := [];
      for i := 0 to |resuming|
        invariant resuming == old(resuming)
        invariant kept == Stripped(resuming[..i])
      {
        assert resuming[..i + 1] == resuming[..i] + [resuming[i]];
        StrippedAppend(resuming[..i], resuming[i]);
        if resuming[i].Of? { kept := kept + [resuming[i]]; }
      }
      assert resuming[..|resuming|] == resuming;
      resuming := kept;
    }

    /** run's case for a response. The result is the watcher whose creation to request next. */
    method HandleResponse(r: Response) returns (next: Slot)
      requires r.created ==> resuming != [] && (resuming[0].Of? ==> resuming[0].w in watchers)
      modifies this
      ensures Now() == OnResponse(old(Now()), r)
      ensures next == if r.created && resuming != [] then resuming[0] else Nobody
    {
      next := Nobody;
      if cur.NoResponse? || r.created || r.canceled {
        cur := Partly(r);
      } else if cur.response.id == r.id {
        cur := Partly(cur.response.(events := cur.response.events + r.events, fragment := r.fragment));
      }
      if r.created {
        var head := resuming[0];
        if head.Of? {
          AddToSubstreams(r, head.w);
          Dispatch(r);
          resuming := resuming[0 := Nobody];
        }
        next := NextResume();
        cur := NoResponse;
      } else if r.canceled && r.compact == 0 {
        if r.id in substreams && substreams[r.id] in watchers {
          var w := substreams[r.id];
          watchers := watchers[w := watchers[w].(finished := true)];
        }
        cur := NoResponse;
      } else if cur.response.fragment {
        return;
      } else {
        Dispatch(cur.response);
        cur := NoResponse;
      }
    }

    /** addSubstream */
    method AddToSubstreams(r: Response, w: nat)
      requires w in watchers
      modifies this`watchers, this`substreams
      ensures Now() == AddSubstream(old(Now()), r, w)
    {
      if r.id == INVALID_WATCH_ID || r.canceled {
        watchers := watchers[w := watchers[w].(finished := true)];
        return;
      }
      watchers := watchers[w := watchers[w].(id := r.id)];
      substreams := substreams[r.id := w];
    }

    /** dispatchEvent, broadcastResponse and unicastResponse. */
    method Dispatch(r: Response)
      modifies this`watchers
      ensures watchers == DispatchEvent(old(Now()), r).watchers
    {
      if IsProgressNotify(r) && r.id == INVALID_WATCH_ID {
        watchers := map w | w in watchers ::
          if exists id :: id in substreams && substreams[id] == w then Accept(watchers[w], r) else watchers[w];
      } else if r.id in substreams && substreams[r.id] in watchers {
        var w := substreams[r.id];
        watchers := watchers[w := Accept(watchers[w], r)];
      }
    }
  }
}
