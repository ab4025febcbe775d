// Watch resume loses and repeats nothing: the invariant of the stream, kept by every
// step of the client, the server and the network.
module WatchExact {
  import opened WatchHistory
  import opened WatchResume

  // ----- what one watcher holds -----

  /** The events in the buffer that the subscriber will get, up to the first failure. */
  function Kept(buf: seq<Delivery>): seq<Event> {
    if buf == [] || buf[0].failed then [] else buf[0].events + Kept(buf[1..])
  }

  ghost predicate Unfailed(buf: seq<Delivery>) {
    forall i :: 0 <= i < |buf| ==> !buf[i].failed
  }

  ghost predicate Live(w: Watcher) {
    !w.finished && Unfailed(w.buf)
  }

  /** A bound on the history that later changes of the store cannot affect. */
  ghost predicate Settled(store: nat, start: nat, upto: nat) {
    start <= upto && (upto <= store + 1 || upto == start)
  }

  ghost predicate SettledAll(store: nat, start: nat, rewinds: seq<Rewind>, upto: nat) {
    if rewinds == [] then Settled(store, start, upto)
    else
      var last := |rewinds| - 1;
      && SettledAll(store, start, rewinds[..last], rewinds[last].due)
      && Settled(store, rewinds[last].rev, upto)
  }

  /** What a watch delivers that went back as given and got to a revision in the end: one
      stretch of the matching history after the other. */
  function Delivered(log: seq<Event>, want: Interest, start: nat, rewinds: seq<Rewind>, upto: nat): seq<Event> {
    if rewinds == [] then Matching(log, want, start, upto)
    else
      var last := |rewinds| - 1;
      Delivered(log, want, start, rewinds[..last], rewinds[last].due) + Matching(log, want, rewinds[last].rev, upto)
  }

  ghost predicate ExactTo(log: seq<Event>, store: nat, w: Watcher, rewinds: seq<Rewind>, upto: nat) {
    && rewinds <= w.rewinds
    && SettledAll(store, w.start, rewinds, upto)
    && (if w.finished then w.sent <= Delivered(log, w.want, w.start, rewinds, upto)
        else w.sent + Kept(w.buf) == Delivered(log, w.want, w.start, rewinds, upto))
  }

  ghost predicate WatcherOk(log: seq<Event>, store: nat, w: Watcher) {
    && w.rev <= w.due
    && (exists rewinds, upto :: ExactTo(log, store, w, rewinds, upto))
    && (Live(w) ==> ExactTo(log, store, w, w.rewinds, w.due))
    && (forall i :: 0 <= i < |w.buf| && w.buf[i].failed ==> w.buf[i].events == [])
  }

  lemma {:induction false} KeptAppend(buf: seq<Delivery>, d: Delivery)
    ensures Kept(buf + [d]) == if Unfailed(buf) && !d.failed then Kept(buf) + d.events else Kept(buf)
  {
    if buf == [] {
      assert [d][1..] == [];
      assert buf + [d] == [d];
    } else {
      var tail := buf[1..];
      KeptCons(buf);
      KeptCons(buf + [d]);
      assert (buf + [d])[1..] == tail + [d] && (buf + [d])[0] == buf[0];
      UnfailedTail(buf);
      hide Unfailed, Kept;
      if !buf[0].failed {
        KeptAppend(tail, d);
        assert buf[0].events + (Kept(tail) + d.events) == buf[0].events + Kept(tail) + d.events;
      }
    }
  }

  lemma KeptCons(buf: seq<Delivery>)
    requires buf != []
    ensures Kept(buf) == if buf[0].failed then [] else buf[0].events + Kept(buf[1..])
  {
  }

  lemma UnfailedTail(buf: seq<Delivery>)
    requires buf != []
    ensures Unfailed(buf) <==> !buf[0].failed && Unfailed(buf[1..])
  {
    if !buf[0].failed && Unfailed(buf[1..]) {
      forall i | 0 <= i < |buf|
        ensures !buf[i].failed
      {
        assert i > 0 ==> buf[i] == buf[1..][i - 1];
      }
    }
  }

  // ----- what the wire holds for one watch -----

  /** The messages on the wire take a watcher from pos to where the server's watch is. */
  ghost predicate Flows(log: seq<Event>, store: nat, pos: nat, id: nat, wire: seq<Message>, watch: Watch)
    decreases |wire|
  {
    if wire == [] then watch.active && pos == watch.next
    else
      match wire[0]
      case Created(_, _) => Flows(log, store, pos, id, wire[1..], watch)
      case Canceled(i) => i == id || Flows(log, store, pos, id, wire[1..], watch)
      case Compacted(i, _, _) => i == id || Flows(log, store, pos, id, wire[1..], watch)
      case Batch(i, _, _) =>
        if i == id then
          BatchFrom(log, store, watch.want, pos, wire[0])
          && Flows(log, store, LastRev(wire[0]) + 1, id, wire[1..], watch)
        else Flows(log, store, pos, id, wire[1..], watch)
      case Progress(i, h) =>
        if i == id then
          Honest(log, store, watch.want, pos, h) && Flows(log, store, Max(pos, h + 1), id, wire[1..], watch)
        else Flows(log, store, pos, id, wire[1..], watch)
      case Broadcasted(h) =>
        Honest(log, store, watch.want, pos, h) && Flows(log, store, Max(pos, h + 1), id, wire[1..], watch)
  }

  /** The creation on the wire is the answer to a request for want from pos on. */
  ghost predicate Awaits(log: seq<Event>, store: nat, want: Interest, pos: nat, wire: seq<Message>,
                         watches: map<nat, Watch>)
  {
    && wire != []
    && if wire[0].Created? then
         wire[0].ok ==>
           && wire[0].id in watches && watches[wire[0].id].want == want
           && Flows(log, store, pos, wire[0].id, wire[1..], watches[wire[0].id])
       else Awaits(log, store, want, pos, wire[1..], watches)
  }

  function Creations(wire: seq<Message>): nat {
    if wire == [] then 0 else (if wire[0].Created? then 1 else 0) + Creations(wire[1..])
  }

  /** Nothing but progress of the whole stream comes before the first creation. */
  ghost predicate CreatedFirst(wire: seq<Message>) {
    wire != [] && !wire[0].Created? ==> wire[0].Broadcasted? && CreatedFirst(wire[1..])
  }

  /** The effect of a message on the server's watch id. */
  ghost predicate Legal(log: seq<Event>, store: nat, id: nat, before: Watch, m: Message, after: Watch) {
    && after.want == before.want
    && (before.active ==>
          match m
          case Created(_, _) => after == before
          case Canceled(i) => i == id || after == before
          case Compacted(i, _, _) => i == id || after == before
          case Batch(i, _, _) =>
            if i == id then
              BatchFrom(log, store, before.want, before.next, m) && after == before.(next := LastRev(m) + 1)
            else after == before
          case Progress(i, h) =>
            if i == id then
              Honest(log, store, before.want, before.next, h) && after == before.(next := Max(before.next, h + 1))
            else after == before
          case Broadcasted(h) =>
            Honest(log, store, before.want, before.next, h) && after == before.(next := Max(before.next, h + 1)))
  }

  lemma {:induction false} FlowsAppend(log: seq<Event>, store: nat, pos: nat, id: nat, wire: seq<Message>,
      before: Watch, m: Message, after: Watch)
    requires Flows(log, store, pos, id, wire, before) && Legal(log, store, id, before, m, after)
    ensures Flows(log, store, pos, id, wire + [m], after)
    decreases |wire|
  {
    if wire == [] {
      assert wire + [m] == [m] && [m][1..] == [];
    } else {
      assert (wire + [m])[1..] == wire[1..] + [m];
      var next := match wire[0]
        case Batch(i, _, _) => if i == id then LastRev(wire[0]) + 1 else pos
        case Progress(i, h) => if i == id then Max(pos, h + 1) else pos
        case Broadcasted(h) => Max(pos, h + 1)
        case _ => pos;
      if Flows(log, store, next, id, wire[1..], before) {
        FlowsAppend(log, store, next, id, wire[1..], before, m, after);
      }
    }
  }

  lemma BatchGrows(log: seq<Event>, store: nat, events: seq<Event>, want: Interest, pos: nat, m: Message)
    requires m.Batch? && BatchFrom(log, store, want, pos, m) && forall i :: 0 <= i < |events| ==>
      events[i].rev == store + 1
    ensures BatchFrom(log + events, store + 1, want, pos, m)
  {
    MatchingGrows(log, events, want, pos, LastRev(m) + 1);
  }

  lemma HonestGrows(log: seq<Event>, store: nat, events: seq<Event>, want: Interest, pos: nat, h: nat)
    requires Honest(log, store, want, pos, h) && forall i :: 0 <= i < |events| ==> events[i].rev == store + 1
    ensures Honest(log + events, store + 1, want, pos, h)
  {
    MatchingGrows(log, events, want, pos, h + 1);
  }

  lemma {:induction false} FlowsGrows(log: seq<Event>, store: nat, events: seq<Event>, pos: nat, id: nat,
      wire: seq<Message>, watch: Watch)
    requires Flows(log, store, pos, id, wire, watch) && forall i :: 0 <= i < |events| ==> events[i].rev == store + 1
    ensures Flows(log + events, store + 1, pos, id, wire, watch)
    decreases |wire|
  {
    if wire != [] {
      var next := match wire[0]
        case Batch(i, _, _) => if i == id then LastRev(wire[0]) + 1 else pos
        case Progress(i, h) => if i == id then Max(pos, h + 1) else pos
        case Broadcasted(h) => Max(pos, h + 1)
        case _ => pos;
      if wire[0].Batch? && wire[0].id == id { BatchGrows(log, store, events, watch.want, pos, wire[0]); }
      if wire[0].Broadcasted? || (wire[0].Progress? && wire[0].id == id) {
        HonestGrows(log, store, events, watch.want, pos, wire[0].header);
      }
      if Flows(log, store, next, id, wire[1..], watch) {
        FlowsGrows(log, store, events, next, id, wire[1..], watch);
      }
    }
  }

  lemma {:induction false} AwaitsGrows(log: seq<Event>, store: nat, events: seq<Event>, want: Interest, pos: nat,
      wire: seq<Message>, watches: map<nat, Watch>)
    requires Awaits(log, store, want, pos, wire, watches) && forall i :: 0 <= i < |events| ==>
      events[i].rev == store + 1
    ensures Awaits(log + events, store + 1, want, pos, wire, watches)
  {
    if wire[0].Created? {
      if wire[0].ok { FlowsGrows(log, store, events, pos, wire[0].id, wire[1..], watches[wire[0].id]); }
    } else {
      AwaitsGrows(log, store, events, want, pos, wire[1..], watches);
    }
  }

  /** What appending a message to the wire does to every watch. */
  ghost predicate AllLegal(log: seq<Event>, store: nat, before: map<nat, Watch>, m: Message, after: map<nat, Watch>) {
    forall id :: id in before ==> id in after && Legal(log, store, id, before[id], m, after[id])
  }

  lemma {:induction false} AwaitsAppend(log: seq<Event>, store: nat, want: Interest, pos: nat, wire: seq<Message>,
      before: map<nat, Watch>, m: Message, after: map<nat, Watch>)
    requires Awaits(log, store, want, pos, wire, before) && AllLegal(log, store, before, m, after)
    ensures Awaits(log, store, want, pos, wire + [m], after)
  {
    assert (wire + [m])[1..] == wire[1..] + [m];
    if wire[0].Created? {
      if wire[0].ok {
        FlowsAppend(log, store, pos, wire[0].id, wire[1..], before[wire[0].id], m, after[wire[0].id]);
      }
    } else {
      AwaitsAppend(log, store, want, pos, wire[1..], before, m, after);
    }
  }

  lemma {:induction false} CreationsAppend(wire: seq<Message>, m: Message)
    ensures Creations(wire + [m]) == Creations(wire) + (if m.Created? then 1 else 0)
  {
    if wire == [] {
      assert wire + [m] == [m] && [m][1..] == [];
    } else {
      CreationsAppend(wire[1..], m);
      assert (wire + [m])[1..] == wire[1..] + [m];
    }
  }

  lemma {:induction false} CreatedFirstAppend(wire: seq<Message>, m: Message)
    requires CreatedFirst(wire) && (Creations(wire) > 0 || m.Created? || m.Broadcasted?)
    ensures CreatedFirst(wire + [m])
  {
    if wire == [] {
      assert wire + [m] == [m] && [m][1..] == [];
    } else if !wire[0].Created? {
      CreatedFirstAppend(wire[1..], m);
      assert (wire + [m])[1..] == wire[1..] + [m];
    }
  }

  // ----- the invariant -----

  ghost predicate WatchersOk(s: State) {
    forall w :: w in s.client.watchers ==> WatcherOk(s.log, s.store, s.client.watchers[w])
  }

  /** A registered watcher and the server's watch under its id belong together. */
  ghost predicate Registered(s: State, id: int) {
    && id in s.client.substreams && s.client.substreams[id] in s.client.watchers
    && var w := s.client.watchers[s.client.substreams[id]];
       && id >= 0 && w.id == id && id in s.watches && s.watches[id].want == w.want
       && (Live(w) ==> Flows(s.log, s.store, w.due, id, s.wire, s.watches[id]))
  }

  ghost predicate SubstreamsOk(s: State) {
    forall id :: id in s.client.substreams ==> Registered(s, id)
  }

  ghost predicate SlotsOk(c: Client) {
    && SlotsKnown(c) && Distinct(c.resuming)
    && (forall i :: 0 <= i < |c.resuming| && c.resuming[i].Of? ==>
          var w := c.watchers[c.resuming[i].w]; w.id == INVALID_WATCH_ID && w.due == w.rev)
  }

  /** One create request is under way exactly when somebody is resuming, and it is the
      request of the head of the queue, or of a head that was abandoned. */
  ghost predicate FlightOk(s: State)
    requires SlotsKnown(s.client)
  {
    && (forall i :: 0 <= i < |s.wire| && s.wire[i].Created? && s.wire[i].ok ==> s.wire[i].id !in s.client.substreams)
    && |s.requests| + Creations(s.wire) == (if s.client.resuming == [] then 0 else 1)
    && (s.client.resuming != [] && s.client.resuming[0].Of? ==>
          var w := s.client.watchers[s.client.resuming[0].w];
          if s.requests != [] then s.requests[0] == Request(w.want, w.rev)
          else Awaits(s.log, s.store, w.want, w.rev, s.wire, s.watches))
  }

  /** The response being put together is part of the message at the head of the wire,
      or left over from a stream that failed and about to be replaced. */
  ghost predicate CurrentOk(s: State) {
    if s.got > 0 then
      && s.wire != [] && s.wire[0].Batch? && s.got < |s.wire[0].parts|
      && s.client.cur == Partly(Response(s.wire[0].id, s.wire[0].header, Flat(s.wire[0].parts[..s.got]), false, false,
        0, true))
    else
      s.client.cur.Partly? ==>
        && s.client.cur.response.fragment && s.client.cur.response.id >= 0
        && !s.client.cur.response.created && !s.client.cur.response.canceled
        && s.client.substreams == map[] && CreatedFirst(s.wire) && (Creations(s.wire) > 0 || s.watches == map[])
  }

  ghost predicate Inv(s: State) {
    && Ordered(s.log, s.store)
    && WatchersOk(s) && SubstreamsOk(s) && SlotsOk(s.client) && FlightOk(s) && CurrentOk(s)
  }

  // ----- the server's steps -----

  /** A step that appends one message for the watches it changes. */
  lemma WireGrows(s: State, t: State, m: Message)
    requires Inv(s) && AllLegal(s.log, s.store, s.watches, m, t.watches)
    requires t == s.(wire := s.wire + [m], requests := t.requests, watches := t.watches)
    requires !m.Created? ==>
      && t.requests == s.requests && (m.Broadcasted? || s.watches != map[])
      && (s.watches == map[] ==> t.watches == map[])
    requires m.Created? ==> s.requests != [] && t.requests == s.requests[1..] && (m.ok ==> m.id !in s.watches)
    requires m.Created? && m.ok ==>
      m.id in t.watches && t.watches[m.id] == Watch(s.requests[0].want, s.requests[0].rev, true)
    ensures Inv(t)
  {
    CreationsAppend(s.wire, m);
    forall id | id in t.client.substreams
      ensures Registered(t, id)
    {
      assert Registered(s, id);
      var w := s.client.watchers[s.client.substreams[id]];
      if Live(w) { FlowsAppend(s.log, s.store, w.due, id, s.wire, s.watches[id], m, t.watches[id]); }
    }
    if s.client.resuming != [] && s.client.resuming[0].Of? {
      var w := s.client.watchers[s.client.resuming[0].w];
      if s.requests == [] {
        AwaitsAppend(s.log, s.store, w.want, w.rev, s.wire, s.watches, m, t.watches);
      } else if m.Created? {
        AwaitsNew(t.log, t.store, w.want, w.rev, s.wire, m, t.watches);
      }
    }
    assert FlightOk(t);
    if s.got > 0 { assert t.wire[0] == s.wire[0]; }
    else if s.client.cur.Partly? { CreatedFirstAppend(s.wire, m); }
  }

  lemma {:induction false} AwaitsNew(log: seq<Event>, store: nat, want: Interest, pos: nat, wire: seq<Message>,
      m: Message, watches: map<nat, Watch>)
    requires Creations(wire) == 0 && m.Created?
    requires m.ok ==> m.id in watches && watches[m.id] == Watch(want, pos, true)
    ensures Awaits(log, store, want, pos, wire + [m], watches)
  {
    if wire == [] {
      assert wire + [m] == [m] && [m][1..] == [];
    } else {
      AwaitsNew(log, store, want, pos, wire[1..], m, watches);
      assert (wire + [m])[1..] == wire[1..] + [m];
    }
  }

  lemma AnswerKeeps(s: State, step: Step)
    requires Inv(s) && Enabled(s, step) && step.AnswerCreate?
    ensures Inv(Next(s, step))
  {
    var t := Next(s, step);
    hide WatcherOk, Registered, Awaits, Flows, SlotsOk, FlightOk, CurrentOk, Matching, BatchFrom, Honest, LastRev;
    var m := t.wire[|s.wire|];
    assert t.wire == s.wire + [m];
    WireGrows(s, t, m);
  }

  lemma SendKeeps(s: State, step: Step)
    requires Inv(s) && Enabled(s, step) && (step.SendBatch? || step.SendProgress?)
    ensures Inv(Next(s, step))
  {
    var t := Next(s, step);
    hide WatcherOk, Registered, Awaits, Flows, SlotsOk, FlightOk, CurrentOk, Matching, BatchFrom, Honest, LastRev;
    var m := t.wire[|s.wire|];
    assert t.wire == s.wire + [m];
    WireGrows(s, t, m);
  }

  lemma SendAllKeeps(s: State, step: Step)
    requires Inv(s) && Enabled(s, step) && step.SendBroadcast?
    ensures Inv(Next(s, step))
  {
    var t := Next(s, step);
    hide WatcherOk, Registered, Awaits, Flows, SlotsOk, FlightOk, CurrentOk, Matching, BatchFrom, Honest, LastRev;
    var m := t.wire[|s.wire|];
    assert t.wire == s.wire + [m];
    WireGrows(s, t, m);
  }

  lemma EndKeeps(s: State, step: Step)
    requires Inv(s) && Enabled(s, step) && (step.CancelWatch? || step.CompactWatch?)
    ensures Inv(Next(s, step))
  {
    var t := Next(s, step);
    hide WatcherOk, Registered, Awaits, Flows, SlotsOk, FlightOk, CurrentOk, Matching, BatchFrom, Honest, LastRev;
    var m := t.wire[|s.wire|];
    assert t.wire == s.wire + [m];
    WireGrows(s, t, m);
  }

  lemma StretchGrows(log: seq<Event>, store: nat, events: seq<Event>, want: Interest, from: nat, upto: nat)
    requires Settled(store, from, upto) && forall i :: 0 <= i < |events| ==> events[i].rev == store + 1
    ensures Matching(log + events, want, from, upto) == Matching(log, want, from, upto)
  {
    if upto <= store + 1 {
      MatchingGrows(log, events, want, from, upto);
    } else {
      MatchingNone(log, want, from, upto);
      MatchingNone(log + events, want, from, upto);
    }
  }

  lemma {:induction false} DeliveredGrows(log: seq<Event>, store: nat, events: seq<Event>, want: Interest, start: nat,
      rewinds: seq<Rewind>, upto: nat)
    requires SettledAll(store, start, rewinds, upto) && forall i :: 0 <= i < |events| ==> events[i].rev == store + 1
    ensures SettledAll(store + 1, start, rewinds, upto)
    ensures Delivered(log + events, want, start, rewinds, upto) == Delivered(log, want, start, rewinds, upto)
    decreases |rewinds|
  {
    if rewinds == [] {
      StretchGrows(log, store, events, want, start, upto);
    } else {
      var last := |rewinds| - 1;
      DeliveredGrows(log, store, events, want, start, rewinds[..last], rewinds[last].due);
      StretchGrows(log, store, events, want, rewinds[last].rev, upto);
    }
  }

  lemma ExactGrows(log: seq<Event>, store: nat, events: seq<Event>, w: Watcher, rewinds: seq<Rewind>, upto: nat)
    requires ExactTo(log, store, w, rewinds, upto) && forall i :: 0 <= i < |events| ==> events[i].rev == store + 1
    ensures ExactTo(log + events, store + 1, w, rewinds, upto)
  {
    DeliveredGrows(log, store, events, w.want, w.start, rewinds, upto);
  }

  lemma WatcherGrows(log: seq<Event>, store: nat, events: seq<Event>, w: Watcher)
    requires WatcherOk(log, store, w) && forall i :: 0 <= i < |events| ==> events[i].rev == store + 1
    ensures WatcherOk(log + events, store + 1, w)
  {
    var rewinds, upto :| ExactTo(log, store, w, rewinds, upto);
    ExactGrows(log, store, events, w, rewinds, upto);
    if Live(w) { ExactGrows(log, store, events, w, w.rewinds, w.due); }
  }

  lemma RegisteredGrows(s: State, events: seq<Event>, id: int)
    requires Registered(s, id) && forall i :: 0 <= i < |events| ==> events[i].rev == s.store + 1
    ensures Registered(s.(log := s.log + events, store := s.store + 1), id)
  {
    var w := s.client.watchers[s.client.substreams[id]];
    if Live(w) { FlowsGrows(s.log, s.store, events, w.due, id, s.wire, s.watches[id]); }
  }

  lemma FlightGrows(s: State, events: seq<Event>)
    requires SlotsKnown(s.client) && FlightOk(s) && forall i :: 0 <= i < |events| ==> events[i].rev == s.store + 1
    ensures FlightOk(s.(log := s.log + events, store := s.store + 1))
  {
    hide Awaits, Creations;
    if s.client.resuming != [] && s.client.resuming[0].Of? && s.requests == [] {
      var w := s.client.watchers[s.client.resuming[0].w];
      AwaitsGrows(s.log, s.store, events, w.want, w.rev, s.wire, s.watches);
    }
  }

  lemma ChangeKeeps(s: State, events: seq<Event>)
    requires Inv(s) && Enabled(s, Change(events))
    ensures Inv(Next(s, Change(events)))
  {
    var t := Next(s, Change(events));
    assert Ordered(t.log, t.store) && t == s.(log := s.log + events, store := s.store + 1);
    FlightGrows(s, events);
    assert CurrentOk(t);
    hide WatcherOk, Registered, CurrentOk, FlightOk, SlotsOk, Ordered, Next, Enabled;
    forall w | w in t.client.watchers
      ensures WatcherOk(t.log, t.store, t.client.watchers[w])
    {
      WatcherGrows(s.log, s.store, events, s.client.watchers[w]);
    }
    forall id | id in t.client.substreams
      ensures Registered(t, id)
    {
      RegisteredGrows(s, events, id);
    }
  }

  // ----- the subscriber's steps -----

  lemma NewWatcherOk(log: seq<Event>, store: nat, want: Interest, start: nat)
    ensures WatcherOk(log, store, Watcher(want, start, start, start, [], [], [], INVALID_WATCH_ID, false))
  {
    MatchingNone(log, want, start, start);
    assert ExactTo(log, store, Watcher(want, start, start, start, [], [], [], INVALID_WATCH_ID, false), [], start);
  }

  lemma NewWatchKeeps(s: State, step: Step)
    requires Inv(s) && Enabled(s, step) && step.NewWatch?
    ensures Inv(Next(s, step))
  {
    hide WatcherOk, Flows, Live, Awaits, CreatedFirst, Matching;
    var t := Next(s, step);
    NewWatcherOk(s.log, s.store, step.want, step.start);
    assert SlotsOk(t.client);
    assert FlightOk(t);
    hide Creations, SlotsOk, FlightOk;
    forall id | id in t.client.substreams
      ensures Registered(t, id)
    {
      assert Registered(s, id);
    }
  }

  lemma PublishKeepsWatcher(log: seq<Event>, store: nat, w: Watcher)
    requires Ordered(log, store) && WatcherOk(log, store, w) && !w.finished && w.buf != []
    ensures WatcherOk(log, store, w.(sent := w.sent + w.buf[0].events, buf := w.buf[1..], finished := w.buf[0].failed))
    ensures Live(w.(sent := w.sent + w.buf[0].events, buf := w.buf[1..], finished := w.buf[0].failed)) ==> Live(w)
  {
    var v := w.(sent := w.sent + w.buf[0].events, buf := w.buf[1..], finished := w.buf[0].failed);
    var rewinds, upto :| ExactTo(log, store, w, rewinds, upto);
    assert ExactTo(log, store, v, rewinds, upto);
    if Live(v) {
      assert Live(w) by {
        forall i | 0 <= i < |w.buf|
          ensures !w.buf[i].failed
        {
          assert i > 0 ==> w.buf[i] == v.buf[i - 1];
        }
      }
      assert ExactTo(log, store, v, v.rewinds, v.due);
    }
    forall i | 0 <= i < |v.buf| && v.buf[i].failed
      ensures v.buf[i].events == []
    {
      assert v.buf[i] == w.buf[i + 1];
    }
  }

  lemma FinishKeepsWatcher(log: seq<Event>, store: nat, w: Watcher)
    requires WatcherOk(log, store, w)
    ensures WatcherOk(log, store, w.(finished := true))
  {
    var rewinds, upto :| ExactTo(log, store, w, rewinds, upto);
    assert ExactTo(log, store, w.(finished := true), rewinds, upto);
  }

  /** A watcher may change what its subscriber holds, as long as it asks for the same. */
  lemma OneWatcherMoves(s: State, t: State, w: nat, moved: Watcher)
    requires Inv(s) && w in s.client.watchers && t == s.(client := s.client.(watchers := s.client.watchers[w := moved]))
    requires WatcherOk(s.log, s.store, moved)
    requires var was := s.client.watchers[w];
      moved.want == was.want && moved.rev == was.rev && moved.due == was.due && moved.id == was.id &&
        (Live(moved) ==> Live(was))
    ensures Inv(t)
  {
    forall id | id in t.client.substreams
      ensures Registered(t, id)
    {
      assert Registered(s, id);
    }
  }

  lemma SubscriberKeeps(s: State, step: Step)
    requires Inv(s) && Enabled(s, step) && (step.Publish? || step.Finish?)
    ensures Inv(Next(s, step))
  {
    var w := s.client.watchers[step.w];
    var t := Next(s, step);
    assert WatcherOk(s.log, s.store, w);
    if step.Publish? { PublishKeepsWatcher(s.log, s.store, w); } else { FinishKeepsWatcher(s.log, s.store, w); }
    OneWatcherMoves(s, t, step.w, t.client.watchers[step.w]);
  }

  /** A watcher that is closed is neither served nor resuming any more, and nobody else
      loses a place, unless it is closed a second time after its id was given away. */
  lemma ClosedIsGone(s: State, w: nat)
    requires Inv(s) && Enabled(s, Reap(w))
    ensures var c, d := s.client, Next(s, Reap(w)).client;
      && w !in Serving(d) && Of(w) !in d.resuming && d.watchers == c.watchers
      && |d.resuming| == |c.resuming|
      && (forall i :: 0 <= i < |c.resuming| && c.resuming[i] != Of(w) ==> d.resuming[i] == c.resuming[i])
      && (c.watchers[w].id == -1 || w in Serving(c) ==>
            forall id :: id in c.substreams && c.substreams[id] != w ==>
              id in d.substreams && d.substreams[id] == c.substreams[id])
  {
    var c, d := s.client, Next(s, Reap(w)).client;
    assert forall id :: id in c.substreams ==> Registered(s, id);
    ClearedOnce(c.resuming, w);
    forall id | id in c.substreams && c.substreams[id] == w
      ensures id !in d.substreams
    {
      assert c.watchers[w].id == id;
    }
    hide WatcherOk, Flows, Awaits;
  }

  lemma {:induction false} ClearedOnce(slots: seq<Slot>, w: nat)
    requires Distinct(slots)
    ensures Of(w) !in Cleared(slots, w)
  {
    if slots != [] && slots[0] != Of(w) {
      assert Distinct(slots[1..]);
      ClearedOnce(slots[1..], w);
    }
  }

  /** Nothing reaches a watcher that has ended. */
  lemma EndedHearsNothing(s: State, w: nat, r: Response)
    requires Enabled(s, Finish(w)) && SlotsKnown(s.client)
    ensures var before, after := s.client.watchers[w], Next(s, Finish(w)).client.watchers[w];
      Accept(after, r) == after == before.(finished := true)
  {
  }

  lemma ReapKeeps(s: State, step: Step)
    requires Inv(s) && Enabled(s, step) && step.Reap?
    ensures Inv(Next(s, step))
  {
    var t := Next(s, step);
    hide WatcherOk, Awaits, Flows, Live, Cleared;
    forall id | id in t.client.substreams
      ensures Registered(t, id)
    {
      assert Registered(s, id);
    }
    ClearedKeeps(s.client, step.w);
    assert FlightOk(t);
    hide Registered, SlotsOk;
  }

  lemma ClearedKeeps(c: Client, w: nat)
    requires SlotsOk(c)
    ensures SlotsOk(c.(resuming := Cleared(c.resuming, w)))
    ensures Cleared(c.resuming, w) == [] <==> c.resuming == []
  {
    hide Cleared;
  }

  // ----- reconnecting -----

  lemma {:induction false} StrippedDistinct(slots: seq<Slot>)
    requires Distinct(slots)
    ensures Distinct(Stripped(slots))
    ensures forall i :: 0 <= i < |Stripped(slots)| ==> Stripped(slots)[i].Of?
  {
    if slots != [] {
      StrippedDistinct(slots[1..]);
      assert Distinct(slots[1..]);
      var tail := Stripped(slots[1..]);
      forall i | 0 <= i < |tail| && slots[0].Of?
        ensures tail[i].w != slots[0].w
      {
        assert tail[i] in tail;
        var j :| 0 <= j < |slots[1..]| && slots[1..][j] == tail[i];
        assert slots[j + 1] == tail[i];
      }
    }
  }

  lemma RegisteredHasId(s: State, w: nat)
    requires SubstreamsOk(s) && w in Serving(s.client)
    ensures w in s.client.watchers && s.client.watchers[w].id != INVALID_WATCH_ID
  {
    var id :| id in s.client.substreams && s.client.substreams[id] == w;
    assert Registered(s, id);
  }

  lemma AllDistinct(s: State, order: seq<Slot>)
    requires SubstreamsOk(s) && SlotsOk(s.client) && Enabled(s, Reconnect(order))
    ensures Distinct(s.client.resuming + order)
  {
    var n := |s.client.resuming|;
    var all := s.client.resuming + order;
    forall i, j | 0 <= i < j < |all| && all[i].Of? && all[j].Of?
      ensures all[i].w != all[j].w
    {
      if i < n <= j {
        assert all[j] == order[j - n];
        assert all[j] in order;
        RegisteredHasId(s, all[j].w);
        assert all[i] == s.client.resuming[i];
      } else if i >= n {
        assert order[i - n] == all[i] && order[j - n] == all[j];
      }
    }
  }

  lemma SlotsReset(s: State, order: seq<Slot>)
    requires SubstreamsOk(s) && SlotsOk(s.client) && Enabled(s, Reconnect(order))
    ensures SlotsOk(OnReconnect(s.client, order))
  {
    var all := s.client.resuming + order;
    var c := OnReconnect(s.client, order);
    AllDistinct(s, order);
    StrippedDistinct(all);
    forall i | 0 <= i < |c.resuming| && c.resuming[i].Of?
      ensures c.resuming[i].w in c.watchers && c.watchers[c.resuming[i].w].id == INVALID_WATCH_ID
    {
      var slot := c.resuming[i];
      assert slot in c.resuming && slot in all;
      if slot in order {
        RegisteredHasId(s, slot.w);
      } else {
        var k :| 0 <= k < |s.client.resuming| && s.client.resuming[k] == slot;
      }
    }
  }

  lemma WatchersReset(s: State, order: seq<Slot>)
    requires WatchersOk(s)
    ensures WatchersOk(s.(client := OnReconnect(s.client, order)))
  {
    hide WatcherOk;
    forall w | w in s.client.watchers
      ensures WatcherOk(s.log, s.store, OnReconnect(s.client, order).watchers[w])
    {
      DetachedKeeps(s.log, s.store, s.client.watchers[w]);
    }
  }

  lemma ReconnectKeeps(s: State, step: Step)
    requires Inv(s) && Enabled(s, step) && step.Reconnect?
    ensures Inv(Next(s, step))
  {
    var t := Next(s, step);
    WatchersReset(s, step.order);
    SlotsReset(s, step.order);
    StrippedHead(s.client.resuming + step.order);
    assert t.client == OnReconnect(s.client, step.order);
    assert CurrentOk(t);
    hide WatcherOk, Stripped, Awaits, CurrentOk, SlotsOk;
  }

  lemma StrippedHead(slots: seq<Slot>)
    ensures Stripped(slots) != [] ==> Stripped(slots)[0].Of?
  {
    if Stripped(slots) != [] { assert Stripped(slots)[0] in Stripped(slots); }
  }

  lemma ExactSooner(log: seq<Event>, store: nat, w: Watcher, v: Watcher)
    requires WatcherOk(log, store, w) && w.rewinds <= v.rewinds
    requires v == w.(id := v.id, due := v.due, rewinds := v.rewinds)
    ensures exists rewinds, upto :: ExactTo(log, store, v, rewinds, upto)
  {
    hide Kept, Delivered, SettledAll;
    var rewinds, upto :| ExactTo(log, store, w, rewinds, upto);
    assert ExactTo(log, store, v, rewinds, upto);
  }

  lemma OneMoreStretch(log: seq<Event>, store: nat, w: Watcher, v: Watcher)
    requires ExactTo(log, store, w, w.rewinds, w.due)
    requires v == w.(id := v.id, due := w.rev, rewinds := w.rewinds + [Rewind(w.rev, w.due)])
    ensures ExactTo(log, store, v, v.rewinds, v.due)
  {
    hide Kept, Matching;
    assert v.rewinds[..|w.rewinds|] == w.rewinds;
    MatchingNone(log, w.want, w.rev, w.rev);
  }

  /** Going back begins another stretch of the history. */
  lemma DetachedKeeps(log: seq<Event>, store: nat, w: Watcher)
    requires WatcherOk(log, store, w)
    ensures WatcherOk(log, store, Detached(w))
  {
    hide Kept, Matching, Delivered, SettledAll;
    var v := Detached(w);
    assert w.rewinds <= v.rewinds;
    ExactSooner(log, store, w, v);
    if Live(w) && w.rev < w.due { OneMoreStretch(log, store, w, v); }
    assert Live(v) && w.rev == w.due ==> ExactTo(log, store, v, v.rewinds, v.due);
    hide ExactTo;
  }

  // ----- receiving -----

  lemma DeliveredMore(log: seq<Event>, want: Interest, store: nat, start: nat, rewinds: seq<Rewind>, due: nat,
      upto: nat)
    requires Ordered(log, store) && SettledAll(store, start, rewinds, due) && due <= upto &&
      (upto <= store + 1 || upto == due)
    ensures SettledAll(store, start, rewinds, upto)
    ensures Delivered(log, want, start, rewinds, upto) == Delivered(log, want, start, rewinds, due)
      + Matching(log, want, due, upto)
  {
    hide Matching, Ordered;
    MatchingSplit(log, want, store, if rewinds == [] then start else rewinds[|rewinds| - 1].rev, due, upto);
  }

  /** A response whose events are just those the watcher lacks up to where it gets. */
  lemma AcceptKeeps(log: seq<Event>, store: nat, w: Watcher, r: Response)
    requires Ordered(log, store) && WatcherOk(log, store, w) && Live(w) && !r.created
    requires !r.canceled && r.compact == 0
    requires Accept(w, r).due <= store + 1 || Accept(w, r).due == w.due
    requires r.events == Matching(log, w.want, w.due, Accept(w, r).due)
    ensures WatcherOk(log, store, Accept(w, r)) && Live(Accept(w, r))
  {
    hide Matching, Kept, Ordered;
    var v := Accept(w, r);
    KeptAppend(w.buf, Delivery(r.events, false));
    DeliveredMore(log, w.want, store, w.start, w.rewinds, w.due, v.due);
    assert Unfailed(v.buf);
    assert ExactTo(log, store, v, v.rewinds, v.due);
  }

  /** Nothing that comes after a failure reaches the subscriber. */
  lemma AcceptDeadKeeps(log: seq<Event>, store: nat, w: Watcher, r: Response)
    requires WatcherOk(log, store, w) && !r.created
    requires !Live(w) || ((r.canceled || r.compact != 0) && r.events == [])
    requires r.canceled || r.compact != 0 ==> r.events == []
    ensures WatcherOk(log, store, Accept(w, r)) && !Live(Accept(w, r))
  {
    if !w.finished {
      var d := Delivery(r.events, r.canceled || r.compact != 0);
      var v := Accept(w, r);
      KeptAppend(w.buf, d);
      var rewinds, upto :| ExactTo(log, store, w, rewinds, upto);
      assert ExactTo(log, store, v, rewinds, upto);
      if Live(w) {
        assert v.buf[|w.buf|] == d;
      } else {
        var i :| 0 <= i < |w.buf| && w.buf[i].failed;
        assert v.buf[i] == w.buf[i];
      }
    }
  }

  /** What is left on the wire after its first message serves a watcher. */
  ghost predicate Served(s: State, id: int, w: Watcher)
    requires id in s.watches && s.wire != []
  {
    Live(w) ==> Flows(s.log, s.store, w.due, id, s.wire[1..], s.watches[id])
  }

  /** The message at the head of the wire is gone, and watchers have moved accordingly. */
  lemma MessageGone(s: State, t: State)
    requires Inv(s) && s.wire != [] && !s.wire[0].Created?
    requires t == s.(wire := s.wire[1..], got := 0, client := t.client)
    requires t.client == s.client.(watchers := t.client.watchers, cur := t.client.cur)
    requires t.client.watchers.Keys == s.client.watchers.Keys
    requires forall w :: w in s.client.watchers ==>
      && WatcherOk(s.log, s.store, t.client.watchers[w])
      && t.client.watchers[w].want == s.client.watchers[w].want && t.client.watchers[w].id == s.client.watchers[w].id
    requires forall w :: w in s.client.watchers && s.client.watchers[w].id == INVALID_WATCH_ID ==>
      t.client.watchers[w] == s.client.watchers[w]
    requires forall id ::
      id in s.client.substreams && s.client.substreams[id] in s.client.watchers && id in s.watches ==>
        Served(s, id, t.client.watchers[s.client.substreams[id]])
    requires t.client.cur.NoResponse? || (s.wire[0].Broadcasted? && s.got == 0 && t.client.cur == s.client.cur)
    ensures Inv(t)
  {
    hide WatcherOk, Flows, Ordered, Live;
    forall id | id in t.client.substreams
      ensures Registered(t, id)
    {
      assert Registered(s, id);
    }
    hide Registered;
    assert SlotsOk(t.client);
    assert FlightOk(t);
  }

  /** The response a step of the run loop works on: the head of the wire, whole. */
  lemma WholeResponse(s: State)
    requires CurrentOk(s) && s.wire != [] && (s.wire[0].Batch? ==> s.got < |s.wire[0].parts|)
    requires s.wire[0].Batch? || s.wire[0].Progress? || s.wire[0].Compacted?
    ensures var r := Merged(s.client.cur, Raw(s.wire[0], s.got));
      match s.wire[0]
      case Batch(id, h, parts) =>
        r == Response(id, h, Flat(parts[..s.got + 1]), false, false, 0, s.got + 1 < |parts|)
      case _ => r == Raw(s.wire[0], s.got)
  {
    if s.wire[0].Batch? {
      var parts := s.wire[0].parts;
      assert parts[..s.got + 1][..s.got] == parts[..s.got];
      if s.got == 0 { assert Flat(parts[..0]) == []; }
    }
  }

  lemma PartKeeps(s: State)
    requires Inv(s) && s.wire != [] && s.wire[0].Batch? && s.got + 1 < |s.wire[0].parts|
    ensures Inv(Next(s, Receive))
  {
    WholeResponse(s);
    var t := Next(s, Receive);
    hide WatcherOk, Flows, Awaits, Flat, Merged;
    forall id | id in t.client.substreams
      ensures Registered(t, id)
    {
      assert Registered(s, id);
    }
  }

  /** A response for one substream: what it means for the watcher under its id. */
  lemma UnicastServes(s: State, r: Response, id: int)
    requires Ordered(s.log, s.store) && WatchersOk(s) && s.wire != [] && Registered(s, id)
    requires s.wire[0].Batch? || s.wire[0].Progress? || s.wire[0].Compacted?
    requires r == match s.wire[0]
      case Batch(i, h, parts) => Response(i, h, Flat(parts), false, false, 0, false)
      case _ => Raw(s.wire[0], 0)
    ensures var w := s.client.watchers[s.client.substreams[id]];
      var v := if id == r.id then Accept(w, r) else w;
      WatcherOk(s.log, s.store, v) && Served(s, id, v)
  {
    hide WatcherOk, Matching, Flat, Kept;
    var w := s.client.watchers[s.client.substreams[id]];
    assert WatcherOk(s.log, s.store, w);
    if id == r.id {
      if Live(w) && !s.wire[0].Compacted? {
        MatchingNone(s.log, w.want, w.due, w.due);
        AcceptKeeps(s.log, s.store, w, r);
      } else {
        AcceptDeadKeeps(s.log, s.store, w, r);
      }
    }
  }

  lemma UnicastKeeps(s: State)
    requires Inv(s) && Enabled(s, Receive)
    requires s.wire[0].Batch? || s.wire[0].Progress? || (s.wire[0].Compacted? && s.wire[0].compact != 0)
    requires s.wire[0].Batch? ==> s.got + 1 == |s.wire[0].parts|
    ensures Inv(Next(s, Receive))
  {
    WholeResponse(s);
    var t := Next(s, Receive);
    var r := Merged(s.client.cur, Raw(s.wire[0], s.got));
    if s.wire[0].Batch? { assert s.wire[0].parts[..s.got + 1] == s.wire[0].parts; }
    assert t.client == Unicast(s.client, r).(cur := NoResponse);
    hide WatcherOk, Flows, Awaits, Flat, Accept, Merged, Served, Matching;
    UnicastAll(s, t, r);
    MessageGone(s, t);
  }

  lemma UnicastAll(s: State, t: State, r: Response)
    requires Ordered(s.log, s.store) && WatchersOk(s) && SubstreamsOk(s)
    requires s.wire != [] && t.client == Unicast(s.client, r).(cur := NoResponse)
    requires s.wire[0].Batch? || s.wire[0].Progress? || s.wire[0].Compacted?
    requires r == match s.wire[0]
      case Batch(i, h, parts) => Response(i, h, Flat(parts), false, false, 0, false)
      case _ => Raw(s.wire[0], 0)
    ensures forall w :: w in s.client.watchers ==>
      w in t.client.watchers && WatcherOk(s.log, s.store, t.client.watchers[w])
    ensures forall id ::
      id in s.client.substreams && s.client.substreams[id] in t.client.watchers && id in s.watches ==>
        Served(s, id, t.client.watchers[s.client.substreams[id]])
    ensures t.client.watchers.Keys == s.client.watchers.Keys
    ensures forall w :: w in s.client.watchers ==>
      t.client.watchers[w].want == s.client.watchers[w].want && t.client.watchers[w].id == s.client.watchers[w].id
    ensures forall w :: w in s.client.watchers && s.client.watchers[w].id == INVALID_WATCH_ID ==>
      t.client.watchers[w] == s.client.watchers[w]
  {
    hide WatcherOk, Flows, Flat, Served, Live, Ordered;
    if r.id in s.client.substreams {
      assert Registered(s, r.id);
      UnicastServes(s, r, r.id);
      AcceptSame(s.client.watchers[s.client.substreams[r.id]], r);
    }
    hide Accept;
    forall id | id in s.client.substreams
      ensures s.client.substreams[id] in t.client.watchers && id in s.watches &&
        Served(s, id, t.client.watchers[s.client.substreams[id]])
    {
      UnicastOne(s, t, r, id);
    }
    hide Registered, SubstreamsOk;
  }

  lemma UnicastOne(s: State, t: State, r: Response, id: int)
    requires Ordered(s.log, s.store) && WatchersOk(s) && SubstreamsOk(s) && s.wire != []
    requires t.client == Unicast(s.client, r).(cur := NoResponse) && id in s.client.substreams
    requires s.wire[0].Batch? || s.wire[0].Progress? || s.wire[0].Compacted?
    requires r == match s.wire[0]
      case Batch(i, h, parts) => Response(i, h, Flat(parts), false, false, 0, false)
      case _ => Raw(s.wire[0], 0)
    ensures s.client.substreams[id] in t.client.watchers && id in s.watches
    ensures Served(s, id, t.client.watchers[s.client.substreams[id]])
  {
    assert Registered(s, id);
    UnicastServes(s, r, id);
    assert id != r.id && r.id in s.client.substreams ==> Registered(s, r.id);
    hide WatcherOk, Flows, Flat, Accept, Served, Live, Ordered, SubstreamsOk, WatchersOk;
  }

  lemma BroadcastServes(s: State, id: int)
    requires Inv(s) && s.wire != [] && s.wire[0].Broadcasted? && Registered(s, id)
    ensures var w := s.client.watchers[s.client.substreams[id]];
      && WatcherOk(s.log, s.store, Accept(w, Raw(s.wire[0], 0))) && Served(s, id, Accept(w, Raw(s.wire[0], 0)))
      && (s.wire[0].header == 0 ==> Served(s, id, w))
  {
    var w := s.client.watchers[s.client.substreams[id]];
    assert WatcherOk(s.log, s.store, w);
    if Live(w) {
      MatchingNone(s.log, w.want, w.due, w.due);
      AcceptKeeps(s.log, s.store, w, Raw(s.wire[0], 0));
    } else {
      AcceptDeadKeeps(s.log, s.store, w, Raw(s.wire[0], 0));
    }
  }

  /** Only a pure progress notification without a watch goes to everybody who is served;
      any other response reaches the one watcher registered under its id. */
  lemma DispatchReaches(c: Client, r: Response, w: nat)
    requires w in c.watchers
    ensures var pure := r.events == [] && !r.created && !r.canceled && r.compact == 0 && r.header != 0;
      DispatchEvent(c, r).watchers.Keys == c.watchers.Keys && DispatchEvent(c, r).watchers[w] ==
        if r.id == -1 && pure then
          if exists id :: id in c.substreams && c.substreams[id] == w then Accept(c.watchers[w], r) else c.watchers[w]
        else
          if r.id in c.substreams && c.substreams[r.id] == w then Accept(c.watchers[w], r) else c.watchers[w]
  {
    assert w in Serving(c) <==> exists id :: id in c.substreams && c.substreams[id] == w;
    hide Accept;
  }

  /** A creation that the server refused ends the watcher; any other one registers it. */
  lemma AddedOrEnded(c: Client, r: Response, w: nat)
    requires w in c.watchers
    ensures var d := AddSubstream(c, r, w);
      if r.id == -1 || r.canceled then
        d.substreams == c.substreams && d.watchers == c.watchers[w := c.watchers[w].(finished := true)]
      else
        && d.substreams == c.substreams[r.id := w]
        && d.watchers == c.watchers[w := c.watchers[w].(id := r.id)]
  {
  }

  /** Creations and cancellations are never put together with what came before. */
  lemma NeverMerged(cur: CurrentResponse, r: Response)
    requires r.created || r.canceled
    ensures Merged(cur, r) == r
  {
  }

  lemma BroadcastKeeps(s: State)
    requires Inv(s) && Enabled(s, Receive) && s.wire[0].Broadcasted?
    ensures Inv(Next(s, Receive))
  {
    var t := Next(s, Receive);
    var r := Raw(s.wire[0], 0);
    if s.client.cur.Partly? {
      assert s.got == 0;
      assert t.client == s.client;
    } else {
      assert t.client == (if s.wire[0].header != 0 then Broadcast(s.client, r)
        else Unicast(s.client, r)).(cur := NoResponse);
      IdsValid(s);
    }
    hide WatcherOk, Flows, Awaits, Accept, Served;
    forall id | id in s.client.substreams
      ensures s.client.substreams[id] in t.client.watchers && id in s.watches &&
        Served(s, id, t.client.watchers[s.client.substreams[id]])
    {
      assert Registered(s, id);
      BroadcastServes(s, id);
      assert s.client.substreams[id] in Serving(s.client);
    }
    forall w | w in s.client.watchers
      ensures WatcherOk(s.log, s.store, t.client.watchers[w])
      ensures t.client.watchers[w].want == s.client.watchers[w].want &&
        t.client.watchers[w].id == s.client.watchers[w].id
      ensures s.client.watchers[w].id == INVALID_WATCH_ID ==> t.client.watchers[w] == s.client.watchers[w]
    {
      if w in Serving(s.client) {
        RegisteredHasId(s, w);
        var id :| id in s.client.substreams && s.client.substreams[id] == w;
        BroadcastServes(s, id);
        AcceptSame(s.client.watchers[w], r);
      }
    }
    MessageGone(s, t);
  }

  lemma AcceptSame(w: Watcher, r: Response)
    ensures Accept(w, r).want == w.want && Accept(w, r).id == w.id && Accept(w, r).start == w.start
  {
  }

  lemma IdsValid(s: State)
    requires SubstreamsOk(s)
    ensures INVALID_WATCH_ID !in s.client.substreams
  {
    forall id | id in s.client.substreams
      ensures id >= 0
    {
      assert Registered(s, id);
    }
  }

  lemma CanceledServes(s: State, id: int)
    requires WatchersOk(s) && s.wire != [] && Registered(s, id)
    requires s.wire[0].Canceled? || s.wire[0].Compacted?
    ensures var w := s.client.watchers[s.client.substreams[id]];
      var v := if id == s.wire[0].id then w.(finished := true) else w;
      WatcherOk(s.log, s.store, v) && Served(s, id, v)
  {
    var w := s.client.watchers[s.client.substreams[id]];
    assert WatcherOk(s.log, s.store, w);
    FinishKeepsWatcher(s.log, s.store, w);
  }

  lemma CanceledAll(s: State, t: State)
    requires WatchersOk(s) && SubstreamsOk(s) && s.wire != [] && (s.wire[0].Canceled? || s.wire[0].Compacted?)
    requires t.client == OnCanceled(s.client, Raw(s.wire[0], 0))
    ensures t.client.watchers.Keys == s.client.watchers.Keys
    ensures forall w :: w in s.client.watchers ==>
      && WatcherOk(s.log, s.store, t.client.watchers[w])
      && (s.client.watchers[w].id == INVALID_WATCH_ID ==> t.client.watchers[w] == s.client.watchers[w])
    ensures forall id ::
      id in s.client.substreams && s.client.substreams[id] in t.client.watchers && id in s.watches ==>
        Served(s, id, t.client.watchers[s.client.substreams[id]])
  {
    var i := s.wire[0].id;
    hide WatcherOk, Flows, Served, Live;
    forall id | id in s.client.substreams
      ensures s.client.substreams[id] in t.client.watchers && id in s.watches &&
        Served(s, id, t.client.watchers[s.client.substreams[id]])
    {
      assert Registered(s, id);
      CanceledServes(s, id);
      assert id != i && i in s.client.substreams ==> Registered(s, i);
    }
    if i in s.client.substreams {
      assert Registered(s, i);
      CanceledServes(s, i);
    }
  }

  lemma CanceledKeeps(s: State)
    requires Inv(s) && Enabled(s, Receive)
    requires s.wire[0].Canceled? || (s.wire[0].Compacted? && s.wire[0].compact == 0)
    ensures Inv(Next(s, Receive))
  {
    var t := Next(s, Receive);
    assert t.client == OnCanceled(s.client, Raw(s.wire[0], 0));
    hide WatcherOk, Awaits, Accept, Flows, Served;
    CanceledAll(s, t);
    MessageGone(s, t);
  }

  lemma {:induction false} NoneLeft(wire: seq<Message>)
    requires Creations(wire) == 0
    ensures forall i :: 0 <= i < |wire| ==> !wire[i].Created?
  {
    if wire != [] {
      NoneLeft(wire[1..]);
      forall i | 0 <= i < |wire|
        ensures !wire[i].Created?
      {
        assert i > 0 ==> wire[i] == wire[1..][i - 1];
      }
    }
  }

  lemma {:induction false} DropNobodyKeeps(c: Client)
    requires SlotsOk(c)
    ensures SlotsOk(c.(resuming := DropNobody(c.resuming)))
    decreases |c.resuming|
  {
    if c.resuming != [] && c.resuming[0].Nobody? {
      DropNobodyKeeps(c.(resuming := c.resuming[1..]));
    }
  }

  /** The client after the head of the queue has been registered, or turned away. */
  lemma Registers(s: State, m: Message, w: nat)
    requires Inv(s) && Enabled(s, Receive) && m == s.wire[0] && m.Created?
    requires s.client.resuming != [] && s.client.resuming[0] == Of(w)
    ensures var c := DispatchEvent(AddSubstream(s.client, Raw(m, 0), w), Raw(m, 0));
      c == if m.ok then
             s.client.(watchers := s.client.watchers[w := s.client.watchers[w].(id := m.id)],
                       substreams := s.client.substreams[m.id := w])
           else s.client.(watchers := s.client.watchers[w := s.client.watchers[w].(finished := true)])
  {
    if m.ok {
      var c := AddSubstream(s.client, Raw(m, 0), w);
      assert c.watchers[w := c.watchers[w]] == c.watchers;
    } else {
      IdsValid(s);
    }
  }

  lemma CreatedWatchers(s: State, t: State)
    requires Inv(s) && Enabled(s, Receive) && s.wire[0].Created? && !Panics(s, Receive) && t == Next(s, Receive)
    ensures WatchersOk(t)
  {
    var m := s.wire[0];
    var head := s.client.resuming[0];
    if head.Of? { Registers(s, m, head.w); }
    hide WatcherOk, Awaits, Flows, Registered, FlightOk;
    forall w | w in t.client.watchers
      ensures WatcherOk(t.log, t.store, t.client.watchers[w])
    {
      if head == Of(w) {
        if m.ok { IdMoves(s.log, s.store, s.client.watchers[w], m.id); }
        else { FinishKeepsWatcher(s.log, s.store, s.client.watchers[w]); }
      }
    }
  }

  lemma CreatedSubstreams(s: State, t: State)
    requires Inv(s) && Enabled(s, Receive) && s.wire[0].Created? && !Panics(s, Receive) && t == Next(s, Receive)
    ensures SubstreamsOk(t)
  {
    var m := s.wire[0];
    var head := s.client.resuming[0];
    if head.Of? { Registers(s, m, head.w); }
    hide WatcherOk;
    assert t.client.substreams == if head.Of? && m.ok then s.client.substreams[m.id := head.w] else s.client.substreams;
    forall id | id in t.client.substreams
      ensures Registered(t, id)
    {
      if !(head.Of? && m.ok && id == m.id) { assert Registered(s, id); }
    }
  }

  lemma HeadCleared(c: Client, d: Client)
    requires SlotsOk(c) && c.resuming != [] && d.resuming == c.resuming[0 := Nobody]
    requires c.watchers.Keys <= d.watchers.Keys
    requires forall w :: w in c.watchers && c.resuming[0] != Of(w) ==> d.watchers[w] == c.watchers[w]
    ensures SlotsOk(d)
  {
    forall i | 0 < i < |d.resuming| && d.resuming[i].Of?
      ensures d.watchers[d.resuming[i].w] == c.watchers[c.resuming[i].w]
    {
      assert c.resuming[i] == d.resuming[i];
    }
  }

  lemma CreatedSlots(s: State, t: State)
    requires Inv(s) && Enabled(s, Receive) && s.wire[0].Created? && !Panics(s, Receive) && t == Next(s, Receive)
    ensures SlotsOk(t.client) && t.client.resuming == DropNobody(s.client.resuming[0 := Nobody])
  {
    var m := s.wire[0];
    var head := s.client.resuming[0];
    if head.Of? { Registers(s, m, head.w); }
    var shifted := t.client.(resuming := s.client.resuming[0 := Nobody]);
    assert t.client.resuming == DropNobody(shifted.resuming);
    hide Inv, Enabled, Next, DispatchEvent, AddSubstream;
    HeadCleared(s.client, shifted);
    DropNobodyKeeps(shifted);
  }

  lemma CreatedFlight(s: State, t: State)
    requires Inv(s) && Enabled(s, Receive) && s.wire[0].Created? && !Panics(s, Receive) && t == Next(s, Receive)
    requires SlotsOk(t.client) && t.client.resuming == DropNobody(s.client.resuming[0 := Nobody])
    ensures FlightOk(t) && CurrentOk(t)
  {
    NoneLeft(s.wire[1..]);
    assert t.client.cur.NoResponse?;
    hide WatcherOk, Awaits, Flows, Registered, DispatchEvent, AddSubstream;
  }

  /** Somebody is waiting whenever a creation arrives, and it is the one who asked. */
  lemma CreatedKeeps(s: State)
    requires Inv(s) && Enabled(s, Receive) && s.wire[0].Created?
    ensures !Panics(s, Receive)
    ensures Inv(Next(s, Receive))
  {
    var t := Next(s, Receive);
    CreatedWatchers(s, t);
    CreatedSubstreams(s, t);
    CreatedSlots(s, t);
    CreatedFlight(s, t);
  }

  lemma IdMoves(log: seq<Event>, store: nat, w: Watcher, id: int)
    requires WatcherOk(log, store, w)
    ensures WatcherOk(log, store, w.(id := id))
  {
    var rewinds, upto :| ExactTo(log, store, w, rewinds, upto);
    assert ExactTo(log, store, w.(id := id), rewinds, upto);
  }

  // ----- runs -----

  lemma ReceiveKeeps(s: State)
    requires Inv(s) && Enabled(s, Receive)
    ensures !Panics(s, Receive)
    ensures Inv(Next(s, Receive))
  {
    hide Inv, WatcherOk;
    match s.wire[0]
    case Created(_, _) => CreatedKeeps(s);
    case Canceled(_) => CanceledKeeps(s);
    case Compacted(_, _, compact) => if compact == 0 { CanceledKeeps(s); } else { UnicastKeeps(s); }
    case Batch(_, _, parts) => if s.got + 1 < |parts| { PartKeeps(s); } else { UnicastKeeps(s); }
    case Progress(_, _) => UnicastKeeps(s);
    case Broadcasted(_) => BroadcastKeeps(s);
  }

  lemma StepKeeps(s: State, step: Step)
    requires Inv(s) && Enabled(s, step)
    ensures !Panics(s, step)
    ensures Inv(Next(s, step))
  {
    assert SlotsKnown(s.client);
    hide Inv, Enabled, Next, SlotsKnown;
    match step
    case NewWatch(_, _, _) => NewWatchKeeps(s, step);
    case Receive => ReceiveKeeps(s);
    case Publish(_) => SubscriberKeeps(s, step);
    case Finish(_) => SubscriberKeeps(s, step);
    case Reap(_) => ReapKeeps(s, step);
    case Reconnect(_) => ReconnectKeeps(s, step);
    case Change(events) => ChangeKeeps(s, events);
    case AnswerCreate(_, _) => AnswerKeeps(s, step);
    case SendBroadcast(_) => SendAllKeeps(s, step);
    case CancelWatch(_) => EndKeeps(s, step);
    case CompactWatch(_, _, _) => EndKeeps(s, step);
    case _ => SendKeeps(s, step);
  }

  ghost predicate Goes(s: State, step: Step, t: State) {
    Enabled(s, step) && !Panics(s, step) && SlotsKnown(s.client) && t == Next(s, step)
  }

  ghost predicate Start(s: State) {
    && s == State(Client(map[], map[], [], NoResponse), [], [], 0, map[], s.log, s.store)
    && Ordered(s.log, s.store)
  }

  ghost predicate Trace(start: State, steps: seq<Step>, states: seq<State>) {
    && |states| == |steps| + 1 && Start(start) && states[0] == start
    && forall i, j {:trigger Goes(states[i], steps[i], states[j])} ::
         0 <= i < |steps| && j == i + 1 ==> Goes(states[i], steps[i], states[j])
  }

  ghost predicate Run(start: State, steps: seq<Step>, s: State) {
    exists states :: Trace(start, steps, states) && states[|steps|] == s
  }

  lemma {:induction false} TraceKeeps(start: State, steps: seq<Step>, states: seq<State>, n: nat)
    requires Trace(start, steps, states) && n <= |steps|
    ensures Inv(states[n])
  {
    if n > 0 {
      TraceKeeps(start, steps, states, n - 1);
      assert Goes(states[n - 1], steps[n - 1], states[n]);
      StepKeeps(states[n - 1], steps[n - 1]);
    }
  }

  lemma RunKeeps(start: State, steps: seq<Step>, s: State)
    requires Run(start, steps, s)
    ensures Inv(s)
  {
    hide Inv, Goes;
    var states :| Trace(start, steps, states) && states[|steps|] == s;
    TraceKeeps(start, steps, states, |steps|);
  }

  // ----- the main results -----

  /** Everything a subscriber was sent, and what is waiting for it. */
  function Held(w: Watcher): seq<Event> {
    w.sent + Kept(w.buf)
  }

  /** In every run, whatever fails: a subscriber holds one stretch of the matching history
      after the other, each from the revision that was asked for to where it was served. */
  lemma HeldExactly(start: State, steps: seq<Step>, s: State, w: nat)
    requires Run(start, steps, s) && w in s.client.watchers
    ensures var watcher := s.client.watchers[w];
      watcher.rev <= watcher.due &&
      (Live(watcher) ==>
        Held(watcher) == Delivered(s.log, watcher.want, watcher.start, watcher.rewinds, watcher.due))
  {
    RunKeeps(start, steps, s);
    assert WatcherOk(s.log, s.store, s.client.watchers[w]);
  }

  /** At this reconnect the watcher asks again for revisions it has been served, or that lie
      before its start: a progress header that went back is the last thing it accepted. */
  ghost predicate Behind(s: State, w: nat) {
    w in s.client.watchers && w in Serving(s.client) && s.client.watchers[w].rev < s.client.watchers[w].due
  }

  ghost predicate NeverBehind(steps: seq<Step>, states: seq<State>, n: nat, w: nat)
    requires n <= |steps| && |states| == |steps| + 1
  {
    forall i :: 0 <= i < n && steps[i].Reconnect? ==> !Behind(states[i], w)
  }

  lemma DispatchRewinds(c: Client, r: Response, w: nat)
    requires w in c.watchers
    ensures w in DispatchEvent(c, r).watchers && DispatchEvent(c, r).watchers[w].rewinds == c.watchers[w].rewinds
  {
  }

  lemma ResponseRewinds(c: Client, r: Response, w: nat)
    requires w in c.watchers && (r.created ==>
      c.resuming != [] && (c.resuming[0].Of? ==> c.resuming[0].w in c.watchers))
    ensures w in OnResponse(c, r).watchers && OnResponse(c, r).watchers[w].rewinds == c.watchers[w].rewinds
  {
    DispatchRewinds(c, Merged(c.cur, r), w);
    if r.created && c.resuming[0].Of? {
      DispatchRewinds(AddSubstream(c, r, c.resuming[0].w), r, w);
    }
    hide DispatchEvent, Merged;
  }

  /** Only a reconnect adds a rewind, and only for a watcher that is behind. */
  lemma StepRewinds(s: State, step: Step, t: State, w: nat)
    requires Goes(s, step, t) && w in s.client.watchers
    ensures w in t.client.watchers
    ensures t.client.watchers[w].rewinds ==
      if step.Reconnect? && Behind(s, w) then
        s.client.watchers[w].rewinds + [Rewind(s.client.watchers[w].rev, s.client.watchers[w].due)]
      else s.client.watchers[w].rewinds
  {
    if step.Receive? { ResponseRewinds(s.client, Raw(s.wire[0], s.got), w); }
    hide OnResponse, Stripped, Head, BatchFrom, Honest, LastRev;
  }

  lemma NewRewinds(s: State, step: Step, t: State, w: nat)
    requires Goes(s, step, t) && w !in s.client.watchers && w in t.client.watchers && Inv(s)
    ensures t.client.watchers[w].rewinds == [] && !Behind(s, w)
  {
    assert step.NewWatch? by {
      if step.Receive? { SameWatchers(s.client, Raw(s.wire[0], s.got)); }
      hide OnResponse, Inv, BatchFrom, Honest, LastRev;
    }
  }

  lemma SameWatchers(c: Client, r: Response)
    requires r.created ==> c.resuming != [] && (c.resuming[0].Of? ==> c.resuming[0].w in c.watchers)
    ensures OnResponse(c, r).watchers.Keys == c.watchers.Keys
  {
  }

  lemma OneMoreStep(steps: seq<Step>, states: seq<State>, n: nat, w: nat)
    requires 0 < n <= |steps| && |states| == |steps| + 1
    ensures NeverBehind(steps, states, n, w) <==>
      NeverBehind(steps, states, n - 1, w) && (steps[n - 1].Reconnect? ==> !Behind(states[n - 1], w))
  {
    hide Behind;
  }

  /** A watcher has gone back if and only if it was behind at some reconnect. */
  lemma {:induction false} RewoundExactly(start: State, steps: seq<Step>, states: seq<State>, n: nat, w: nat)
    requires Trace(start, steps, states) && n <= |steps| && w in states[n].client.watchers
    ensures states[n].client.watchers[w].rewinds == [] <==> NeverBehind(steps, states, n, w)
  {
    if n > 0 {
      var s, t := states[n - 1], states[n];
      assert Goes(s, steps[n - 1], t);
      TraceKeeps(start, steps, states, n - 1);
      hide Goes, Behind, Inv, Trace;
      if w in s.client.watchers {
        RewoundExactly(start, steps, states, n - 1, w);
        StepRewinds(s, steps[n - 1], t, w);
      } else {
        NewRewinds(s, steps[n - 1], t, w);
        NotBefore(start, steps, states, n - 1, w);
      }
      OneMoreStep(steps, states, n, w);
      hide NeverBehind;
    }
  }

  lemma {:induction false} NotBefore(start: State, steps: seq<Step>, states: seq<State>, n: nat, w: nat)
    requires Trace(start, steps, states) && n <= |steps| && w !in states[n].client.watchers
    ensures NeverBehind(steps, states, n, w)
  {
    if n > 0 {
      assert Goes(states[n - 1], steps[n - 1], states[n]);
      if w in states[n - 1].client.watchers { StepRewinds(states[n - 1], steps[n - 1], states[n], w); }
      NotBefore(start, steps, states, n - 1, w);
    }
  }

  /** Across any failures of the stream, what a subscriber was sent and what is waiting for
      it is exactly the matching history from its start revision to where it has been
      served, which is its next revision unless a header has just gone back, as long as
      it was behind at no reconnect. */
  lemma NothingLostOrRepeated(start: State, steps: seq<Step>, states: seq<State>, w: nat)
    requires Trace(start, steps, states) && w in states[|steps|].client.watchers
    requires NeverBehind(steps, states, |steps|, w)
    ensures var s := states[|steps|];
      var watcher := s.client.watchers[w];
      Live(watcher) ==>
        && Held(watcher) == Matching(s.log, watcher.want, watcher.start, watcher.due)
        && (Held(watcher) == Matching(s.log, watcher.want, watcher.start, watcher.rev) <==>
              Matching(s.log, watcher.want, Max(watcher.start, watcher.rev), watcher.due) == [])
  {
    var s := states[|steps|];
    RewoundExactly(start, steps, states, |steps|, w);
    assert Run(start, steps, s);
    hide Matching, Kept, Trace, Run, NeverBehind, Held;
    if Live(s.client.watchers[w]) { ProgressExactly(start, steps, s, w); }
  }

  // ----- how much is delivered again -----

  ghost predicate GoBack(rewinds: seq<Rewind>) {
    forall i :: 0 <= i < |rewinds| ==> rewinds[i].rev < rewinds[i].due
  }

  function Min(a: nat, b: nat): nat {
    if a < b then a else b
  }

  /** The furthest that any of the stretches got. */
  function Top(rewinds: seq<Rewind>, upto: nat): nat {
    if rewinds == [] then upto
    else
      var last := |rewinds| - 1;
      Max(Top(rewinds[..last], rewinds[last].due), upto)
  }

  /** How many events were delivered from below the furthest point: once more, or although
      they lie before the start. */
  function Again(log: seq<Event>, want: Interest, rewinds: seq<Rewind>, upto: nat): nat {
    if rewinds == [] then 0
    else
      var last := |rewinds| - 1;
      var top := Top(rewinds[..last], rewinds[last].due);
      Again(log, want, rewinds[..last], rewinds[last].due) + |Matching(log, want, rewinds[last].rev, Min(upto, top))|
  }

  lemma {:induction false} TopBounds(store: nat, start: nat, rewinds: seq<Rewind>, upto: nat)
    requires SettledAll(store, start, rewinds, upto)
    ensures start <= Top(rewinds, upto) && upto <= Top(rewinds, upto)
    decreases |rewinds|
  {
    if rewinds != [] {
      var last := |rewinds| - 1;
      TopBounds(store, start, rewinds[..last], rewinds[last].due);
    }
  }

  /** The stretches make up the history to the furthest point, and what comes again. */
  lemma {:induction false} DeliveredLength(log: seq<Event>, want: Interest, store: nat, start: nat,
      rewinds: seq<Rewind>, upto: nat)
    requires Ordered(log, store) && SettledAll(store, start, rewinds, upto) && GoBack(rewinds)
    ensures |Delivered(log, want, start, rewinds, upto)| ==
      |Matching(log, want, start, Top(rewinds, upto))| + Again(log, want, rewinds, upto)
    decreases |rewinds|
  {
    if rewinds != [] {
      var front, last := rewinds[..|rewinds| - 1], rewinds[|rewinds| - 1];
      var top := Top(front, last.due);
      TopBounds(store, start, front, last.due);
      DeliveredLength(log, want, store, start, front, last.due);
      hide Matching, Ordered;
      if top < upto {
        MatchingSplit(log, want, store, last.rev, top, upto);
        MatchingSplit(log, want, store, start, top, upto);
      }
    }
  }

  lemma {:induction false} DeliveredOnce(log: seq<Event>, want: Interest, store: nat, start: nat,
      rewinds: seq<Rewind>, upto: nat)
    requires Ordered(log, store) && SettledAll(store, start, rewinds, upto) && GoBack(rewinds)
    requires Again(log, want, rewinds, upto) == 0
    ensures Delivered(log, want, start, rewinds, upto) == Matching(log, want, start, Top(rewinds, upto))
    decreases |rewinds|
  {
    if rewinds != [] {
      var front, last := rewinds[..|rewinds| - 1], rewinds[|rewinds| - 1];
      var top := Top(front, last.due);
      TopBounds(store, start, front, last.due);
      DeliveredOnce(log, want, store, start, front, last.due);
      Continued(log, want, store, start, last.rev, top, upto);
      hide Matching, Ordered, SettledAll, GoBack;
    }
  }

  /** Going back over nothing leaves no trace. */
  lemma Continued(log: seq<Event>, want: Interest, store: nat, start: nat, rev: nat, top: nat, upto: nat)
    requires Ordered(log, store) && rev <= upto && rev < top && start <= top
    requires Matching(log, want, rev, Min(upto, top)) == []
    ensures Matching(log, want, start, top) + Matching(log, want, rev, upto)
      == Matching(log, want, start, Max(top, upto))
  {
    hide Matching, Ordered;
    if top < upto {
      MatchingSplit(log, want, store, rev, top, upto);
      MatchingSplit(log, want, store, start, top, upto);
    }
  }

  /** In every run, of every live watcher. It holds exactly the matching history from its
      start to the furthest it has been served if and only if nothing was delivered again.
      It holds exactly the history up to its next revision if and only if moreover nothing
      that matches lies between there, or its start, and that furthest point. */
  lemma ProgressExactly(start: State, steps: seq<Step>, s: State, w: nat)
    requires Run(start, steps, s) && w in s.client.watchers && Live(s.client.watchers[w])
    ensures var v := s.client.watchers[w];
      var top, again := Top(v.rewinds, v.due), Again(s.log, v.want, v.rewinds, v.due);
      && (Held(v) == Matching(s.log, v.want, v.start, top) <==> again == 0)
      && (Held(v) == Matching(s.log, v.want, v.start, v.rev) <==>
            again == 0 && Matching(s.log, v.want, Max(v.start, v.rev), top) == [])
  {
    RunKeeps(start, steps, s);
    RunGoesBack(start, steps, s, w);
    var v := s.client.watchers[w];
    assert WatcherOk(s.log, s.store, v);
    assert SettledAll(s.store, v.start, v.rewinds, v.due) && Ordered(s.log, s.store);
    HeldExactly(start, steps, s, w);
    hide Inv, Run, WatcherOk, Matching, Kept, SettledAll, Ordered, Delivered, Held, Top, Again, GoBack;
    TopBounds(s.store, v.start, v.rewinds, v.due);
    DeliveredLength(s.log, v.want, s.store, v.start, v.rewinds, v.due);
    if Again(s.log, v.want, v.rewinds, v.due) == 0 {
      DeliveredOnce(s.log, v.want, s.store, v.start, v.rewinds, v.due);
    }
    if v.start <= v.rev {
      MatchingSplit(s.log, v.want, s.store, v.start, v.rev, Top(v.rewinds, v.due));
    } else {
      MatchingNone(s.log, v.want, v.start, v.rev);
    }
  }

  lemma RunGoesBack(start: State, steps: seq<Step>, s: State, w: nat)
    requires Run(start, steps, s) && w in s.client.watchers
    ensures GoBack(s.client.watchers[w].rewinds)
  {
    var states :| Trace(start, steps, states) && states[|steps|] == s;
    TraceGoesBack(start, steps, states, |steps|, w);
  }

  lemma {:induction false} TraceGoesBack(start: State, steps: seq<Step>, states: seq<State>, n: nat, w: nat)
    requires Trace(start, steps, states) && n <= |steps| && w in states[n].client.watchers
    ensures GoBack(states[n].client.watchers[w].rewinds)
  {
    if n > 0 {
      var s, t := states[n - 1], states[n];
      assert Goes(s, steps[n - 1], t);
      TraceKeeps(start, steps, states, n - 1);
      hide Goes, Behind, Inv, Trace;
      if w in s.client.watchers {
        TraceGoesBack(start, steps, states, n - 1, w);
        StepRewinds(s, steps[n - 1], t, w);
      } else {
        NewRewinds(s, steps[n - 1], t, w);
      }
    }
  }

  /** What a subscriber was sent is the beginning of what it is owed, even when its watch
      has failed or ended; without rewinds that is the history from its start. */
  lemma SentIsABeginning(start: State, steps: seq<Step>, s: State, w: nat)
    requires Run(start, steps, s) && w in s.client.watchers
    ensures var watcher := s.client.watchers[w];
      exists rewinds, upto ::
        && rewinds <= watcher.rewinds && SettledAll(s.store, watcher.start, rewinds, upto)
        && watcher.sent <= Delivered(s.log, watcher.want, watcher.start, rewinds, upto)
        && (watcher.rewinds == [] ==> watcher.sent <= Matching(s.log, watcher.want, watcher.start, upto))
  {
    RunKeeps(start, steps, s);
    var watcher := s.client.watchers[w];
    assert WatcherOk(s.log, s.store, watcher);
    var rewinds, upto :| ExactTo(s.log, s.store, watcher, rewinds, upto);
    assert watcher.sent <= Delivered(s.log, watcher.want, watcher.start, rewinds, upto);
    assert SettledAll(s.store, watcher.start, rewinds, upto);
  }

  /** A creation is never received when the queue of resuming watchers is empty. */
  lemma QueueNeverEmptyOnCreation(start: State, steps: seq<Step>, s: State, step: Step)
    requires Run(start, steps, s) && Enabled(s, step)
    ensures !Panics(s, step)
  {
    RunKeeps(start, steps, s);
    StepKeeps(s, step);
  }

  /** A substream is always registered under the id of a watch for its own interest, and
      one create request is under way exactly when somebody is resuming. */
  lemma RepliesMatchRequests(start: State, steps: seq<Step>, s: State)
    requires Run(start, steps, s)
    ensures |s.requests| + Creations(s.wire) == if s.client.resuming == [] then 0 else 1
    ensures forall id :: id in s.client.substreams ==>
      && s.client.substreams[id] in s.client.watchers && id in s.watches
      && s.watches[id].want == s.client.watchers[s.client.substreams[id]].want
  {
    RunKeeps(start, steps, s);
    forall id | id in s.client.substreams
      ensures s.client.substreams[id] in s.client.watchers && id in s.watches
      ensures s.watches[id].want == s.client.watchers[s.client.substreams[id]].want
    {
      assert Registered(s, id);
    }
  }

  // ----- a watch that goes back before its start -----

  /** One more step of a run. */
  lemma Took(start: State, steps: seq<Step>, s: State, step: Step) returns (more: seq<Step>, t: State)
    requires Run(start, steps, s) && Enabled(s, step)
    ensures !Panics(s, step) && SlotsKnown(s.client) && t == Next(s, step) && Run(start, more, t)
  {
    RunKeeps(start, steps, s);
    StepKeeps(s, step);
    assert SlotsKnown(s.client);
    more, t := steps + [step], Next(s, step);
    assert Goes(s, step, t);
    hide Inv, Goes, Trace, Enabled, Next, Panics, SlotsKnown;
    RunExtends(start, steps, s, step, t);
  }

  lemma RunExtends(start: State, steps: seq<Step>, s: State, step: Step, t: State)
    requires Run(start, steps, s) && Goes(s, step, t)
    ensures Run(start, steps + [step], t)
  {
    hide Goes, Start;
    var states :| Trace(start, steps, states) && states[|steps|] == s;
    assert Trace(start, steps + [step], states + [t]);
    assert (states + [t])[|steps + [step]|] == t;
  }

  /** A stream with the one watcher 0 and an empty wire. */
  function Alone(w: Watcher, waiting: bool, requests: seq<Request>, watches: map<nat, Watch>, log: seq<Event>,
                 store: nat): State
  {
    var substreams: map<int, nat> := if waiting then map[] else map[w.id := 0];
    State(Client(map[0 := w], substreams, if waiting then [Of(0)] else [], NoResponse), requests, [], 0, watches, log,
      store)
  }

  lemma AloneCreated(start: State, steps: seq<Step>, s: State, w: Watcher, watches: map<nat, Watch>, id: nat)
    returns (more: seq<Step>, t: State)
    requires w.id == INVALID_WATCH_ID && id !in watches
    requires s == Alone(w, true, [Request(w.want, w.rev)], watches, s.log, s.store) && Run(start, steps, s)
    ensures Run(start, more, t)
    ensures t == Alone(w.(id := id), false, [], watches[id := Watch(w.want, w.rev, true)], s.log, s.store)
  {
    hide Run;
    more, t := Took(start, steps, s, AnswerCreate(id, true));
    assert t.wire == [Created(id, true)];
    more, t := Took(start, more, t, Receive);
    assert [Created(id, true)][1..] == [];
  }

  /** The server reports a store that has not reached the start of the watch. */
  lemma AloneTold(start: State, steps: seq<Step>, s: State, w: Watcher, id: nat, next: nat)
    returns (more: seq<Step>, t: State)
    requires w.id == id && s.log == [] && 0 < s.store && s.store + 1 < w.due && s.store + 1 < next && !w.finished
    requires s == Alone(w, false, [], map[id := Watch(w.want, next, true)], [], s.store) && Run(start, steps, s)
    ensures Run(start, more, t)
    ensures t == Alone(w.(rev := s.store + 1, buf := w.buf + [Delivery([], false)]), false, [],
                       map[id := Watch(w.want, next, true)], [], s.store)
  {
    hide Run;
    NothingBeyond([], w.want, next, s.store + 1);
    more, t := Took(start, steps, s, SendProgress(id, s.store));
    assert t == s.(wire := [Progress(id, s.store)]);
    hide Enabled, Next, Matching;
    more, t := AloneHears(start, more, t, w, id, s.store);
  }

  lemma AloneHears(start: State, steps: seq<Step>, s: State, w: Watcher, id: nat, h: nat)
    returns (more: seq<Step>, t: State)
    requires w.id == id && 0 < h && h + 1 < w.due && !w.finished && Run(start, steps, s)
    requires s == Alone(w, false, [], s.watches, s.log, s.store).(wire := [Progress(id, h)])
    ensures Run(start, more, t)
    ensures t == Alone(w.(rev := h + 1, buf := w.buf + [Delivery([], false)]), false, [], s.watches, s.log, s.store)
  {
    hide Run;
    more, t := Took(start, steps, s, Receive);
    assert [Progress(id, h)][1..] == [];
  }

  lemma AloneReconnects(start: State, steps: seq<Step>, s: State, w: Watcher, watches: map<nat, Watch>)
    returns (more: seq<Step>, t: State)
    requires w.id != INVALID_WATCH_ID
    requires s == Alone(w, false, [], watches, s.log, s.store) && Run(start, steps, s)
    ensures Run(start, more, t)
    ensures t == Alone(Detached(w), true, [Request(w.want, w.rev)], map[], s.log, s.store)
  {
    hide Run;
    assert s.client.substreams[w.id] == 0 && Serving(s.client) == {0};
    more, t := Took(start, steps, s, Reconnect([Of(0)]));
    assert [] + [Of(0)] == [Of(0)];
    assert [Of(0)][1..] == [];
  }

  lemma OneEvent(e: Event, want: Interest, low: nat, high: nat)
    requires want(e) && low <= e.rev < high
    ensures Matching([e], want, low, high) == [e]
  {
    assert [e][..0] == [];
  }

  lemma OnePart(e: Event)
    ensures Flat([[e]]) == [e]
  {
    assert [[e]][..0] == [];
  }

  lemma AloneServed(start: State, steps: seq<Step>, s: State, w: Watcher, id: nat, e: Event)
    returns (more: seq<Step>, t: State)
    requires w.id == id && !w.finished && s.log == [e] && w.rev == w.due == e.rev == s.store && w.want(e)
    requires s == Alone(w, false, [], map[id := Watch(w.want, w.rev, true)], [e], e.rev) && Run(start, steps, s)
    ensures Run(start, more, t) && 0 in t.client.watchers
    ensures t.client.watchers[0] == w.(rev := e.rev + 1, due := e.rev + 1, buf := w.buf + [Delivery([e], false)])
    ensures t.log == [e]
  {
    hide Run;
    OneEvent(e, w.want, w.rev, e.rev + 1);
    OnePart(e);
    more, t := Took(start, steps, s, SendBatch(Batch(id, e.rev, [[e]])));
    assert t.wire == [Batch(id, e.rev, [[e]])];
    more, t := Took(start, more, t, Receive);
  }

  lemma AloneStarts(want: Interest, at: nat, store: nat) returns (start: State, steps: seq<Step>, s: State)
    requires at > 0
    ensures Run(start, steps, s)
    ensures s == Alone(Watcher(want, at, at, at, [], [], [], INVALID_WATCH_ID, false), true, [Request(want, at)],
      map[], [], store)
  {
    start := State(Client(map[], map[], [], NoResponse), [], [], 0, map[], [], store);
    assert Trace(start, [], [start]) && Run(start, [], start);
    hide Run;
    steps, s := Took(start, [], start, NewWatch(0, want, at));
  }

  lemma AloneChanges(start: State, steps: seq<Step>, s: State, w: Watcher, e: Event)
    returns (more: seq<Step>, t: State)
    requires s == Alone(w, true, [Request(w.want, w.rev)], map[], [], s.store) && e.rev == s.store + 1 &&
      Run(start, steps, s)
    ensures Run(start, more, t) && t == Alone(w, true, [Request(w.want, w.rev)], map[], [e], e.rev)
  {
    hide Run;
    more, t := Took(start, steps, s, Change([e]));
    assert [] + [e] == [e];
  }

  lemma FirstPublished(start: State, steps: seq<Step>, s: State, w: Watcher)
    returns (more: seq<Step>, t: State)
    requires Run(start, steps, s) && 0 in s.client.watchers && s.client.watchers[0] == w
    requires !w.finished && w.buf != [] && !w.buf[0].failed
    ensures Run(start, more, t) && 0 in t.client.watchers
    ensures t.client.watchers[0] == w.(sent := w.sent + w.buf[0].events, buf := w.buf[1..]) && t.log == s.log
  {
    hide Run;
    more, t := Took(start, steps, s, Publish(0));
  }

  /** A watch from revision 10 on a store at 5 is told of progress at 5, loses its stream,
      and delivers the event of revision 6, which it is not owed. */
  lemma EarlyProgressRepeats(want: Interest, e: Event) returns (start: State, steps: seq<Step>, s: State)
    requires want(e) && e.rev == 6
    ensures Run(start, steps, s) && 0 in s.client.watchers
    ensures var w := s.client.watchers[0];
      && w.start == 10 && Live(w) && w.sent == [e] && w.rev == 7 && w.rewinds == [Rewind(6, 10)]
      && Again(s.log, want, w.rewinds, w.due) == 1
  {
    start, steps, s := AloneStarts(want, 10, 5);
    hide Run, Next, Enabled;
    var w := Watcher(want, 10, 10, 10, [], [], [], INVALID_WATCH_ID, false);
    steps, s := AloneCreated(start, steps, s, w, map[], 0);
    steps, s := AloneTold(start, steps, s, w.(id := 0), 0, 10);
    assert [] + [Delivery([], false)] == [Delivery([], false)];
    var v := w.(id := 0, rev := 6, buf := [Delivery([], false)]);
    steps, s := AloneReconnects(start, steps, s, v, map[0 := Watch(want, 10, true)]);
    var u := Detached(v);
    steps, s := AloneChanges(start, steps, s, u, e);
    steps, s := AloneCreated(start, steps, s, u, map[], 1);
    steps, s := AloneServed(start, steps, s, u.(id := 1), 1, e);
    var full := s.client.watchers[0];
    assert full.buf == [Delivery([], false), Delivery([e], false)];
    assert full.buf[1..] == [Delivery([e], false)];
    steps, s := FirstPublished(start, steps, s, full);
    steps, s := FirstPublished(start, steps, s, s.client.watchers[0]);
    OneAgain(want, e);
  }

  lemma OneAgain(want: Interest, e: Event)
    requires want(e) && e.rev == 6
    ensures Again([e], want, [Rewind(6, 10)], 7) == 1
  {
    OneEvent(e, want, 6, 7);
    assert [Rewind(6, 10)][..0] == [];
  }
}
