// One client watch stream: substreams that survive reconnects by carrying a next
// revision and a buffer, and a queue of resuming watchers whose head owns the one
// create request in flight.
module WatchResume {
  import opened WatchHistory

  const INVALID_WATCH_ID: int := -1

  /** A raw response; compact is the compaction revision, 0 when there is none. */
  datatype Response = Response(id: int, header: nat, events: seq<Event>, created: bool, canceled: bool,
                               compact: nat, fragment: bool)

  /** What a substream's buffer holds. */
  datatype Delivery = Delivery(events: seq<Event>, failed: bool)

  /** A watcher that had been served up to due asked again from rev on. */
  datatype Rewind = Rewind(rev: nat, due: nat)

  /** watcherStream; rev is initReq.rev, and finished says that the serving goroutine has
      ended for good. The history variables start, sent, due and rewinds hold the revision
      asked for originally, what the subscriber has received, how far the stream has served
      the watcher, and where it asked again for less than that. */
  datatype Watcher = Watcher(want: Interest, start: nat, rev: nat, due: nat, rewinds: seq<Rewind>,
                             buf: seq<Delivery>, sent: seq<Event>, id: int, finished: bool)

  function Max(a: nat, b: nat): nat {
    if a < b then b else a
  }

  datatype Slot = Nobody | Of(w: nat)

  datatype Client = Client(watchers: map<nat, Watcher>, substreams: map<int, nat>, resuming: seq<Slot>,
                           cur: CurrentResponse)
  datatype CurrentResponse = NoResponse | Partly(response: Response)

  // ----- the client -----

  predicate IsProgressNotify(r: Response) {
    r.events == [] && !r.canceled && !r.created && r.compact == 0 && r.header != 0
  }

  /** serveSubstream taking a response from recvc; creations do not move a watcher
      that asked for a revision. */
  function Accept(w: Watcher, r: Response): Watcher {
    if w.finished || r.created then w
    else
      var next := if r.events != [] then r.events[|r.events| - 1].rev + 1 else r.header + 1;
      w.(rev := next, due := Max(w.due, next), buf := w.buf + [Delivery(r.events, r.canceled || r.compact != 0)])
  }

  /** The watchers among the values of the map of substreams. */
  function Serving(c: Client): set<nat> {
    set id | id in c.substreams :: c.substreams[id]
  }

  function Unicast(c: Client, r: Response): Client {
    if r.id in c.substreams && c.substreams[r.id] in c.watchers then
      var w := c.substreams[r.id];
      c.(watchers := c.watchers[w := Accept(c.watchers[w], r)])
    else c
  }

  function Broadcast(c: Client, r: Response): Client {
    c.(watchers := map w | w in c.watchers ::
         if w in Serving(c) then Accept(c.watchers[w], r) else c.watchers[w])
  }

  function DispatchEvent(c: Client, r: Response): Client {
    if IsProgressNotify(r) && r.id == INVALID_WATCH_ID then Broadcast(c, r) else Unicast(c, r)
  }

  function AddSubstream(c: Client, r: Response, w: nat): Client
    requires w in c.watchers
  {
    if r.id == INVALID_WATCH_ID || r.canceled then
      c.(watchers := c.watchers[w := c.watchers[w].(finished := true)])
    else
      c.(watchers := c.watchers[w := c.watchers[w].(id := r.id)], substreams := c.substreams[r.id := w])
  }

  function DropNobody(slots: seq<Slot>): (r: seq<Slot>)
    ensures r != [] ==> r[0].Of?
    ensures |r| <= |slots|
  {
    if slots != [] && slots[0].Nobody? then DropNobody(slots[1..]) else slots
  }

  /** What has been received of the response so far, fragments put together. */
  function Merged(cur: CurrentResponse, r: Response): Response {
    if cur.NoResponse? || r.created || r.canceled then r
    else if cur.response.id == r.id then
      cur.response.(events := cur.response.events + r.events, fragment := r.fragment)
    else cur.response
  }

  /** run on a Created response: resuming[0] is taken to be the watcher it is for. */
  function OnCreated(c: Client, r: Response): Client
    requires c.resuming != [] && (c.resuming[0].Of? ==> c.resuming[0].w in c.watchers)
  {
    var added :=
      if c.resuming[0].Of? then
        DispatchEvent(AddSubstream(c, r, c.resuming[0].w), r).(resuming := c.resuming[0 := Nobody])
      else c;
    added.(resuming := DropNobody(added.resuming), cur := NoResponse)
  }

  function OnCanceled(c: Client, r: Response): Client {
    if r.id in c.substreams && c.substreams[r.id] in c.watchers then
      var w := c.substreams[r.id];
      c.(watchers := c.watchers[w := c.watchers[w].(finished := true)], cur := NoResponse)
    else c.(cur := NoResponse)
  }

  /** run's case for a response from the server. */
  function OnResponse(c: Client, r: Response): Client
    requires r.created ==> c.resuming != [] && (c.resuming[0].Of? ==> c.resuming[0].w in c.watchers)
  {
    var cur := Merged(c.cur, r);
    if r.created then OnCreated(c, r)
    else if r.canceled && r.compact == 0 then OnCanceled(c, r)
    else if cur.fragment then c.(cur := Partly(cur))
    else DispatchEvent(c, cur).(cur := NoResponse)
  }

  /** closeSubstream */
  function OnClosing(c: Client, w: nat): Client
    requires w in c.watchers
  {
    var id := c.watchers[w].id;
    if id != INVALID_WATCH_ID then c.(substreams := c.substreams - {id})
    else c.(resuming := Cleared(c.resuming, w))
  }

  function Cleared(slots: seq<Slot>, w: nat): (r: seq<Slot>)
    ensures |r| == |slots|
    ensures forall i :: 0 <= i < |r| ==> r[i] == slots[i] || (slots[i] == Of(w) && r[i].Nobody?)
  {
    if slots == [] then []
    else if slots[0] == Of(w) then [Nobody] + slots[1..]
    else [slots[0]] + Cleared(slots[1..], w)
  }

  function Stripped(slots: seq<Slot>): (r: seq<Slot>)
    ensures forall s :: s in r <==> s in slots && s.Of?
  {
    if slots == [] then []
    else (if slots[0].Of? then [slots[0]] else []) + Stripped(slots[1..])
  }

  /** A watcher whose stream is gone: it will ask for initReq.rev, also when it has been
      served further. */
  function Detached(w: Watcher): Watcher {
    w.(id := INVALID_WATCH_ID, due := w.rev,
       rewinds := if w.rev < w.due then w.rewinds + [Rewind(w.rev, w.due)] else w.rewinds)
  }

  /** newWatchClient: everybody resumes, in some order of the map of substreams. */
  function OnReconnect(c: Client, order: seq<Slot>): Client {
    c.(watchers := map w | w in c.watchers ::
         if w in Serving(c) then Detached(c.watchers[w]) else c.watchers[w],
       substreams := map[],
       resuming := Stripped(c.resuming + order))
  }

  // ----- the server and the wire -----

  datatype Request = Request(want: Interest, rev: nat)

  /** A server-side watch: next is the revision up to which it has sent everything. */
  datatype Watch = Watch(want: Interest, next: nat, active: bool)

  /** What the server puts on the wire. A batch comes in contiguous parts. */
  datatype Message =
    | Created(id: nat, ok: bool)
    | Canceled(id: nat)
    | Compacted(id: nat, header: nat, compact: nat)
    | Batch(id: nat, header: nat, parts: seq<seq<Event>>)
    | Progress(id: nat, header: nat)
    | Broadcasted(header: nat)

  datatype State = State(client: Client, requests: seq<Request>, wire: seq<Message>, got: nat,
                         watches: map<nat, Watch>, log: seq<Event>, store: nat)

  function Flat(parts: seq<seq<Event>>): seq<Event> {
    if parts == [] then [] else Flat(parts[..|parts| - 1]) + parts[|parts| - 1]
  }

  /** The response a message, or part k of a batch, arrives as. */
  function Raw(m: Message, k: nat): Response
    requires m.Batch? ==> k < |m.parts|
  {
    match m
    case Created(id, ok) => Response(if ok then id else INVALID_WATCH_ID, 0, [], true, !ok, 0, false)
    case Canceled(id) => Response(id, 0, [], false, true, 0, false)
    case Compacted(id, header, compact) => Response(id, header, [], false, true, compact, false)
    case Batch(id, header, parts) => Response(id, header, parts[k], false, false, 0, k < |parts| - 1)
    case Progress(id, header) => Response(id, header, [], false, false, 0, false)
    case Broadcasted(header) => Response(INVALID_WATCH_ID, header, [], false, false, 0, false)
  }

  function Head(c: Client): seq<Request>
    requires c.resuming != [] && c.resuming[0].Of? ==> c.resuming[0].w in c.watchers
  {
    if c.resuming != [] && c.resuming[0].Of? then
      [Request(c.watchers[c.resuming[0].w].want, c.watchers[c.resuming[0].w].rev)]
    else []
  }

  datatype Step =
    | NewWatch(w: nat, want: Interest, start: nat)
    | Receive
    | Publish(w: nat)
    | Finish(w: nat)
    | Reap(w: nat)
    | Reconnect(order: seq<Slot>)
    | Change(events: seq<Event>)
    | AnswerCreate(id: nat, ok: bool)
    | SendBatch(batch: Message)
    | SendProgress(id: nat, header: nat)
    | SendBroadcast(header: nat)
    | CancelWatch(id: nat)
    | CompactWatch(id: nat, header: nat, compact: nat)

  ghost predicate BatchFrom(log: seq<Event>, store: nat, want: Interest, next: nat, m: Message)
    requires m.Batch?
  {
    var events := Flat(m.parts);
    && m.parts != [] && events != []
    && next <= events[|events| - 1].rev <= store
    && events == Matching(log, want, next, events[|events| - 1].rev + 1)
  }

  /** A progress header is honest when nothing up to it is still to come. It may lie
      before the revision the watch has got to, or begins at. */
  ghost predicate Honest(log: seq<Event>, store: nat, want: Interest, next: nat, header: nat) {
    0 < header <= store && Matching(log, want, next, header + 1) == []
  }

  ghost predicate Distinct(slots: seq<Slot>) {
    forall i, j :: 0 <= i < j < |slots| && slots[i].Of? && slots[j].Of? ==> slots[i].w != slots[j].w
  }

  ghost predicate Enabled(s: State, step: Step) {
    match step
    case NewWatch(w, _, start) => w !in s.client.watchers && start > 0
    case Receive => s.wire != [] && (s.wire[0].Batch? ==> s.got < |s.wire[0].parts|)
    case Publish(w) =>
      w in s.client.watchers && !s.client.watchers[w].finished && s.client.watchers[w].buf != []
    case Finish(w) => w in s.client.watchers
    case Reap(w) => w in s.client.watchers && s.client.watchers[w].finished
    case Reconnect(order) =>
      Distinct(order) && forall x :: x in order <==> x.Of? && x.w in Serving(s.client)
    case Change(events) =>
      && (forall i :: 0 <= i < |events| ==> events[i].rev == s.store + 1)
    case AnswerCreate(id, ok) => s.requests != [] && id !in s.watches
    case SendBatch(m) =>
      && m.Batch? && m.id in s.watches && s.watches[m.id].active
      && BatchFrom(s.log, s.store, s.watches[m.id].want, s.watches[m.id].next, m)
    case SendProgress(id, h) =>
      && id in s.watches && s.watches[id].active
      && Honest(s.log, s.store, s.watches[id].want, s.watches[id].next, h)
    case SendBroadcast(h) =>
      && 0 < h
      && forall id :: id in s.watches && s.watches[id].active ==>
           Honest(s.log, s.store, s.watches[id].want, s.watches[id].next, h)
    case CancelWatch(id) => id in s.watches && s.watches[id].active
    case CompactWatch(id, h, c) => id in s.watches && s.watches[id].active && 0 < c && h <= s.store
  }

  function LastRev(m: Message): nat
    requires m.Batch? && Flat(m.parts) != []
  {
    var events := Flat(m.parts);
    events[|events| - 1].rev
  }

  /** The stream never looks past the end of the resuming queue. */
  ghost predicate Panics(s: State, step: Step) {
    step.Receive? && s.wire != [] && s.wire[0].Created? && s.client.resuming == []
  }

  ghost predicate SlotsKnown(c: Client) {
    forall i :: 0 <= i < |c.resuming| && c.resuming[i].Of? ==> c.resuming[i].w in c.watchers
  }

  ghost function Next(s: State, step: Step): State
    requires Enabled(s, step) && !Panics(s, step) && SlotsKnown(s.client)
  {
    match step
    case NewWatch(w, want, start) =>
      var watcher := Watcher(want, start, start, start, [], [], [], INVALID_WATCH_ID, false);
      var c := s.client.(watchers := s.client.watchers[w := watcher], resuming := s.client.resuming + [Of(w)]);
      s.(client := c, requests := if |c.resuming| == 1 then s.requests + [Request(want, start)] else s.requests)
    case Receive =>
      var m := s.wire[0];
      var c := OnResponse(s.client, Raw(m, s.got));
      if m.Batch? && s.got + 1 < |m.parts| then s.(client := c, got := s.got + 1)
      else
        s.(client := c, got := 0, wire := s.wire[1..],
           requests := s.requests + (if m.Created? && c.resuming != [] && c.resuming[0].Of? &&
             c.resuming[0].w in c.watchers then Head(c) else []))
    case Publish(w) =>
      var watcher := s.client.watchers[w];
      var first := watcher.buf[0];
      s.(client := s.client.(watchers := s.client.watchers[w :=
           watcher.(sent := watcher.sent + first.events, buf := watcher.buf[1..], finished := first.failed)]))
    case Finish(w) =>
      s.(client := s.client.(watchers := s.client.watchers[w := s.client.watchers[w].(finished := true)]))
    case Reap(w) => s.(client := OnClosing(s.client, w))
    case Reconnect(order) =>
      var c := OnReconnect(s.client, order);
      s.(client := c, got := 0, wire := [], watches := map[],
         requests := if c.resuming != [] && c.resuming[0].Of? && c.resuming[0].w in c.watchers then Head(c) else [])
    case Change(events) => s.(log := s.log + events, store := s.store + 1)
    case AnswerCreate(id, ok) =>
      var req := s.requests[0];
      s.(requests := s.requests[1..], wire := s.wire + [Created(id, ok)],
         watches := if ok then s.watches[id := Watch(req.want, req.rev, true)] else s.watches)
    case SendBatch(m) =>
      s.(wire := s.wire + [m], watches := s.watches[m.id := s.watches[m.id].(next := LastRev(m) + 1)])
    case SendProgress(id, h) =>
      s.(wire := s.wire + [Progress(id, h)],
        watches := s.watches[id := s.watches[id].(next := Max(s.watches[id].next, h + 1))])
    case SendBroadcast(h) =>
      s.(wire := s.wire + [Broadcasted(h)],
         watches := map id | id in s.watches ::
           if s.watches[id].active then s.watches[id].(next := Max(s.watches[id].next, h + 1)) else s.watches[id])
    case CancelWatch(id) =>
      s.(wire := s.wire + [Canceled(id)], watches := s.watches[id := s.watches[id].(active := false)])
    case CompactWatch(id, h, c) =>
      s.(wire := s.wire + [Compacted(id, h, c)], watches := s.watches[id := s.watches[id].(active := false)])
  }
}
