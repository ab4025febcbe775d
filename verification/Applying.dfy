// Applying committed raft entries to the v2 store and to the v3 backend.
// The two stores are arbitrary deterministic machines over byte images, so
// that "exactly once, in order" is a statement about every implementation.
module Applying {
  type Image = seq<int>
  type Payload = seq<int>

  /** What an entry's data decodes to; an empty entry marks a new leader. */
  datatype Request = Empty | V2(op: Payload) | V3(op: Payload)
  datatype Body = Normal(request: Request) | ConfChange(change: Payload)
  datatype Entry = Entry(index: nat, body: Body)

  datatype Machine = Machine(v2: (Image, Body) -> Image, v3: (Image, Payload) -> Image)

  predicate TouchesV2(b: Body) {
    b.ConfChange? || b.request.V2?
  }

  predicate TouchesV3(b: Body) {
    b.Normal? && b.request.V3?
  }

  /** The committed log: entry i carries index i + 1. */
  ghost predicate IsLog(log: seq<Entry>) {
    forall i :: 0 <= i < |log| ==> log[i].index == i + 1
  }

  /** The v2 store when each of the first n entries is applied exactly once: it takes
      requests of its own kind and configuration changes. */
  ghost function OnceV2(m: Machine, log: seq<Entry>, n: nat): Image
    requires n <= |log|
  {
    if n == 0 then []
    else
      var before := OnceV2(m, log, n - 1);
      match log[n - 1].body
      case ConfChange(_) => m.v2(before, log[n - 1].body)
      case Normal(V2(_)) => m.v2(before, log[n - 1].body)
      case Normal(_) => before
  }

  /** The v3 store when each of the first n entries is applied exactly once. */
  ghost function OnceV3(m: Machine, log: seq<Entry>, n: nat): Image
    requires n <= |log|
  {
    if n == 0 then []
    else
      var before := OnceV3(m, log, n - 1);
      match log[n - 1].body
      case Normal(V3(op)) => m.v3(before, op)
      case _ => before
  }

  /** A v3 image and the consistent index kept in the same file. */
  datatype Backend = Backend(image: Image, index: nat)

  ghost predicate Faithful(m: Machine, log: seq<Entry>, b: Backend) {
    b.index <= |log| && b.image == OnceV3(m, log, b.index)
  }

  /** The volatile state. The backend here is the open batch transaction: its
      index is the one written by the last transaction that changed something. */
  datatype Memory = Memory(v2: Image, backend: Backend, consistIndex: nat, appliedi: nat, snapi: nat)

  ghost predicate Exact(m: Machine, log: seq<Entry>, mem: Memory) {
    && mem.snapi <= mem.appliedi <= mem.consistIndex <= |log|
    && mem.v2 == OnceV2(m, log, mem.appliedi)
    && Faithful(m, log, mem.backend)
    && mem.backend.index <= mem.consistIndex
    && mem.backend.image == OnceV3(m, log, mem.consistIndex)
  }

  /** One entry: the v2 store takes every entry it is handed, the v3 store only
      those beyond the consistent index. */
  function ApplyEntry(m: Machine, mem: Memory, e: Entry): Memory {
    var isNew := e.index > mem.consistIndex;
    var consistIndex := if isNew then e.index else mem.consistIndex;
    var v2 := if TouchesV2(e.body) then m.v2(mem.v2, e.body) else mem.v2;
    var v3 := if isNew && TouchesV3(e.body) then m.v3(mem.backend.image, e.body.request.op) else mem.backend.image;
    var saved := if v3 != mem.backend.image then consistIndex else mem.backend.index;
    Memory(v2, Backend(v3, saved), consistIndex, e.index, mem.snapi)
  }

  function Replay(m: Machine, mem: Memory, es: seq<Entry>): Memory {
    if es == [] then mem else ApplyEntry(m, Replay(m, mem, es[..|es| - 1]), es[|es| - 1])
  }

  lemma EntryExact(m: Machine, log: seq<Entry>, mem: Memory)
    requires IsLog(log) && Exact(m, log, mem) && mem.appliedi < |log|
    ensures var e := log[mem.appliedi];
      var after := ApplyEntry(m, mem, e);
      && Exact(m, log, after)
      && after.appliedi == mem.appliedi + 1
      && after.consistIndex == (if e.index > mem.consistIndex then e.index else mem.consistIndex)
      && after.backend.index >= mem.backend.index
      && after.snapi == mem.snapi
  {
  }

  /** The backend changes, and its index with it, only by an entry that it has not seen
      and that is a request of its own kind. */
  lemma BackendUntouched(m: Machine, mem: Memory, e: Entry)
    ensures e.index <= mem.consistIndex || e.body.ConfChange? || !e.body.request.V3? ==>
      ApplyEntry(m, mem, e).backend == mem.backend
    ensures ApplyEntry(m, mem, e).backend != mem.backend ==> ApplyEntry(m, mem, e).backend.index == e.index
  {
  }

  ghost function ReplayedTo(m: Machine, log: seq<Entry>, mem: Memory, n: nat): Memory
    requires mem.appliedi <= n <= |log|
  {
    Replay(m, mem, log[mem.appliedi..n])
  }

  lemma ReplayedNext(m: Machine, log: seq<Entry>, mem: Memory, n: nat)
    requires mem.appliedi <= n <= |log|
    ensures ReplayedTo(m, log, mem, mem.appliedi) == mem
    ensures n > mem.appliedi ==>
      ReplayedTo(m, log, mem, n) == ApplyEntry(m, ReplayedTo(m, log, mem, n - 1), log[n - 1])
  {
    if n > mem.appliedi { ReplayOneMore(m, log, mem, n - 1); }
  }

  lemma {:induction false} ReplayedExact(m: Machine, log: seq<Entry>, mem: Memory, n: nat)
    requires IsLog(log) && Exact(m, log, mem) && mem.appliedi <= n <= |log|
    ensures var after := ReplayedTo(m, log, mem, n);
      && Exact(m, log, after)
      && after.appliedi == n
      && after.consistIndex == (if n > mem.consistIndex then n else mem.consistIndex)
      && after.backend.index >= mem.backend.index
      && after.snapi == mem.snapi
  {
    assert Exact(m, log, mem) && mem.appliedi <= mem.consistIndex;
    hide *;
    ReplayedNext(m, log, mem, n);
    if n > mem.appliedi {
      ReplayedExact(m, log, mem, n - 1);
      EntryIndex(log, n - 1);
      EntryExact(m, log, ReplayedTo(m, log, mem, n - 1));
    }
  }

  /** Replaying a stretch of the log keeps both stores exact. */
  lemma ReplayExact(m: Machine, log: seq<Entry>, mem: Memory, n: nat)
    requires IsLog(log) && Exact(m, log, mem) && mem.appliedi <= n <= |log|
    ensures var after := Replay(m, mem, log[mem.appliedi..n]);
      && Exact(m, log, after)
      && after.appliedi == n
      && after.consistIndex == (if n > mem.consistIndex then n else mem.consistIndex)
      && after.backend.index >= mem.backend.index
      && after.snapi == mem.snapi
  {
    ReplayedExact(m, log, mem, n);
    hide Exact, Replay;
  }

  lemma EntryIndex(log: seq<Entry>, i: nat)
    requires IsLog(log) && i < |log|
    ensures log[i].index == i + 1
  {
  }

  /** Once the log has been replayed as far as the consistent index reaches, both
      stores are what applying each entry exactly once gives. */
  lemma CaughtUp(m: Machine, log: seq<Entry>, mem: Memory, n: nat)
    requires IsLog(log) && Exact(m, log, mem) && mem.appliedi <= n <= |log| && n >= mem.consistIndex
    ensures var after := Replay(m, mem, log[mem.appliedi..n]);
      && after.v2 == OnceV2(m, log, n)
      && after.backend.image == OnceV3(m, log, n)
      && after.consistIndex == after.appliedi == n
  {
    ReplayExact(m, log, mem, n);
  }

  lemma ReplayOneMore(m: Machine, log: seq<Entry>, mem: Memory, k: nat)
    requires mem.appliedi <= k < |log|
    ensures Replay(m, mem, log[mem.appliedi..k + 1]) == ApplyEntry(m, Replay(m, mem, log[mem.appliedi..k]), log[k])
  {
    assert log[mem.appliedi..k + 1][..k - mem.appliedi] == log[mem.appliedi..k];
  }

  /** entries is a piece of the committed log. */
  ghost predicate Segment(log: seq<Entry>, entries: seq<Entry>) {
    entries != [] ==>
      && 1 <= entries[0].index
      && entries[0].index - 1 + |entries| <= |log|
      && entries == log[entries[0].index - 1..entries[0].index - 1 + |entries|]
  }

  /** What opening a snapshot's database finds. */
  datatype Database = NotFound | Found(backend: Backend)

  /** The apply loop's state: the stores, the consistent index and the progress. */
  class Applier {
    const machine: Machine
    ghost const log: seq<Entry>
    var v2: Image
    var v3: Image
    var savedIndex: nat
    var consistIndex: nat
    var appliedIndex: nat
    var appliedi: nat
    var snapi: nat

    ghost function Now(): Memory
      reads this
    {
      Memory(v2, Backend(v3, savedIndex), consistIndex, appliedi, snapi)
    }

    ghost predicate Valid()
      reads this
    {
      IsLog(log) && Exact(machine, log, Now()) && appliedIndex <= appliedi
    }

    /** A server that starts from a v2 image, a backend and a snapshot index. */
    constructor (m: Machine, ghost committed: seq<Entry>, image: Image, b: Backend, at: nat)
      requires IsLog(committed) && at <= b.index && Faithful(m, committed, b)
      requires image == OnceV2(m, committed, at)
      ensures machine == m && log == committed && Valid()
      ensures Now() == Memory(image, b, b.index, at, at)
    {
      machine, log := m, committed;
      v2, v3, savedIndex := image, b.image, b.index;
      consistIndex, appliedi, snapi := b.index, at, at;
      appliedIndex := 0;
    }

    method ApplyV3(op: Payload)
      modifies this`v3, this`savedIndex
      ensures v3 == machine.v3(old(v3), op)
      ensures savedIndex == if v3 != old(v3) then consistIndex else old(savedIndex)
    {
      var changed := machine.v3(v3, op);
      if changed != v3 {
        v3, savedIndex := changed, consistIndex;
      }
    }

    method ApplyEntryNormal(e: Entry)
      requires Valid() && e.body.Normal? && appliedi < |log| && log[appliedi] == e
      modifies this`v2, this`v3, this`savedIndex, this`consistIndex
      ensures Now().(appliedi := e.index) == ApplyEntry(machine, old(Now()), e)
    {
      var shouldApplyV3 := false;
      if e.index > consistIndex {
        consistIndex := e.index;
        shouldApplyV3 := true;
      }
      if e.body.request.Empty? { return; }
      if e.body.request.V2? {
        v2 := machine.v2(v2, e.body);
        return;
      }
      if !shouldApplyV3 { return; }
      ApplyV3(e.body.request.op);
    }

    method ApplyConfChange(e: Entry)
      requires Valid() && e.body.ConfChange? && appliedi < |log| && log[appliedi] == e
      modifies this`v2, this`consistIndex
      ensures Now().(appliedi := e.index) == ApplyEntry(machine, old(Now()), e)
    {
      if e.index > consistIndex {
        consistIndex := e.index;
      }
      v2 := machine.v2(v2, e.body);
    }

    /** apply: the entries continue the log right after what has been applied. */
    method Apply(es: seq<Entry>)
      requires Valid() && es != [] && es[0].index == appliedi + 1 && Segment(log, es)
      modifies this
      ensures Valid() && appliedIndex == appliedi == old(appliedi) + |es|
      ensures Now() == Replay(machine, old(Now()), log[old(appliedi)..appliedi])
    {
      hide OnceV2, OnceV3, Faithful, ApplyEntry, Exact;
      ghost var before := Now();
      for i := 0 to |es|
        invariant Valid() && appliedi == before.appliedi + i <= |log|
        invariant Now() == Replay(machine, before, log[before.appliedi..appliedi])
        invariant i > 0 ==> appliedIndex == appliedi
      {
        var e := es[i];
        assert e == log[appliedi];
        if e.body.Normal? {
          ApplyEntryNormal(e);
        } else {
          ApplyConfChange(e);
        }
        ReplayOneMore(machine, log, before, appliedi);
        appliedIndex := e.index;
        appliedi := e.index;
        ReplayExact(machine, log, before, appliedi);
      }
    }

    /** applyEntries: a batch may repeat entries that are applied already; one that leaves
        a gap is a panic, which is the result false here. */
    method ApplyEntries(entries: seq<Entry>) returns (ok: bool)
      requires Valid() && Segment(log, entries)
      modifies this
      ensures Valid() && (ok <==> entries == [] || entries[0].index <= old(appliedi) + 1)
      ensures !ok || entries == [] ==> Now() == old(Now())
      ensures ok && entries != [] ==>
        var last := entries[|entries| - 1].index;
        && appliedi == (if last > old(appliedi) then last else old(appliedi))
        && Now() == Replay(machine, old(Now()), log[old(appliedi)..appliedi])
    {
      if |entries| == 0 { return true; }
      var firsti := entries[0].index;
      if firsti > appliedi + 1 { return false; }
      var ents: seq<Entry> := [];
      if appliedi + 1 - firsti < |entries| {
        ents := entries[appliedi + 1 - firsti..];
      }
      if |ents| == 0 { return true; }
      assert ents == log[appliedi..firsti - 1 + |entries|];
      Apply(ents);
      return true;
    }

    /** kvstore.Commit before the backend is flushed: the consistent index goes
        into the open transaction. */
    method SaveIndex()
      requires Valid()
      modifies this`savedIndex
      ensures Valid() && savedIndex == consistIndex
    {
      savedIndex := consistIndex;
    }

    /** applySnapshot. It panics, which is the result false here, on a snapshot that is
        not ahead of the applied index and when the snapshot's database is not found;
        otherwise the database replaces the backend. */
    method ApplySnapshot(at: nat, image: Image, db: Database) returns (ok: bool)
      requires Valid() && at <= |log| && image == OnceV2(machine, log, at)
      requires db.Found? ==> Faithful(machine, log, db.backend) && db.backend.index >= at
      modifies this
      ensures Valid() && (ok <==> at > old(appliedi) && db.Found?)
      ensures Now() == if ok then Memory(image, db.backend, db.backend.index, at, at) else old(Now())
    {
      if at <= appliedi { return false; }
      if db.NotFound? { return false; }
      v3, savedIndex := db.backend.image, db.backend.index;
      consistIndex := savedIndex;
      v2 := image;
      appliedi := at;
      snapi := appliedi;
      return true;
    }

    /** createMergedSnapshotMessage: the v2 image at the applied index, and a
        database that is at least as new. */
    method CreateMergedSnapshotMessage() returns (at: nat, image: Image, db: Backend)
      requires Valid()
      modifies this`savedIndex
      ensures Valid() && Now() == old(Now()).(backend := Backend(v3, consistIndex))
      ensures at == appliedi && image == OnceV2(machine, log, at)
      ensures db == Backend(v3, consistIndex) && Faithful(machine, log, db) && db.index >= at
    {
      image := v2;
      SaveIndex();
      db := Backend(v3, savedIndex);
      at := appliedi;
    }
  }
}
