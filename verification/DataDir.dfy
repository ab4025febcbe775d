// The data directory as the code writes and reads it: saving a snapshot, deleting
// old databases, and choosing what a restart begins with.
module DataDirectory {
  import opened Applying
  import opened Recovery

  ghost predicate Descending(names: seq<nat>) {
    forall i, j :: 0 <= i < j < |names| ==> names[i] > names[j]
  }

  class DataDir {
    var backend: Backend
    var files: map<nat, Image>
    var records: set<nat>
    var dbs: map<nat, Backend>
    var commit: nat
    ghost var durable: nat
    /** The directory after each write of a snapshot, any of which a crash may leave. */
    ghost var written: seq<Disk>

    ghost function Contents(): Disk
      reads this
    {
      Disk(backend, files, records, dbs, commit, durable)
    }

    /** A directory as a crash leaves it: what survives is all there is. */
    constructor (ghost before: Disk, survives: nat, b: Backend, f: map<nat, Image>, r: set<nat>, d: map<nat, Backend>)
      requires before.durable <= survives <= before.commit
      requires b == before.backend && f == before.files && r == before.records && d == before.dbs
      ensures Contents() == before.(commit := survives, durable := survives)
    {
      backend, files, records, dbs, commit, durable := b, f, r, d, survives, survives;
      written := [];
    }

    method SaveSnapshotFile(at: nat, image: Image)
      modifies this`files, this`written
      ensures Contents() == WithFile(old(Contents()), at, image) && files == old(files)[at := image]
      ensures written == old(written) + [Contents()]
    {
      files := files[at := image];
      written := written + [Contents()];
    }

    method SaveSnapshotRecord(at: nat)
      modifies this`records, this`durable, this`written
      ensures Contents() == WithRecord(old(Contents()), at) && records == old(records) + {at} && durable == commit
      ensures written == old(written) + [Contents()]
    {
      records := records + {at};
      durable := commit;
      written := written + [Contents()];
    }

    /** SaveSnap: the file first, then the WAL record, so that a record never lacks its file. */
    method SaveSnap(at: nat, image: Image)
      modifies this`files, this`records, this`durable, this`written
      ensures Contents() == WithRecord(WithFile(old(Contents()), at, image), at)
      ensures written == old(written) + [WithFile(old(Contents()), at, image), Contents()]
      ensures (forall r :: r in old(records) ==> r in old(files)) ==>
        forall i :: |old(written)| <= i < |written| ==> written[i].records <= written[i].files.Keys
    {
      SaveSnapshotFile(at, image);
      SaveSnapshotRecord(at);
    }

    /** ReleaseSnapDBs over a listing of the snap directory: the databases older than
        the snapshot go, the snapshot's own stays. */
    method ReleaseSnapDBs(names: seq<nat>, at: nat)
      requires forall k :: k in dbs ==> k in names
      modifies this`dbs
      ensures Contents() == old(Contents()).(dbs := dbs)
      ensures forall k :: k in dbs <==> k in old(dbs) && k >= at
      ensures forall k :: k in dbs ==> dbs[k] == old(dbs)[k]
    {
      for i := 0 to |names|
        invariant dbs.Keys <= old(dbs).Keys && forall k :: k in dbs ==> dbs[k] == old(dbs)[k]
        invariant forall k :: k in old(dbs) && k >= at ==> k in dbs
        invariant forall j :: 0 <= j < i && names[j] < at ==> names[j] !in dbs
      {
        if names[i] < at {
          dbs := dbs - {names[i]};
        }
      }
    }

    /** ValidSnapshotEntries and LoadNewestAvailable: names lists the snapshot files,
        newest first. */
    method LoadNewestAvailable(names: seq<nat>) returns (newest: nat)
      requires Descending(names) && forall k :: k in files <==> k in names
      ensures IsNewest(Contents(), commit, newest)
    {
      var walSnaps := set r | r in records && r <= commit;
      for i := 0 to |names|
        invariant forall j :: 0 <= j < i ==> names[j] !in walSnaps
      {
        if names[i] in walSnaps {
          assert names[i] in files;
          return names[i];
        }
      }
      newest := 0;
    }

    /** openSnapshotBackend */
    method OpenSnapshotBackend(at: nat) returns (ok: bool)
      modifies this`backend, this`dbs
      ensures ok == (at in old(dbs))
      ensures ok ==> backend == old(dbs)[at] && dbs == old(dbs) - {at}
      ensures !ok ==> backend == old(backend) && dbs == old(dbs)
      ensures Contents() == if ok then Opened(old(Contents()), at) else old(Contents())
    {
      if at !in dbs { return false; }
      backend := dbs[at];
      dbs := dbs - {at};
      return true;
    }

    /** recoverSnapshotBackend */
    method RecoverSnapshotBackend(at: nat) returns (ok: bool)
      modifies this`backend, this`dbs
      ensures ok == (at <= old(backend).index || at in old(dbs))
      ensures backend == if ok && at > old(backend).index then old(dbs)[at] else old(backend)
      ensures ok && at != 0 ==> Contents() == RecoveredDisk(old(Contents()), at)
      ensures !ok ==> Contents() == old(Contents())
    {
      if at <= backend.index { return true; }
      ok := OpenSnapshotBackend(at);
    }

    /** NewServer on an existing WAL. Whatever run led to the crash, neither the missing
        database nor the mismatch of backend and snapshot is ever reported. */
    method NewServer(names: seq<nat>, m: Machine, ghost log: seq<Entry>, ghost before: State, ghost steps: seq<Step>)
      returns (ok: bool, server: Applier?, ghost newest: nat)
      requires Descending(names) && forall k :: k in files <==> k in names
      requires IsLog(log) && Run(m, log, steps, before)
      requires before.disk.durable <= commit <= before.disk.commit
      requires Contents() == before.disk.(commit := commit, durable := commit)
      modifies this`backend, this`dbs
      ensures ok && server != null && fresh(server) && server.Valid() && server.log == log
      ensures IsNewest(before.disk, commit, newest)
      ensures newest == 0 || (newest in before.disk.files &&
        (newest <= before.disk.backend.index || newest in before.disk.dbs))
      ensures Contents() == Restarted(before.disk, commit, newest).disk
      ensures server.Now() == Restarted(before.disk, commit, newest).mem
    {
      hide Run, Inv, OnceV2, OnceV3;
      RunKeeps(m, log, steps, before);
      var snapshot := LoadNewestAvailable(names);
      newest := snapshot;
      RestartSucceeds(m, log, before, commit, newest);
      var image: Image := [];
      server := null;
      if snapshot != 0 {
        image := files[snapshot];
        ok := RecoverSnapshotBackend(snapshot);
        if !ok { return; }
      }
      if snapshot != 0 && backend.index < snapshot { return false, null, newest; }
      ok := true;
      server := new Applier(m, log, image, backend, snapshot);
    }

    /** applyAll on the first piece of queued work: applySnapshot, which opens the
        snapshot's database, and applyEntries. It panics, which is the result false, exactly
        where the state machine does, and otherwise takes memory and disk where that does. */
    method ApplyAll(server: Applier, w: Work, entries: seq<Entry>, m: Machine, ghost log: seq<Entry>, ghost s: State)
      returns (ok: bool)
      requires server.Valid() && server.machine == m && server.log == log
      requires Inv(m, log, s) && Enabled(m, log, s, Step.ApplyWork) && w == s.queue[0]
      requires server.Now() == s.mem && Contents() == s.disk
      requires w.Entries? ==> 1 <= w.first <= w.last <= |log| && entries == log[w.first - 1..w.last]
      modifies this`backend, this`dbs, server
      ensures ok <==> !Panics(s, Step.ApplyWork)
      ensures ok ==>
        && server.Valid() && server.Now() == Next(m, log, s, Step.ApplyWork).mem
        && Contents() == Next(m, log, s, Step.ApplyWork).disk
    {
      hide OnceV2, OnceV3, Replay, Covered;
      match w
      case Install(at, image) =>
        if at <= server.appliedi { return false; }
        ok := OpenSnapshotBackend(at);
        if !ok { return; }
        ok := server.ApplySnapshot(at, image, Found(backend));
      case Entries(_, _) =>
        ok := server.ApplyEntries(entries);
    }
  }
}
