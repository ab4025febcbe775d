// One member's disk, the steps that write to it, and recovery after a crash
// between any two of them.
module Recovery {
  import opened Applying

  /** files holds the v2 images of the .snap files and dbs the .snap.db files, by
      index; records the indexes of the snapshot records in the WAL. commit is the
      commit index of the last HardState written, durable that of the last one
      known to be on disk. */
  datatype Disk = Disk(backend: Backend, files: map<nat, Image>, records: set<nat>,
                       dbs: map<nat, Backend>, commit: nat, durable: nat)

  datatype Stage = Created | FileSaved | Recorded | HardStateSaved
  datatype Job = Job(image: Image, stage: Stage)
  datatype Incoming = NoSnapshot | Snapshot(at: nat, image: Image, stage: Stage)

  /** What the raft loop has sent to the apply loop. */
  datatype Work = Entries(first: nat, last: nat) | Install(at: nat, image: Image)

  /** incoming is the leader's snapshot the raft loop is saving, saving the local
      snapshots under way; persisted and releasable hold the snapshots whose saving
      the apply loop, respectively the deletion of databases, may rely on. */
  datatype State = State(mem: Memory, disk: Disk, queue: seq<Work>, delivered: nat, incoming: Incoming,
                         saving: map<nat, Job>, persisted: set<nat>, releasable: set<nat>)

  datatype Step =
    | DeliverEntries(first: nat, last: nat)
    | ReceiveDatabase(at: nat, db: Backend)
    | ReceiveSnapshot(at: nat, image: Image)
    | SaveIncomingFile
    | SaveIncomingRecord
    | SaveIncomingHardState(commit: nat)
    | SyncIncoming
    | SaveHardState(commit: nat)
    | SaveHardStateEarly(commit: nat)
    | SyncWal
    | ApplyWork
    | CommitBackend
    | TriggerSnapshot
    | SendSnapshot
    | SaveLocalFile(at: nat)
    | SaveLocalRecord(at: nat)
    | DropLocal(at: nat)
    | DeleteDatabase(released: nat, at: nat)
    | Restart(commit: nat, newest: nat)

  /** storage.SaveSnap, in its two writes. Appending the record syncs the WAL. */
  function WithFile(d: Disk, at: nat, image: Image): Disk {
    d.(files := d.files[at := image])
  }

  function WithRecord(d: Disk, at: nat): Disk {
    d.(records := d.records + {at}, durable := d.commit)
  }

  /** openSnapshotBackend: the rename takes the database away from the snap directory. */
  function Opened(d: Disk, at: nat): Disk
    requires at in d.dbs
  {
    d.(backend := d.dbs[at], dbs := d.dbs - {at})
  }

  /** recoverSnapshotBackend */
  function RecoveredDisk(d: Disk, newest: nat): Disk
    requires newest == 0 || newest <= d.backend.index || newest in d.dbs
  {
    if newest == 0 || newest <= d.backend.index then d else Opened(d, newest)
  }

  /** kv.Commit: the consistent index is written with the state and flushed. */
  function Committed(mem: Memory): Memory {
    mem.(backend := Backend(mem.backend.image, mem.consistIndex))
  }

  /** The snapshot a restart picks when the last surviving HardState says commit: the
      newest file with a record that is not beyond it, 0 when there is none. */
  ghost predicate IsNewest(d: Disk, commit: nat, newest: nat) {
    && (newest != 0 ==> newest in d.files && newest in d.records && newest <= commit)
    && (forall s :: s in d.records && s in d.files && s <= commit ==> s <= newest)
  }

  function Last(w: Work): nat {
    if w.Entries? then w.last else w.at
  }

  /** The process starts over from what is on disk. */
  function Restarted(d: Disk, commit: nat, newest: nat): State
    requires newest == 0 || newest in d.files
    requires newest == 0 || newest <= d.backend.index || newest in d.dbs
  {
    var disk := RecoveredDisk(d, newest).(commit := commit, durable := commit);
    var image: Image := if newest == 0 then [] else d.files[newest];
    State(Memory(image, disk.backend, disk.backend.index, newest, newest),
          disk, [], newest, NoSnapshot, map[], {}, {})
  }

  /** What must hold for a step to be taken at all. With a snapshot, the hard state is
      saved after its record, or early, before its file, when committed entries of the
      same batch are not saved yet; it is then not saved once more. The entries and
      snapshots that arrive obey raft's contract: no gap, and snapshots only from ahead of
      what was delivered, with their database saved first. */
  ghost predicate Enabled(m: Machine, log: seq<Entry>, s: State, step: Step) {
    match step
    case DeliverEntries(first, last) => 1 <= first <= s.delivered + 1 && s.delivered < last <= |log|
    case ReceiveDatabase(at, db) => at <= db.index && Faithful(m, log, db)
    case ReceiveSnapshot(at, image) =>
      && s.incoming.NoSnapshot? && s.delivered < at <= |log| && at in s.disk.dbs
      && image == OnceV2(m, log, at)
    case SaveIncomingFile => s.incoming.Snapshot? && s.incoming.stage.Created?
    case SaveIncomingRecord => s.incoming.Snapshot? && s.incoming.stage.FileSaved?
    case SaveIncomingHardState(c) =>
      && s.incoming.Snapshot? && s.incoming.stage.Recorded?
      && s.disk.commit <= c <= |log| && s.incoming.at <= c
    case SyncIncoming =>
      && s.incoming.Snapshot?
      && (s.incoming.stage.HardStateSaved? || (s.incoming.stage.Recorded? && s.incoming.at <= s.disk.commit))
    case SaveHardState(c) => s.incoming.NoSnapshot? && s.disk.commit <= c <= |log|
    case SaveHardStateEarly(c) =>
      && s.incoming.Snapshot? && s.incoming.stage.Created?
      && s.disk.commit <= c <= |log| && s.incoming.at <= c
    case SyncWal => true
    case ApplyWork => s.queue != [] && (s.queue[0].Install? ==> s.queue[0].at in s.persisted)
    case CommitBackend => true
    case TriggerSnapshot => s.mem.appliedi > s.mem.snapi && s.disk.commit >= s.mem.appliedi
    case SendSnapshot => true
    case SaveLocalFile(at) => at in s.saving && s.saving[at].stage.Created?
    case SaveLocalRecord(at) => at in s.saving && s.saving[at].stage.FileSaved?
    case DropLocal(at) => true
    case DeleteDatabase(released, at) => released in s.releasable && at < released
    case Restart(c, newest) => s.disk.durable <= c <= s.disk.commit && IsNewest(s.disk, c, newest)
  }

  /** The apply loop reaches a panic: a gap before the next entries, or a snapshot
      that is not ahead or whose database cannot be opened. A restart that finds no
      database for its snapshot fails. */
  ghost predicate Panics(s: State, step: Step) {
    match step
    case ApplyWork =>
      && s.queue != []
      && match s.queue[0] {
           case Entries(first, last) => first > s.mem.appliedi + 1
           case Install(at, _) => at <= s.mem.appliedi || at !in s.disk.dbs
         }
    case Restart(_, newest) => newest != 0 && newest > s.disk.backend.index && newest !in s.disk.dbs
    case _ => false
  }

  ghost function Next(m: Machine, log: seq<Entry>, s: State, step: Step): State
    requires Enabled(m, log, s, step) && !Panics(s, step)
    requires s.mem.appliedi <= |log|
    requires s.queue != [] ==> Last(s.queue[0]) <= |log|
  {
    match step
    case DeliverEntries(first, last) => s.(queue := s.queue + [Entries(first, last)], delivered := last)
    case ReceiveDatabase(at, db) =>
      if at in s.disk.dbs then s else s.(disk := s.disk.(dbs := s.disk.dbs[at := db]))
    case ReceiveSnapshot(at, image) =>
      s.(queue := s.queue + [Install(at, image)], delivered := at, incoming := Snapshot(at, image, Created))
    case SaveIncomingFile =>
      s.(disk := WithFile(s.disk, s.incoming.at, s.incoming.image), incoming := s.incoming.(stage := FileSaved))
    case SaveIncomingRecord =>
      s.(disk := WithRecord(s.disk, s.incoming.at), incoming := s.incoming.(stage := Recorded))
    case SaveIncomingHardState(c) =>
      s.(disk := s.disk.(commit := c), incoming := s.incoming.(stage := HardStateSaved))
    case SyncIncoming =>
      s.(disk := s.disk.(durable := s.disk.commit), incoming := NoSnapshot,
         persisted := s.persisted + {s.incoming.at}, releasable := s.releasable + {s.incoming.at})
    case SaveHardState(c) => s.(disk := s.disk.(commit := c))
    case SaveHardStateEarly(c) => s.(disk := s.disk.(commit := c))
    case SyncWal => s.(disk := s.disk.(durable := s.disk.commit))
    case ApplyWork =>
      (match s.queue[0]
       case Entries(_, last) =>
         s.(queue := s.queue[1..],
            mem := if last > s.mem.appliedi then Replay(m, s.mem, log[s.mem.appliedi..last]) else s.mem)
       case Install(at, image) =>
         var disk := Opened(s.disk, at);
         s.(queue := s.queue[1..], disk := disk, mem := Memory(image, disk.backend, disk.backend.index, at, at)))
    case CommitBackend => s.(disk := s.disk.(backend := s.mem.backend))
    case TriggerSnapshot =>
      var mem := Committed(s.mem).(snapi := s.mem.appliedi);
      s.(mem := mem, disk := s.disk.(backend := mem.backend),
         saving := s.saving[s.mem.appliedi := Job(s.mem.v2, Created)])
    case SendSnapshot =>
      s.(mem := Committed(s.mem), disk := s.disk.(backend := Committed(s.mem).backend))
    case SaveLocalFile(at) =>
      s.(disk := WithFile(s.disk, at, s.saving[at].image),
         saving := s.saving[at := s.saving[at].(stage := FileSaved)])
    case SaveLocalRecord(at) =>
      s.(disk := WithRecord(s.disk, at), saving := s.saving - {at}, releasable := s.releasable + {at})
    case DropLocal(at) => s.(saving := s.saving - {at})
    case DeleteDatabase(_, at) => s.(disk := s.disk.(dbs := s.disk.dbs - {at}))
    case Restart(c, newest) => Restarted(s.disk, c, newest)
  }

  // ----- the invariant -----

  ghost predicate ImagesFaithful(m: Machine, log: seq<Entry>, files: map<nat, Image>) {
    forall k :: k in files ==> k <= |log| && files[k] == OnceV2(m, log, k)
  }

  ghost predicate DatabasesFaithful(m: Machine, log: seq<Entry>, dbs: map<nat, Backend>) {
    forall k :: k in dbs ==> k <= dbs[k].index && Faithful(m, log, dbs[k])
  }

  /** A later snapshot that no crash can hide. */
  ghost predicate Superseded(d: Disk, at: nat) {
    exists s :: s in d.records && at < s <= d.durable
  }

  /** Should a restart pick this snapshot, it finds a v3 state that is not older. */
  ghost predicate Covered(d: Disk, appliedi: nat, at: nat) {
    || at in d.dbs
    || Superseded(d, at)
    || (at <= d.durable && at <= appliedi && at <= d.backend.index)
  }

  ghost predicate DiskOk(m: Machine, log: seq<Entry>, d: Disk, appliedi: nat) {
    && Faithful(m, log, d.backend)
    && ImagesFaithful(m, log, d.files)
    && DatabasesFaithful(m, log, d.dbs)
    && d.durable <= d.commit <= |log|
    && (forall at :: at in d.records ==> at in d.files && Covered(d, appliedi, at))
  }

  /** A local snapshot under way: everything a restart needs is on disk already. */
  ghost predicate JobOk(m: Machine, log: seq<Entry>, d: Disk, appliedi: nat, at: nat, job: Job) {
    && at <= appliedi <= |log| && at <= d.commit && at <= d.backend.index
    && job.image == OnceV2(m, log, at)
    && (!job.stage.Created? ==> at in d.files)
  }

  ghost predicate SavingOk(m: Machine, log: seq<Entry>, d: Disk, appliedi: nat, saving: map<nat, Job>) {
    forall at :: at in saving ==> JobOk(m, log, d, appliedi, at, saving[at])
  }

  ghost predicate IncomingOk(m: Machine, log: seq<Entry>, s: State) {
    s.incoming.Snapshot? ==>
      && s.incoming.at <= |log|
      && s.incoming.image == OnceV2(m, log, s.incoming.at)
      && s.incoming.at in s.disk.dbs
      && s.incoming.at !in s.persisted
      && Waiting(s.queue, s.incoming.at)
      && (!s.incoming.stage.Created? ==> s.incoming.at in s.disk.files)
      && (s.incoming.stage.Recorded? || s.incoming.stage.HardStateSaved? ==> s.incoming.at in s.disk.records)
      && (s.incoming.stage.HardStateSaved? ==> s.incoming.at <= s.disk.commit)
      && (forall k :: k in s.releasable ==> k <= s.incoming.at)
  }

  ghost predicate Waiting(queue: seq<Work>, at: nat) {
    exists i :: 0 <= i < |queue| && queue[i].Install? && queue[i].at == at
  }

  /** The queue continues the applied entries without a gap up to what was delivered. */
  ghost predicate Chain(m: Machine, log: seq<Entry>, queue: seq<Work>, from: nat, to: nat) {
    if queue == [] then from == to
    else
      && from < Last(queue[0]) <= |log|
      && (match queue[0]
          case Entries(first, last) => 1 <= first <= from + 1
          case Install(at, image) => image == OnceV2(m, log, at))
      && Chain(m, log, queue[1..], Last(queue[0]), to)
  }

  ghost predicate SnapshotsKept(s: State) {
    && (forall k :: k in s.persisted ==> k in s.disk.records && k <= s.disk.durable && k <= s.delivered)
    && (forall k :: k in s.releasable ==> k in s.disk.records && k <= s.disk.durable && k <= s.delivered)
  }

  ghost predicate LaterReleasable(releasable: set<nat>, at: nat) {
    exists k :: k in releasable && at < k
  }

  /** A snapshot that waits in the queue lacks its database only when a later one has been saved. */
  ghost predicate GoneOnlyBehind(s: State) {
    forall i :: 0 <= i < |s.queue| && s.queue[i].Install? && s.queue[i].at in s.persisted &&
      s.queue[i].at !in s.disk.dbs
      ==> LaterReleasable(s.releasable, s.queue[i].at)
  }

  ghost predicate Inv(m: Machine, log: seq<Entry>, s: State) {
    && IsLog(log)
    && Exact(m, log, s.mem)
    && DiskOk(m, log, s.disk, s.mem.appliedi)
    && s.disk.backend.index <= s.mem.backend.index
    && SavingOk(m, log, s.disk, s.mem.appliedi, s.saving)
    && IncomingOk(m, log, s)
    && Chain(m, log, s.queue, s.mem.appliedi, s.delivered)
    && SnapshotsKept(s)
    && GoneOnlyBehind(s)
  }

  function Blank(): State {
    var none := Backend([], 0);
    State(Memory([], none, 0, 0, 0), Disk(none, map[], {}, map[], 0, 0), [], 0, NoSnapshot, map[], {}, {})
  }

  lemma BlankOk(m: Machine, log: seq<Entry>)
    requires IsLog(log)
    ensures Inv(m, log, Blank())
  {
  }

  lemma {:induction false} ChainAppend(m: Machine, log: seq<Entry>, queue: seq<Work>, from: nat, to: nat, w: Work)
    requires Chain(m, log, queue, from, to) && Chain(m, log, [w], to, Last(w))
    ensures Chain(m, log, queue + [w], from, Last(w))
  {
    if queue == [] {
      assert queue + [w] == [w];
    } else {
      ChainAppend(m, log, queue[1..], Last(queue[0]), to, w);
      assert (queue + [w])[1..] == queue[1..] + [w];
    }
  }

  /** Queued snapshots are ahead of what is applied and not ahead of what was delivered. */
  lemma {:induction false} ChainBounds(m: Machine, log: seq<Entry>, queue: seq<Work>, from: nat, to: nat)
    requires Chain(m, log, queue, from, to)
    ensures from <= to
    ensures forall i :: 0 <= i < |queue| ==> from < Last(queue[i]) <= to
  {
    if queue != [] {
      ChainBounds(m, log, queue[1..], Last(queue[0]), to);
      forall i | 0 <= i < |queue|
        ensures from < Last(queue[i]) <= to
      {
        assert i > 0 ==> queue[i] == queue[1..][i - 1];
      }
    }
  }

  // ----- every step keeps the invariant -----

  lemma DeliverKeeps(m: Machine, log: seq<Entry>, s: State, step: Step)
    requires Inv(m, log, s) && Enabled(m, log, s, step)
    requires step.DeliverEntries? || step.ReceiveSnapshot?
    ensures Inv(m, log, Next(m, log, s, step))
  {
    var w := if step.DeliverEntries? then Entries(step.first, step.last) else Install(step.at, step.image);
    ChainBounds(m, log, s.queue, s.mem.appliedi, s.delivered);
    assert Chain(m, log, [], Last(w), Last(w));
    assert [w][1..] == [];
    ChainAppend(m, log, s.queue, s.mem.appliedi, s.delivered, w);
    var t := Next(m, log, s, step);
    assert t.queue[|s.queue|] == w;
    if s.incoming.Snapshot? {
      var i :| 0 <= i < |s.queue| && s.queue[i].Install? && s.queue[i].at == s.incoming.at;
      assert t.queue[i] == s.queue[i];
    }
  }

  /** A step that only adds files, records, databases or commit, and moves the
      durable commit and the backend forward, uncovers no snapshot. */
  lemma StaysCovered(d: Disk, e: Disk, appliedi: nat, at: nat)
    requires Covered(d, appliedi, at)
    requires d.records <= e.records && d.dbs.Keys <= e.dbs.Keys
    requires d.durable <= e.durable && d.backend.index <= e.backend.index
    ensures Covered(e, appliedi, at)
  {
    if Superseded(d, at) {
      var k :| k in d.records && at < k <= d.durable;
      assert k in e.records;
    }
  }

  lemma DiskGrows(m: Machine, log: seq<Entry>, d: Disk, e: Disk, appliedi: nat)
    requires DiskOk(m, log, d, appliedi)
    requires d.records <= e.records && d.dbs.Keys <= e.dbs.Keys && d.files.Keys <= e.files.Keys
    requires d.durable <= e.durable <= e.commit <= |log| && d.backend.index <= e.backend.index
    requires Faithful(m, log, e.backend) && ImagesFaithful(m, log, e.files) && DatabasesFaithful(m, log, e.dbs)
    requires forall at :: at in e.records && at !in d.records ==> at in e.files && Covered(e, appliedi, at)
    ensures DiskOk(m, log, e, appliedi)
  {
    forall at | at in e.records
      ensures at in e.files && Covered(e, appliedi, at)
    {
      if at in d.records { StaysCovered(d, e, appliedi, at); }
    }
  }

  lemma FileAdded(m: Machine, log: seq<Entry>, files: map<nat, Image>, at: nat)
    requires ImagesFaithful(m, log, files) && at <= |log|
    ensures ImagesFaithful(m, log, files[at := OnceV2(m, log, at)])
  {
  }

  lemma DatabaseAdded(m: Machine, log: seq<Entry>, dbs: map<nat, Backend>, at: nat, db: Backend)
    requires DatabasesFaithful(m, log, dbs) && at <= db.index && Faithful(m, log, db)
    ensures DatabasesFaithful(m, log, dbs[at := db])
  {
  }

  lemma ReceiveKeeps(m: Machine, log: seq<Entry>, s: State, step: Step)
    requires Inv(m, log, s) && Enabled(m, log, s, step) && step.ReceiveDatabase?
    ensures Inv(m, log, Next(m, log, s, step))
  {
    var t := Next(m, log, s, step);
    DatabaseAdded(m, log, s.disk.dbs, step.at, step.db);
    hide OnceV2, OnceV3, Chain, ImagesFaithful, DatabasesFaithful, Superseded, Covered, Exact;
    DiskGrows(m, log, s.disk, t.disk, s.mem.appliedi);
  }

  lemma WalStepKeeps(m: Machine, log: seq<Entry>, s: State, step: Step)
    requires Inv(m, log, s) && Enabled(m, log, s, step)
    requires step.SaveHardState? || step.SaveHardStateEarly? || step.SyncWal?
    ensures Inv(m, log, Next(m, log, s, step))
  {
    var t := Next(m, log, s, step);
    hide OnceV2, OnceV3, Chain, ImagesFaithful, DatabasesFaithful, Superseded, Covered, Exact, Faithful;
    DiskGrows(m, log, s.disk, t.disk, s.mem.appliedi);
    SavingKept(m, log, s, t);
    GoneKept(s, t);
    hide DiskOk, SavingOk, GoneOnlyBehind;
  }

  lemma BackendStepKeeps(m: Machine, log: seq<Entry>, s: State, step: Step)
    requires Inv(m, log, s) && Enabled(m, log, s, step) && (step.CommitBackend? || step.SendSnapshot?)
    ensures Inv(m, log, Next(m, log, s, step))
  {
    var t := Next(m, log, s, step);
    hide OnceV2, OnceV3, Chain, ImagesFaithful, DatabasesFaithful, Superseded, Covered;
    DiskGrows(m, log, s.disk, t.disk, s.mem.appliedi);
  }

  lemma DropKeeps(m: Machine, log: seq<Entry>, s: State, step: Step)
    requires Inv(m, log, s) && step.DropLocal?
    ensures Inv(m, log, Next(m, log, s, step))
  {
    hide OnceV2, OnceV3, ImagesFaithful, DatabasesFaithful, Superseded, Covered, Faithful, JobOk;
  }

  /** Nothing happens to the queue, and no database goes. */
  lemma GoneKept(s: State, t: State)
    requires GoneOnlyBehind(s) && t.queue == s.queue
    requires s.disk.dbs.Keys <= t.disk.dbs.Keys && s.releasable <= t.releasable
    requires t.persisted <= s.persisted + t.disk.dbs.Keys
    ensures GoneOnlyBehind(t)
  {
    forall i | 0 <= i < |t.queue| && t.queue[i].Install? && t.queue[i].at in t.persisted && t.queue[i].at !in t.disk.dbs
      ensures LaterReleasable(t.releasable, t.queue[i].at)
    {
      assert t.queue[i] == s.queue[i];
      assert LaterReleasable(s.releasable, s.queue[i].at);
    }
  }

  lemma IncomingStepKeeps(m: Machine, log: seq<Entry>, s: State, step: Step)
    requires Inv(m, log, s) && Enabled(m, log, s, step)
    requires step.SaveIncomingFile? || step.SaveIncomingRecord? || step.SaveIncomingHardState? || step.SyncIncoming?
    ensures Inv(m, log, Next(m, log, s, step))
  {
    var t := Next(m, log, s, step);
    GoneKept(s, t);
    IncomingDiskKeeps(m, log, s, step);
    IncomingBounds(m, log, s);
    assert SavingOk(m, log, t.disk, t.mem.appliedi, t.saving) by { hide *; SavingKept(m, log, s, t); }
    hide GoneOnlyBehind, DiskOk, SavingOk, OnceV2, OnceV3, Chain, Exact;
  }

  lemma IncomingBounds(m: Machine, log: seq<Entry>, s: State)
    requires IncomingOk(m, log, s) && Chain(m, log, s.queue, s.mem.appliedi, s.delivered)
    ensures s.incoming.Snapshot? ==> s.incoming.at <= s.delivered
  {
    ChainBounds(m, log, s.queue, s.mem.appliedi, s.delivered);
  }

  lemma SavingKept(m: Machine, log: seq<Entry>, s: State, t: State)
    requires SavingOk(m, log, s.disk, s.mem.appliedi, s.saving)
    requires t.mem == s.mem && t.saving == s.saving
    requires s.disk.files.Keys <= t.disk.files.Keys
    requires s.disk.commit <= t.disk.commit && s.disk.backend == t.disk.backend
    ensures SavingOk(m, log, t.disk, t.mem.appliedi, t.saving)
  {
  }

  lemma IncomingDiskKeeps(m: Machine, log: seq<Entry>, s: State, step: Step)
    requires Inv(m, log, s) && Enabled(m, log, s, step)
    requires step.SaveIncomingFile? || step.SaveIncomingRecord? || step.SaveIncomingHardState? || step.SyncIncoming?
    ensures var t := Next(m, log, s, step);
      DiskOk(m, log, t.disk, t.mem.appliedi)
  {
    var t := Next(m, log, s, step);
    FileAdded(m, log, s.disk.files, s.incoming.at);
    assert Covered(t.disk, s.mem.appliedi, s.incoming.at);
    hide OnceV2, OnceV3, Chain, ImagesFaithful, DatabasesFaithful, Superseded, Covered, Exact, JobOk, GoneOnlyBehind;
    DiskGrows(m, log, s.disk, t.disk, s.mem.appliedi);
  }

  /** The flushed backend, and the commit index on disk, cover the new snapshot. */
  lemma TriggerKeeps(m: Machine, log: seq<Entry>, s: State, step: Step)
    requires Inv(m, log, s) && Enabled(m, log, s, step) && step.TriggerSnapshot?
    ensures Inv(m, log, Next(m, log, s, step))
  {
    var t := Next(m, log, s, step);
    assert JobOk(m, log, t.disk, t.mem.appliedi, s.mem.appliedi, t.saving[s.mem.appliedi]);
    hide OnceV2, OnceV3, Chain, ImagesFaithful, DatabasesFaithful, Superseded, Covered;
    DiskGrows(m, log, s.disk, t.disk, s.mem.appliedi);
  }

  lemma LocalFileKeeps(m: Machine, log: seq<Entry>, s: State, step: Step)
    requires Inv(m, log, s) && Enabled(m, log, s, step) && step.SaveLocalFile?
    ensures Inv(m, log, Next(m, log, s, step))
  {
    var t := Next(m, log, s, step);
    assert JobOk(m, log, s.disk, s.mem.appliedi, step.at, s.saving[step.at]);
    FileAdded(m, log, s.disk.files, step.at);
    hide OnceV2, OnceV3, Chain, ImagesFaithful, DatabasesFaithful, Superseded, Covered, Exact, Faithful;
    DiskGrows(m, log, s.disk, t.disk, s.mem.appliedi);
  }

  lemma LocalRecordKeeps(m: Machine, log: seq<Entry>, s: State, step: Step)
    requires Inv(m, log, s) && Enabled(m, log, s, step) && step.SaveLocalRecord?
    ensures Inv(m, log, Next(m, log, s, step))
  {
    var t := Next(m, log, s, step);
    ChainBounds(m, log, s.queue, s.mem.appliedi, s.delivered);
    assert JobOk(m, log, s.disk, s.mem.appliedi, step.at, s.saving[step.at]);
    assert Covered(t.disk, s.mem.appliedi, step.at);
    if s.incoming.Snapshot? { assert step.at <= s.incoming.at; }
    hide OnceV2, OnceV3, Chain, ImagesFaithful, DatabasesFaithful, Superseded, Covered, Exact, Faithful;
    DiskGrows(m, log, s.disk, t.disk, s.mem.appliedi);
  }

  /** Deleting the databases before a saved snapshot uncovers nothing: what they
      covered is superseded. */
  lemma DeleteKeeps(m: Machine, log: seq<Entry>, s: State, step: Step)
    requires Inv(m, log, s) && Enabled(m, log, s, step) && step.DeleteDatabase?
    ensures Inv(m, log, Next(m, log, s, step))
  {
    var t := Next(m, log, s, step);
    forall at | at in t.disk.records
      ensures Covered(t.disk, t.mem.appliedi, at)
    {
      assert Covered(s.disk, s.mem.appliedi, at);
      if at == step.at {
        assert step.released in t.disk.records && at < step.released <= t.disk.durable;
      } else if Superseded(s.disk, at) {
        var k :| k in s.disk.records && at < k <= s.disk.durable;
        assert k in t.disk.records;
      }
    }
  }

  ghost predicate DatabaseGone(s: State) {
    s.queue != [] && s.queue[0].Install? && s.queue[0].at !in s.disk.dbs
  }

  /** The opened database covers what the old backend and the database covered. */
  lemma OpenedKeeps(m: Machine, log: seq<Entry>, d: Disk, appliedi: nat, at: nat, saving: map<nat, Job>)
    requires DiskOk(m, log, d, appliedi) && SavingOk(m, log, d, appliedi, saving)
    requires at in d.dbs && appliedi < at <= |log| && at <= d.durable
    ensures DiskOk(m, log, Opened(d, at), at) && SavingOk(m, log, Opened(d, at), at, saving)
  {
    var e := Opened(d, at);
    assert at <= d.dbs[at].index && Faithful(m, log, d.dbs[at]);
    hide Faithful, OnceV2, OnceV3;
    forall k | k in e.records
      ensures k in e.files && Covered(e, at, k)
    {
      assert Covered(d, appliedi, k);
      if Superseded(d, k) {
        var later :| later in d.records && k < later <= d.durable;
        assert later in e.records;
      }
    }
    forall k | k in saving
      ensures JobOk(m, log, e, at, k, saving[k])
    {
      assert JobOk(m, log, d, appliedi, k, saving[k]);
    }
  }

  lemma AppliedMore(m: Machine, log: seq<Entry>, d: Disk, appliedi: nat, more: nat, saving: map<nat, Job>)
    requires DiskOk(m, log, d, appliedi) && SavingOk(m, log, d, appliedi, saving) && appliedi <= more <= |log|
    ensures DiskOk(m, log, d, more) && SavingOk(m, log, d, more, saving)
  {
    forall k | k in saving
      ensures JobOk(m, log, d, more, k, saving[k])
    {
      assert JobOk(m, log, d, appliedi, k, saving[k]);
    }
    hide OnceV2, Superseded;
  }

  lemma ApplyKeeps(m: Machine, log: seq<Entry>, s: State, step: Step)
    requires Inv(m, log, s) && Enabled(m, log, s, step) && step.ApplyWork?
    ensures Panics(s, step) <==> DatabaseGone(s)
    ensures !Panics(s, step) ==> Inv(m, log, Next(m, log, s, step))
  {
    if !DatabaseGone(s) {
      var t, w := Next(m, log, s, step), s.queue[0];
      ChainBounds(m, log, s.queue[1..], Last(w), s.delivered);
      GoneShift(s, t);
      IncomingShift(m, log, s, t);
      hide GoneOnlyBehind, IncomingOk;
      if w.Entries? {
        ReplayExact(m, log, s.mem, w.last);
        AppliedMore(m, log, s.disk, s.mem.appliedi, t.mem.appliedi, s.saving);
      } else {
        OpenedKeeps(m, log, s.disk, s.mem.appliedi, w.at, s.saving);
        assert w.at in s.disk.dbs && w.at <= s.disk.dbs[w.at].index;
      }
      hide Replay, OnceV2, OnceV3, SavingOk, Covered, ImagesFaithful;
    }
  }

  lemma IncomingShift(m: Machine, log: seq<Entry>, s: State, t: State)
    requires IncomingOk(m, log, s) && s.queue != [] && t.queue == s.queue[1..]
    requires s.queue[0].Install? ==> s.queue[0].at in s.persisted
    requires t == s.(queue := t.queue, disk := t.disk, mem := t.mem)
    requires t.disk == s.disk.(backend := t.disk.backend, dbs := t.disk.dbs)
    requires s.disk.dbs.Keys - (if s.queue[0].Install? then {s.queue[0].at} else {}) <= t.disk.dbs.Keys
    ensures IncomingOk(m, log, t)
  {
    if s.incoming.Snapshot? {
      var i :| 0 <= i < |s.queue| && s.queue[i].Install? && s.queue[i].at == s.incoming.at;
      assert i > 0;
      assert t.queue[i - 1] == s.queue[i];
    }
  }

  /** The snapshots that wait behind the work just taken are later ones. */
  lemma GoneShift(s: State, t: State)
    requires GoneOnlyBehind(s) && s.queue != [] && t.queue == s.queue[1..]
    requires forall i :: 0 <= i < |s.queue[1..]| ==> Last(s.queue[0]) < Last(s.queue[1..][i])
    requires t.persisted == s.persisted && t.releasable == s.releasable
    requires s.disk.dbs.Keys - {Last(s.queue[0])} <= t.disk.dbs.Keys
    ensures GoneOnlyBehind(t)
  {
    forall i | 0 <= i < |t.queue| && t.queue[i].Install? && t.queue[i].at in t.persisted && t.queue[i].at !in t.disk.dbs
      ensures LaterReleasable(t.releasable, t.queue[i].at)
    {
      assert t.queue[i] == s.queue[i + 1];
    }
  }

  lemma RestartKeeps(m: Machine, log: seq<Entry>, s: State, step: Step)
    requires Inv(m, log, s) && Enabled(m, log, s, step) && step.Restart?
    ensures !Panics(s, step)
    ensures Inv(m, log, Next(m, log, s, step))
  {
  }

  /** The apply loop panics in no state that keeps the invariant unless the database of
      the snapshot it is to install is gone, and no restart fails: the invariant holds
      again whatever happens. */
  lemma StepKeeps(m: Machine, log: seq<Entry>, s: State, step: Step)
    requires Inv(m, log, s) && Enabled(m, log, s, step)
    ensures Panics(s, step) <==> step.ApplyWork? && DatabaseGone(s)
    ensures !Panics(s, step) ==> Inv(m, log, Next(m, log, s, step))
  {
    hide Inv, Enabled, DatabaseGone;
    match step
    case DeliverEntries(_, _) => DeliverKeeps(m, log, s, step);
    case ReceiveSnapshot(_, _) => DeliverKeeps(m, log, s, step);
    case ReceiveDatabase(_, _) => ReceiveKeeps(m, log, s, step);
    case SaveHardState(_) => WalStepKeeps(m, log, s, step);
    case SaveHardStateEarly(_) => WalStepKeeps(m, log, s, step);
    case SyncWal => WalStepKeeps(m, log, s, step);
    case CommitBackend => BackendStepKeeps(m, log, s, step);
    case SendSnapshot => BackendStepKeeps(m, log, s, step);
    case DropLocal(_) => DropKeeps(m, log, s, step);
    case ApplyWork => ApplyKeeps(m, log, s, step);
    case TriggerSnapshot => TriggerKeeps(m, log, s, step);
    case SaveLocalFile(_) => LocalFileKeeps(m, log, s, step);
    case SaveLocalRecord(_) => LocalRecordKeeps(m, log, s, step);
    case DeleteDatabase(_, _) => DeleteKeeps(m, log, s, step);
    case Restart(_, _) => RestartKeeps(m, log, s, step);
    case _ => IncomingStepKeeps(m, log, s, step);
  }

  /** From one state to another in so many steps. */
  ghost predicate Leads(m: Machine, log: seq<Entry>, r: State, steps: seq<Step>, s: State) {
    if steps == [] then s == r
    else
      var last := |steps| - 1;
      exists q :: Leads(m, log, r, steps[..last], q) && Goes(m, log, q, steps[last], s)
  }

  ghost predicate Goes(m: Machine, log: seq<Entry>, r: State, step: Step, s: State) {
    && Enabled(m, log, r, step) && !Panics(r, step)
    && r.mem.appliedi <= |log| && (r.queue != [] ==> Last(r.queue[0]) <= |log|)
    && s == Next(m, log, r, step)
  }

  /** A run of the member from an empty data directory, crashes included. */
  ghost predicate Run(m: Machine, log: seq<Entry>, steps: seq<Step>, s: State) {
    Leads(m, log, Blank(), steps, s)
  }

  lemma {:induction false} LeadsKeeps(m: Machine, log: seq<Entry>, r: State, steps: seq<Step>, s: State)
    requires Inv(m, log, r) && Leads(m, log, r, steps, s)
    ensures Inv(m, log, s)
  {
    if steps != [] {
      var last := |steps| - 1;
      var q :| Leads(m, log, r, steps[..last], q) && Goes(m, log, q, steps[last], s);
      LeadsKeeps(m, log, r, steps[..last], q);
      StepKeeps(m, log, q, steps[last]);
    }
  }

  lemma RunKeeps(m: Machine, log: seq<Entry>, steps: seq<Step>, s: State)
    requires IsLog(log) && Run(m, log, steps, s)
    ensures Inv(m, log, s)
  {
    BlankOk(m, log);
    LeadsKeeps(m, log, Blank(), steps, s);
  }

  /** At any point of any run, whatever is taken next, a panic is reached exactly when
      the apply loop is to install a snapshot whose database is gone. */
  lemma PanicsExactly(m: Machine, log: seq<Entry>, steps: seq<Step>, s: State, step: Step)
    requires IsLog(log) && Run(m, log, steps, s) && Enabled(m, log, s, step)
    ensures Panics(s, step) <==> step.ApplyWork? && DatabaseGone(s)
  {
    hide Inv, Run, Enabled, DatabaseGone;
    RunKeeps(m, log, steps, s);
    StepKeeps(m, log, s, step);
  }

  lemma RestartSucceeds(m: Machine, log: seq<Entry>, s: State, commit: nat, newest: nat)
    requires Inv(m, log, s) && s.disk.durable <= commit <= s.disk.commit && IsNewest(s.disk, commit, newest)
    ensures newest == 0 || (newest in s.disk.files && (newest <= s.disk.backend.index || newest in s.disk.dbs))
    ensures var mem := Restarted(s.disk, commit, newest).mem;
      Exact(m, log, mem) && mem.appliedi == newest
  {
    StepKeeps(m, log, s, Restart(commit, newest));
    assert newest != 0 ==> newest in s.disk.files;
  }

  /** A crash at any point of any run, with any commit index that may have reached
      the disk: the restart finds the database it needs, starts with a consistent
      index that is not behind the snapshot, and once the log has been replayed both
      stores are what applying every entry exactly once gives. */
  lemma ExactlyOnce(m: Machine, log: seq<Entry>, steps: seq<Step>, s: State, commit: nat, newest: nat, n: nat)
    requires IsLog(log) && Run(m, log, steps, s)
    requires s.disk.durable <= commit <= s.disk.commit && IsNewest(s.disk, commit, newest)
    ensures newest == 0 || newest <= s.disk.backend.index || newest in s.disk.dbs
    ensures var mem := Restarted(s.disk, commit, newest).mem;
      && mem.appliedi == newest <= mem.consistIndex <= |log|
      && (mem.consistIndex <= n <= |log| ==>
            var after := Replay(m, mem, log[newest..n]);
            after.v2 == OnceV2(m, log, n) && after.backend.image == OnceV3(m, log, n))
  {
    hide Inv, Run, IsNewest, OnceV2, OnceV3;
    RunKeeps(m, log, steps, s);
    RestartSucceeds(m, log, s, commit, newest);
    var mem := Restarted(s.disk, commit, newest).mem;
    if mem.consistIndex <= n <= |log| { CaughtUp(m, log, mem, n); }
  }

  /** Between crashes the stores are never ahead of or behind their indexes. */
  lemma StoresExact(m: Machine, log: seq<Entry>, steps: seq<Step>, s: State)
    requires IsLog(log) && Run(m, log, steps, s)
    ensures s.mem.appliedi <= s.mem.consistIndex <= |log|
    ensures s.mem.v2 == OnceV2(m, log, s.mem.appliedi)
    ensures s.mem.backend.image == OnceV3(m, log, s.mem.consistIndex)
  {
    RunKeeps(m, log, steps, s);
  }

  // ----- what a crash cannot take back -----

  /** Files, records and the durable commit index only grow; a database that stays keeps
      its content. */
  ghost predicate Forward(d: Disk, e: Disk) {
    && d.files.Keys <= e.files.Keys && d.records <= e.records && d.durable <= e.durable
    && forall k :: k in d.dbs && k in e.dbs ==> e.dbs[k] == d.dbs[k]
  }

  lemma StepForward(m: Machine, log: seq<Entry>, s: State, step: Step)
    requires Inv(m, log, s) && Enabled(m, log, s, step) && !Panics(s, step)
    ensures Forward(s.disk, Next(m, log, s, step).disk)
  {
    hide OnceV2, OnceV3, Replay, Chain, Covered, Exact;
  }

  /** A snapshot on record, with its file, within what no crash can hide. */
  ghost predicate Found(d: Disk, at: nat) {
    at in d.records && at in d.files && at <= d.durable
  }

  lemma {:induction false} StaysFound(m: Machine, log: seq<Entry>, s: State, steps: seq<Step>, t: State, at: nat)
    requires Inv(m, log, s) && Leads(m, log, s, steps, t) && Found(s.disk, at)
    ensures Found(t.disk, at)
  {
    if steps != [] {
      var last := |steps| - 1;
      var q :| Leads(m, log, s, steps[..last], q) && Goes(m, log, q, steps[last], t);
      LeadsKeeps(m, log, s, steps[..last], q);
      hide Inv, Enabled, Next, Panics;
      StaysFound(m, log, s, steps[..last], q, at);
      StepForward(m, log, q, steps[last]);
    }
  }

  /** A snapshot that has been saved is never forgotten: whatever happens later, crashes
      and deletions included, a restart begins there or at a later one. */
  lemma SavedIsFound(m: Machine, log: seq<Entry>, before: seq<Step>, s: State, at: nat, later: seq<Step>, t: State,
                     commit: nat, newest: nat)
    requires IsLog(log) && Run(m, log, before, s) && at in s.releasable && Leads(m, log, s, later, t)
    requires t.disk.durable <= commit <= t.disk.commit && IsNewest(t.disk, commit, newest)
    ensures newest >= at
  {
    RunKeeps(m, log, before, s);
    assert Found(s.disk, at);
    hide Inv, Run;
    StaysFound(m, log, s, later, t, at);
  }

  /** A restart right after the backend was flushed begins with what was flushed, and
      before a snapshot is saved or sent that includes the consistent index. */
  lemma FlushedIsFound(m: Machine, log: seq<Entry>, steps: seq<Step>, s: State, step: Step, commit: nat, newest: nat)
    requires IsLog(log) && Run(m, log, steps, s) && s.mem.appliedi <= |log|
    requires step.CommitBackend? || step.TriggerSnapshot? || step.SendSnapshot?
    requires Enabled(m, log, s, step) && (s.queue != [] ==> Last(s.queue[0]) <= |log|)
    requires var d := Next(m, log, s, step).disk;
      d.durable <= commit <= d.commit && IsNewest(d, commit, newest) && newest <= d.backend.index
    ensures newest == 0 || newest in Next(m, log, s, step).disk.files
    ensures Restarted(Next(m, log, s, step).disk, commit, newest).mem.backend ==
      if step.CommitBackend? then s.mem.backend else Backend(s.mem.backend.image, s.mem.consistIndex)
  {
  }

  /** A snapshot is triggered once for each applied index. */
  lemma TriggeredOnce(m: Machine, log: seq<Entry>, s: State)
    requires Enabled(m, log, s, TriggerSnapshot) && s.mem.appliedi <= |log|
    requires s.queue != [] ==> Last(s.queue[0]) <= |log|
    ensures var t := Next(m, log, s, TriggerSnapshot);
      !Enabled(m, log, t, TriggerSnapshot) && t.mem.snapi == t.mem.appliedi == s.mem.appliedi
  {
  }

  // ----- the database of a queued snapshot -----

  ghost predicate Deletions(steps: seq<Step>) {
    forall i :: 0 <= i < |steps| ==> steps[i].DeleteDatabase?
  }

  /** Some deletions of databases, and the apply loop panics. */
  ghost predicate DeletionsPanic(m: Machine, log: seq<Entry>, s: State) {
    exists more, t :: Deletions(more) && Leads(m, log, s, more, t) && Panics(t, ApplyWork)
  }

  lemma {:induction false} DeletionsOnlyDelete(m: Machine, log: seq<Entry>, s: State, more: seq<Step>, t: State)
    requires Deletions(more) && Leads(m, log, s, more, t)
    ensures t.(disk := s.disk) == s
  {
    if more != [] {
      var last := |more| - 1;
      var q :| Leads(m, log, s, more[..last], q) && Goes(m, log, q, more[last], t);
      DeletionsOnlyDelete(m, log, s, more[..last], q);
    }
  }

  lemma OneStep(m: Machine, log: seq<Entry>, s: State, step: Step)
    requires Inv(m, log, s) && Enabled(m, log, s, step) && !Panics(s, step)
    ensures Leads(m, log, s, [step], Next(m, log, s, step))
  {
    assert [step][..0] == [];
    assert Leads(m, log, s, [], s);
    assert Goes(m, log, s, step, Next(m, log, s, step));
  }

  /** The raft loop may delete the database of a snapshot that waits to be installed:
      exactly when it has saved a later snapshot meanwhile. The panic that follows is
      harmless to the data, since a restart begins at the later snapshot. */
  lemma MissingDatabaseExactly(m: Machine, log: seq<Entry>, steps: seq<Step>, s: State)
    requires IsLog(log) && Run(m, log, steps, s)
    requires s.queue != [] && s.queue[0].Install? && s.queue[0].at in s.persisted
    ensures DeletionsPanic(m, log, s) <==> LaterReleasable(s.releasable, s.queue[0].at)
    ensures s.queue[0].at !in s.disk.dbs ==> Superseded(s.disk, s.queue[0].at)
  {
    RunKeeps(m, log, steps, s);
    if s.queue[0].at !in s.disk.dbs {
      assert Covered(s.disk, s.mem.appliedi, s.queue[0].at);
    }
    hide Inv, Run, DeletionsPanic, LaterReleasable;
    if DeletionsPanic(m, log, s) { PanicsOnlyBehind(m, log, s); }
    if LaterReleasable(s.releasable, s.queue[0].at) { PanicsBehind(m, log, s); }
  }

  lemma PanicsOnlyBehind(m: Machine, log: seq<Entry>, s: State)
    requires Inv(m, log, s) && s.queue != [] && s.queue[0].Install? && s.queue[0].at in s.persisted
    requires DeletionsPanic(m, log, s)
    ensures LaterReleasable(s.releasable, s.queue[0].at)
  {
    var more, t :| Deletions(more) && Leads(m, log, s, more, t) && Panics(t, ApplyWork);
    LeadsKeeps(m, log, s, more, t);
    DeletionsOnlyDelete(m, log, s, more, t);
    hide Leads, Deletions, DeletionsPanic;
    ApplyKeeps(m, log, t, ApplyWork);
    assert t.queue == s.queue && t.releasable == s.releasable && t.persisted == s.persisted;
    assert GoneOnlyBehind(t);
  }

  lemma PanicsBehind(m: Machine, log: seq<Entry>, s: State)
    requires Inv(m, log, s) && s.queue != [] && s.queue[0].Install?
    requires LaterReleasable(s.releasable, s.queue[0].at)
    ensures DeletionsPanic(m, log, s)
  {
    var at := s.queue[0].at;
    var k :| k in s.releasable && at < k;
    var step := DeleteDatabase(k, at);
    OneStep(m, log, s, step);
    hide Inv, Leads;
    assert Deletions([step]) && Panics(Next(m, log, s, step), ApplyWork);
  }

  /** Deleting every database below a saved snapshot, as releasing the snapshot does, is a
      run of single deletions. */
  lemma {:induction false} ReleaseLeads(m: Machine, log: seq<Entry>, s: State, at: nat, n: nat)
    returns (steps: seq<Step>, t: State)
    requires Inv(m, log, s) && at in s.releasable && n <= at
    ensures Deletions(steps) && Leads(m, log, s, steps, t)
    ensures t == s.(disk := s.disk.(dbs := t.disk.dbs))
    ensures forall k :: k in t.disk.dbs <==> k in s.disk.dbs && k >= n
    ensures forall k :: k in t.disk.dbs ==> t.disk.dbs[k] == s.disk.dbs[k]
  {
    if n == 0 {
      steps, t := [], s;
    } else {
      var before, r := ReleaseLeads(m, log, s, at, n - 1);
      LeadsKeeps(m, log, s, before, r);
      InvBounds(m, log, r);
      var step := DeleteDatabase(at, n - 1);
      DeleteStep(m, log, r, at, n - 1);
      steps, t := before + [step], Next(m, log, r, step);
      hide Inv, Leads, Enabled, Next, Panics;
      LeadsMore(m, log, s, before, r, step);
    }
  }

  lemma DeleteStep(m: Machine, log: seq<Entry>, r: State, released: nat, at: nat)
    requires released in r.releasable && at < released
    requires r.mem.appliedi <= |log| && (r.queue != [] ==> Last(r.queue[0]) <= |log|)
    ensures var step := DeleteDatabase(released, at);
      && Enabled(m, log, r, step) && !Panics(r, step)
      && Next(m, log, r, step) == r.(disk := r.disk.(dbs := r.disk.dbs - {at}))
  {
  }

  lemma LeadsMore(m: Machine, log: seq<Entry>, s: State, steps: seq<Step>, r: State, step: Step)
    requires Leads(m, log, s, steps, r) && Enabled(m, log, r, step) && !Panics(r, step)
    requires r.mem.appliedi <= |log| && (r.queue != [] ==> Last(r.queue[0]) <= |log|)
    ensures Leads(m, log, s, steps + [step], Next(m, log, r, step))
  {
    hide Enabled, Next, Panics;
    var more, t := steps + [step], Next(m, log, r, step);
    assert Goes(m, log, r, step, t);
    assert more != [] && more[..|more| - 1] == steps && more[|more| - 1] == step;
  }

  lemma InvBounds(m: Machine, log: seq<Entry>, s: State)
    requires Inv(m, log, s)
    ensures s.mem.appliedi <= |log| && (s.queue != [] ==> Last(s.queue[0]) <= |log|)
  {
  }

  /** One more step of a run. */
  lemma Took(m: Machine, log: seq<Entry>, steps: seq<Step>, s: State, step: Step) returns (more: seq<Step>, t: State)
    requires IsLog(log) && Run(m, log, steps, s)
    requires Enabled(m, log, s, step) && !Panics(s, step)
    requires s.mem.appliedi <= |log| && (s.queue != [] ==> Last(s.queue[0]) <= |log|)
    ensures t == Next(m, log, s, step) && Run(m, log, more, t)
  {
    more, t := steps + [step], Next(m, log, s, step);
    assert more[..|steps|] == steps;
    assert Goes(m, log, s, step, t);
  }

  lemma SnapshotArrives(m: Machine, log: seq<Entry>, steps: seq<Step>, s: State, at: nat)
    returns (more: seq<Step>, t: State)
    requires IsLog(log) && Run(m, log, steps, s)
    requires s.incoming.NoSnapshot? && s.delivered < at <= |log| && at !in s.disk.dbs
    ensures Run(m, log, more, t)
    ensures t.disk.dbs.Keys == s.disk.dbs.Keys + {at}
    ensures t == s.(disk := s.disk.(dbs := t.disk.dbs), queue := s.queue + [Install(at, OnceV2(m, log, at))],
                    delivered := at, incoming := Snapshot(at, OnceV2(m, log, at), Created))
  {
    RunKeeps(m, log, steps, s);
    hide Run, OnceV2, OnceV3;
    more, t := Took(m, log, steps, s, ReceiveDatabase(at, Backend(OnceV3(m, log, at), at)));
    more, t := Took(m, log, more, t, ReceiveSnapshot(at, OnceV2(m, log, at)));
  }

  lemma SnapshotFiled(m: Machine, log: seq<Entry>, steps: seq<Step>, s: State)
    returns (more: seq<Step>, t: State)
    requires IsLog(log) && Run(m, log, steps, s) && s.incoming.Snapshot? && s.incoming.stage.Created?
    ensures Run(m, log, more, t)
    ensures t == s.(disk := t.disk, incoming := s.incoming.(stage := Recorded))
    ensures t.disk.dbs == s.disk.dbs && t.disk.commit == s.disk.commit
  {
    RunKeeps(m, log, steps, s);
    hide Run, Inv, OnceV2, OnceV3;
    assert s.mem.appliedi <= |log| && (s.queue != [] ==> Last(s.queue[0]) <= |log|) by { RunBounds(m, log, steps, s); }
    more, t := Took(m, log, steps, s, SaveIncomingFile);
    more, t := Took(m, log, more, t, SaveIncomingRecord);
  }

  lemma RunBounds(m: Machine, log: seq<Entry>, steps: seq<Step>, s: State)
    requires IsLog(log) && Run(m, log, steps, s)
    ensures s.mem.appliedi <= |log| && (s.queue != [] ==> Last(s.queue[0]) <= |log|)
  {
    RunKeeps(m, log, steps, s);
  }

  lemma SnapshotPersisted(m: Machine, log: seq<Entry>, steps: seq<Step>, s: State)
    returns (more: seq<Step>, t: State)
    requires IsLog(log) && Run(m, log, steps, s) && s.incoming.Snapshot? && s.incoming.stage.Recorded?
    requires s.disk.commit <= s.incoming.at <= |log|
    ensures Run(m, log, more, t)
    ensures t == s.(disk := t.disk, incoming := NoSnapshot,
                    persisted := s.persisted + {s.incoming.at}, releasable := s.releasable + {s.incoming.at})
    ensures t.disk.dbs == s.disk.dbs && t.disk.commit == s.incoming.at
  {
    hide Run;
    RunBounds(m, log, steps, s);
    more, t := Took(m, log, steps, s, SaveIncomingHardState(s.incoming.at));
    more, t := Took(m, log, more, t, SyncIncoming);
  }

  /** A snapshot arrives and is saved; the apply loop takes nothing meanwhile. */
  lemma SnapshotSaved(m: Machine, log: seq<Entry>, steps: seq<Step>, s: State, at: nat)
    returns (more: seq<Step>, t: State)
    requires IsLog(log) && Run(m, log, steps, s)
    requires s.incoming.NoSnapshot? && s.delivered < at <= |log| && at !in s.disk.dbs && s.disk.commit <= at
    ensures Run(m, log, more, t)
    ensures t.disk.dbs.Keys == s.disk.dbs.Keys + {at} && t.disk.commit == at
    ensures t == s.(disk := t.disk, queue := s.queue + [Install(at, OnceV2(m, log, at))], delivered := at,
                    persisted := s.persisted + {at}, releasable := s.releasable + {at})
  {
    hide Run, OnceV2;
    more, t := SnapshotArrives(m, log, steps, s, at);
    more, t := SnapshotFiled(m, log, more, t);
    more, t := SnapshotPersisted(m, log, more, t);
  }

  lemma TwoSaved(m: Machine, log: seq<Entry>) returns (steps: seq<Step>, s: State)
    requires IsLog(log) && |log| >= 2
    ensures Run(m, log, steps, s)
    ensures s.queue != [] && s.queue[0].Install? && s.queue[0].at == 1
    ensures 1 in s.persisted && 2 in s.releasable
  {
    steps, s := [], Blank();
    assert Run(m, log, steps, s);
    hide Run, OnceV2;
    steps, s := SnapshotSaved(m, log, steps, s, 1);
    assert 2 !in s.disk.dbs;
    steps, s := SnapshotSaved(m, log, steps, s, 2);
  }

  /** Whatever the stores do, it can happen. */
  lemma MissingDatabaseReachable(m: Machine, log: seq<Entry>) returns (steps: seq<Step>, s: State)
    requires IsLog(log) && |log| >= 2
    ensures Run(m, log, steps, s) && Enabled(m, log, s, ApplyWork) && Panics(s, ApplyWork)
  {
    hide Run;
    steps, s := TwoSaved(m, log);
    RunBounds(m, log, steps, s);
    steps, s := Took(m, log, steps, s, DeleteDatabase(2, 1));
  }

  // ----- a snapshot of one's own -----

  lemma EntriesApplied(m: Machine, log: seq<Entry>, n: nat) returns (steps: seq<Step>, s: State)
    requires IsLog(log) && 1 <= n <= |log|
    ensures Run(m, log, steps, s)
    ensures s.mem.v2 == OnceV2(m, log, n) && s.mem.backend.image == OnceV3(m, log, n)
    ensures s == Blank().(mem := s.mem, disk := Blank().disk.(commit := n), delivered := n)
    ensures s.mem.appliedi == s.mem.consistIndex == n && s.mem.snapi == 0
  {
    steps, s := [], Blank();
    BlankOk(m, log);
    assert Exact(m, log, s.mem);
    ReplayExact(m, log, s.mem, n);
    assert Run(m, log, steps, s);
    hide Run, OnceV2, OnceV3, Replay;
    steps, s := Took(m, log, steps, s, DeliverEntries(1, n));
    steps, s := Took(m, log, steps, s, SaveHardState(n));
    steps, s := Took(m, log, steps, s, ApplyWork);
  }

  /** Any part of the log can be applied, cut off by a snapshot of one's own and
      survive a crash: the restart begins with both stores where they were. */
  lemma OwnSnapshotServes(m: Machine, log: seq<Entry>, n: nat) returns (steps: seq<Step>, s: State)
    requires IsLog(log) && 1 <= n <= |log|
    ensures Run(m, log, steps, s) && n in s.releasable && s.saving == map[]
    ensures s.disk.durable == s.disk.commit == n && IsNewest(s.disk, n, n) && n in s.disk.files
    ensures n <= s.disk.backend.index
    ensures Restarted(s.disk, n, n).mem == Memory(OnceV2(m, log, n), Backend(OnceV3(m, log, n), n), n, n, n)
  {
    steps, s := EntriesApplied(m, log, n);
    hide Run, OnceV2, OnceV3, Replay;
    steps, s := Took(m, log, steps, s, TriggerSnapshot);
    steps, s := Took(m, log, steps, s, SaveLocalFile(n));
    steps, s := Took(m, log, steps, s, SaveLocalRecord(n));
  }

  /** A leader's snapshot whose hard state is saved early is saved without another one. */
  lemma SnapshotSavedEarly(m: Machine, log: seq<Entry>, steps: seq<Step>, s: State, at: nat)
    returns (more: seq<Step>, t: State)
    requires IsLog(log) && Run(m, log, steps, s)
    requires s.incoming.NoSnapshot? && s.delivered < at <= |log| && at !in s.disk.dbs && s.disk.commit <= at
    ensures Run(m, log, more, t)
    ensures t.incoming.NoSnapshot? && at in t.persisted && at in t.disk.records && t.disk.durable == at
  {
    hide Run, OnceV2;
    more, t := SnapshotArrives(m, log, steps, s, at);
    RunBounds(m, log, more, t);
    more, t := Took(m, log, more, t, SaveHardStateEarly(at));
    more, t := Took(m, log, more, t, SaveIncomingFile);
    more, t := Took(m, log, more, t, SaveIncomingRecord);
    more, t := Took(m, log, more, t, SyncIncoming);
  }
}
