// The raft loop: the order in which one Ready reaches the write-ahead log, the
// snapshot directory and the apply loop.
module ReadyLoop {
  datatype Entry = Entry(index: nat, term: nat)

  datatype Ballot = Ballot(term: nat, vote: nat)
  datatype HardState = Unchanged | Changed(ballot: Ballot, commit: nat)

  /** A batch of work from raft; snapshot is 0 when there is none. leader is what the
      loop believes of the member, and flush says whether saving the batch ends with a
      flush of the log. */
  datatype Ready = Ready(entries: seq<Entry>, committed: seq<Entry>, hard: HardState, snapshot: nat,
                         leader: bool, flush: bool)

  // ----- shouldWaitWALSync -----

  predicate ShouldWaitWALSync(rd: Ready) {
    if rd.committed == [] || rd.entries == [] then false
    else
      var lastCommitted := rd.committed[|rd.committed| - 1];
      var firstUnstable := rd.entries[0];
      || lastCommitted.term > firstUnstable.term
      || (lastCommitted.term == firstUnstable.term && lastCommitted.index >= firstUnstable.index)
  }

  ghost predicate Segment(log: map<nat, nat>, es: seq<Entry>) {
    && (forall i :: 0 <= i < |es| ==> es[i].index in log && log[es[i].index] == es[i].term)
    && Consecutive(es)
  }

  ghost predicate TermsGrow(log: map<nat, nat>) {
    forall i, j :: i in log && j in log && i <= j ==> log[i] <= log[j]
  }

  ghost predicate Overlap(rd: Ready) {
    exists e :: e in rd.committed && e in rd.entries
  }

  /** The test on one pair of entries decides whether the two batches share an entry. */
  lemma WaitsExactlyOnOverlap(log: map<nat, nat>, rd: Ready)
    requires TermsGrow(log) && Segment(log, rd.entries) && Segment(log, rd.committed)
    requires rd.committed != [] && rd.entries != [] ==>
      rd.committed[|rd.committed| - 1].index <= rd.entries[|rd.entries| - 1].index
    ensures ShouldWaitWALSync(rd) <==> Overlap(rd)
  {
    if rd.committed != [] && rd.entries != [] {
      var last := rd.committed[|rd.committed| - 1];
      var first := rd.entries[0];
      if ShouldWaitWALSync(rd) {
        assert last.index >= first.index;
        assert rd.entries[last.index - first.index] == last;
        assert last in rd.committed && last in rd.entries;
      }
      if Overlap(rd) {
        var e :| e in rd.committed && e in rd.entries;
        var i :| 0 <= i < |rd.committed| && rd.committed[i] == e;
        var j :| 0 <= j < |rd.entries| && rd.entries[j] == e;
        assert rd.committed[|rd.committed| - 1].index == e.index + (|rd.committed| - 1 - i);
        assert rd.entries[j].index == first.index + j;
        assert first.index <= last.index;
        assert log[first.index] == first.term && log[last.index] == last.term;
        assert first.term <= last.term;
      }
    }
  }

  // ----- the disk -----

  /** The log as a reader sees it: an entry drops those it does not precede. */
  datatype Wal = Wal(entries: map<nat, nat>, ballot: Ballot, commit: nat, snaps: set<nat>)

  /** wals lists the contents since the last flush, any of which a crash may leave;
      the last one is what has been written. */
  datatype Disk = Disk(wals: seq<Wal>, files: set<nat>)

  datatype Action =
    | AppendEntries(entries: seq<Entry>)
    | WriteHardState(ballot: Ballot, commit: nat)
    | Sync
    | SaveSnapshotFile(at: nat)
    | SaveSnapshotRecord(at: nat)
    | SendApply
    | SendMessages
    | Notify

  function Current(d: Disk): Wal
    requires d.wals != []
  {
    d.wals[|d.wals| - 1]
  }

  function Overwritten(log: map<nat, nat>, es: seq<Entry>): map<nat, nat> {
    if es == [] then log
    else
      var front := Overwritten(log, es[..|es| - 1]);
      var e := es[|es| - 1];
      (map i | i in front && i < e.index :: front[i])[e.index := e.term]
  }

  function Perform(d: Disk, a: Action): (r: Disk)
    requires d.wals != []
    ensures r.wals != []
  {
    var w := Current(d);
    match a
    case AppendEntries(es) => d.(wals := d.wals + [w.(entries := Overwritten(w.entries, es))])
    case WriteHardState(b, c) => d.(wals := d.wals + [w.(ballot := b, commit := c)])
    case Sync => d.(wals := [w])
    case SaveSnapshotFile(at) => d.(files := d.files + {at})
    case SaveSnapshotRecord(at) => d.(wals := [w.(snaps := w.snaps + {at})])
    case _ => d
  }

  function PerformAll(d: Disk, actions: seq<Action>): (r: Disk)
    requires d.wals != []
    ensures r.wals != []
  {
    if actions == [] then d else Perform(PerformAll(d, actions[..|actions| - 1]), actions[|actions| - 1])
  }

  /** raft.MustSync, on the hard state written last: entries, a term or a vote are
      flushed at once, a commit index alone is not. */
  predicate MustSync(w: Wal, rd: Ready) {
    rd.entries != [] || (rd.hard.Changed? && rd.hard.ballot != w.ballot)
  }

  /** The Ready with the flush that WAL.Save decides on. */
  function Flushing(w: Wal, rd: Ready, full: bool): Ready {
    rd.(flush := full || MustSync(w, rd))
  }

  /** WAL.Save, which does nothing for an empty batch. */
  function SaveActions(rd: Ready): seq<Action> {
    if rd.entries == [] && rd.hard.Unchanged? then []
    else
      [AppendEntries(rd.entries)]
      + (if rd.hard.Changed? then [WriteHardState(rd.hard.ballot, rd.hard.commit)] else [])
      + (if rd.flush then [Sync] else [])
  }

  /** The body of the loop in start: what it does for one Ready, in order. */
  function Actions(rd: Ready): seq<Action> {
    var wait := ShouldWaitWALSync(rd);
    (if wait then SaveActions(rd) else [])
    + [SendApply]
    + (if rd.leader then [SendMessages] else [])
    + (if rd.snapshot != 0 then [SaveSnapshotFile(rd.snapshot), SaveSnapshotRecord(rd.snapshot)] else [])
    + (if wait then [] else SaveActions(rd))
    + (if rd.snapshot != 0 then [Sync, Notify] else [])
    + [Notify]
    + (if rd.leader then [] else [SendMessages])
  }

  // ----- raft's side of the contract -----

  /** Raft's log after the snapshot at base. Entries up to stable have been handed
      back as saved; pending says that the snapshot itself has not. */
  datatype Raft = Raft(base: nat, log: map<nat, nat>, last: nat, stable: nat, committed: nat, pending: bool)

  ghost predicate RaftOk(r: Raft) {
    && r.base <= r.stable <= r.last && r.base <= r.committed <= r.last
    && (forall i :: i in r.log <==> r.base < i <= r.last)
    && TermsGrow(r.log)
    && (r.pending ==> r.base != 0)
  }

  /** Messages from other members: entries beyond the commit index may be replaced,
      which makes the replaced ones unstable, or a snapshot from ahead restarts the log. */
  ghost predicate Moves(r: Raft, s: Raft) {
    && RaftOk(s)
    && ((s.base == r.base && s.pending == r.pending && s.committed >= r.committed && s.stable <= r.stable
         && (forall i :: r.base < i <= r.committed || r.base < i <= s.stable ==>
           i in s.log && i in r.log && s.log[i] == r.log[i]))
        || (s.base > r.committed && s.last == s.stable == s.committed == s.base && s.pending))
  }

  ghost predicate AllUnstable(r: Raft, rd: Ready) {
    && Segment(r.log, rd.entries) && |rd.entries| == r.last - r.stable
    && (rd.entries != [] ==> rd.entries[0].index == r.stable + 1)
  }

  /** What raft puts into a Ready: all unstable entries, committed entries of its log,
      the pending snapshot, and the hard state when it has changed. What has to be
      flushed is flushed; a full segment of the log may add a flush. */
  ghost predicate ReadyOf(r: Raft, w: Wal, rd: Ready) {
    && AllUnstable(r, rd)
    && Segment(r.log, rd.committed)
    && (forall e :: e in rd.committed ==> e.index <= r.committed)
    && rd.snapshot == (if r.pending then r.base else 0)
    && (rd.hard.Changed? ==> rd.hard.commit == r.committed)
    && (rd.hard.Unchanged? ==> w.commit == r.committed)
    && (MustSync(w, rd) ==> rd.flush)
  }

  /** Advance: entries become stable when the log still holds what the Ready held. */
  ghost predicate Advances(r: Raft, rd: Ready, s: Raft) {
    && RaftOk(s)
    && r.stable <= s.stable
    && (forall i :: r.stable < i <= s.stable ==> i in r.log && Entry(i, r.log[i]) in rd.entries)
    && s == r.(stable := s.stable, pending := r.pending && rd.snapshot != r.base)
  }

  // ----- what a restart needs -----

  /** The term of each entry in the committed log of the cluster. */
  type Terms = nat -> nat

  /** Raft's own committed entries are those of the cluster. */
  ghost predicate Loyal(truth: Terms, r: Raft) {
    forall i :: r.base < i <= r.committed ==> i in r.log && r.log[i] == truth(i)
  }

  /** A snapshot with a record not beyond the commit index and a file; 0 is the empty start. */
  ghost predicate Usable(w: Wal, files: set<nat>, commit: nat, s: nat) {
    s <= commit && (s == 0 || (s in w.snaps && s in files))
  }

  ghost predicate Right(truth: Terms, w: Wal, from: nat, upto: nat) {
    forall i :: from < i <= upto ==> i in w.entries && w.entries[i] == truth(i)
  }

  /** From some snapshot the log leads up to an index with the entries of the cluster. */
  ghost predicate Reaches(truth: Terms, w: Wal, files: set<nat>, commit: nat, upto: nat) {
    exists s :: Usable(w, files, commit, s) && Right(truth, w, s, upto)
  }

  /** What is read back up to the commit index is what was committed. */
  ghost predicate Readable(truth: Terms, w: Wal, files: set<nat>) {
    Reaches(truth, w, files, w.commit, w.commit)
  }

  ghost predicate AllReadable(truth: Terms, d: Disk) {
    forall w :: w in d.wals ==> Readable(truth, w, d.files)
  }

  /** Raft started from what a crash left: the newest snapshot and the entries after
      it, up to the commit index at least. Nothing tells it whether they are the
      committed ones. */
  ghost predicate StartedFrom(w: Wal, files: set<nat>, r: Raft) {
    && RaftOk(r) && !r.pending
    && Usable(w, files, w.commit, r.base)
    && (forall s: nat :: Usable(w, files, w.commit, s) ==> s <= r.base)
    && r.committed == w.commit && r.stable == r.last
    && (forall i :: i in r.log ==> i in w.entries && w.entries[i] == r.log[i])
  }

  /** A restart from a readable log starts with what was committed. */
  lemma StartIsLoyal(truth: Terms, w: Wal, files: set<nat>, r: Raft)
    requires Readable(truth, w, files) && StartedFrom(w, files, r)
    ensures Loyal(truth, r)
  {
    var s: nat :| Usable(w, files, w.commit, s) && Right(truth, w, s, w.commit);
    assert s <= r.base;
  }

  lemma StartIsReadable(truth: Terms, w: Wal, files: set<nat>, r: Raft)
    requires Loyal(truth, r) && StartedFrom(w, files, r)
    ensures Readable(truth, w, files)
  {
    assert Right(truth, w, r.base, w.commit);
  }

  // ----- runs -----

  datatype Flight = Idle | Flying(rd: Ready)
  datatype State = State(raft: Raft, disk: Disk, flight: Flight)

  datatype Step =
    | RaftMoves
    | Process(rd: Ready)
    | Advance
    | Crash(left: Wal)
    | CrashWithin(rd: Ready, done: nat, left: Wal)

  ghost predicate Next(s: State, step: Step, t: State)
    requires s.disk.wals != []
  {
    match step
    case RaftMoves => t == s.(raft := t.raft) && Moves(s.raft, t.raft)
    case Process(rd) =>
      && s.flight.Idle? && ReadyOf(s.raft, Current(s.disk), rd)
      && t == s.(disk := PerformAll(s.disk, Actions(rd)), flight := Flying(rd))
    case Advance =>
      && s.flight.Flying? && Advances(s.raft, s.flight.rd, t.raft)
      && t == s.(raft := t.raft, flight := Idle)
    case Crash(left) =>
      && left in s.disk.wals && StartedFrom(left, s.disk.files, t.raft)
      && t == State(t.raft, Disk([left], s.disk.files), Idle)
    case CrashWithin(rd, done, left) =>
      && s.flight.Idle? && ReadyOf(s.raft, Current(s.disk), rd) && done <= |Actions(rd)|
      && var d := PerformAll(s.disk, Actions(rd)[..done]);
         && left in d.wals && StartedFrom(left, d.files, t.raft)
         && t == State(t.raft, Disk([left], d.files), Idle)
  }

  function Blank(): State {
    State(Raft(0, map[], 0, 0, 0, false), Disk([Wal(map[], Ballot(0, 0), 0, {})], {}), Idle)
  }

  /** Where an early save is harmless: no snapshot comes with committed entries that
      are not saved yet, or the log leads up to that snapshot without it. */
  ghost predicate Harmless(truth: Terms, s: State, rd: Ready)
    requires s.disk.wals != []
  {
    || rd.snapshot == 0
    || !ShouldWaitWALSync(rd)
    || Reaches(truth, Current(s.disk), s.disk.files, s.raft.committed, rd.snapshot)
  }

  // ----- the invariants -----

  /** The entries raft believes saved are in the log, whichever part of it survives later. */
  ghost predicate Matches(r: Raft, w: Wal) {
    forall i :: r.base < i <= r.stable ==> i in r.log && i in w.entries && w.entries[i] == r.log[i]
  }

  ghost predicate Holds(w: Wal, es: seq<Entry>) {
    forall e :: e in es ==> e.index in w.entries && w.entries[e.index] == e.term
  }

  /** No entry, term or vote waits for a flush between two batches. */
  ghost predicate Even(d: Disk) {
    && d.wals != []
    && forall w :: w in d.wals ==> w.entries == Current(d).entries && w.ballot == Current(d).ballot
  }

  ghost predicate BaseUsable(r: Raft, d: Disk)
    requires d.wals != []
  {
    r.base == 0 || (r.base in Current(d).snaps && r.base in d.files)
  }

  /** Holds in every run. */
  ghost predicate Inv(s: State) {
    && Even(s.disk)
    && RaftOk(s.raft)
    && Matches(s.raft, Current(s.disk))
    && (s.raft.pending || BaseUsable(s.raft, s.disk))
    && Current(s.disk).commit <= s.raft.committed
    && (s.flight.Flying? ==> Holds(Current(s.disk), s.flight.rd.entries))
    && (s.flight.Flying? && s.flight.rd.snapshot != 0 ==>
          s.flight.rd.snapshot in Current(s.disk).snaps && s.flight.rd.snapshot in s.disk.files)
  }

  /** Holds as long as no restart has read back anything but the committed log. */
  ghost predicate Sound(truth: Terms, s: State) {
    Loyal(truth, s.raft) && AllReadable(truth, s.disk)
  }

  // ----- the writes of one Ready -----

  ghost predicate Consecutive(es: seq<Entry>) {
    forall i, j :: 0 <= i <= j < |es| ==> es[j].index == es[i].index + (j - i)
  }

  lemma {:induction false} OverwrittenHolds(log: map<nat, nat>, es: seq<Entry>)
    requires Consecutive(es)
    ensures forall e :: e in es ==> e.index in Overwritten(log, es) && Overwritten(log, es)[e.index] == e.term
  {
    if es != [] {
      var front := es[..|es| - 1];
      OverwrittenHolds(log, front);
      forall e | e in es
        ensures e.index in Overwritten(log, es) && Overwritten(log, es)[e.index] == e.term
      {
        var i :| 0 <= i < |es| && es[i] == e;
        if i < |es| - 1 {
          assert front[i] == e && e in front;
          assert es[|es| - 1].index == e.index + (|es| - 1 - i);
        }
      }
    }
  }

  /** Below the first of them, the new entries change nothing. */
  lemma {:induction false} OverwrittenKeeps(log: map<nat, nat>, es: seq<Entry>, i: nat)
    requires Consecutive(es) && (es != [] ==> i < es[0].index)
    ensures i in Overwritten(log, es) <==> i in log
    ensures i in log ==> Overwritten(log, es)[i] == log[i]
  {
    if es != [] {
      OverwrittenKeeps(log, es[..|es| - 1], i);
      assert es[|es| - 1].index == es[0].index + (|es| - 1);
    }
  }

  /** New entries replace everything from the first of them on. */
  lemma {:induction false} OverwrittenExactly(log: map<nat, nat>, es: seq<Entry>, i: nat)
    requires Consecutive(es) && es != []
    ensures i in Overwritten(log, es) <==> (i in log && i < es[0].index) || es[0].index <= i < es[0].index + |es|
  {
    var front, last := es[..|es| - 1], es[|es| - 1];
    assert last.index == es[0].index + (|es| - 1);
    if front != [] { OverwrittenExactly(log, front, i); }
  }

  lemma {:induction false} PerformConcat(d: Disk, a: seq<Action>, b: seq<Action>)
    requires d.wals != []
    ensures PerformAll(d, a + b) == PerformAll(PerformAll(d, a), b)
  {
    if b == [] {
      assert a + b == a;
    } else {
      PerformConcat(d, a, b[..|b| - 1]);
      assert (a + b)[..|a + b| - 1] == a + b[..|b| - 1];
    }
  }

  lemma PerformNext(d: Disk, actions: seq<Action>, k: nat)
    requires d.wals != [] && k < |actions|
    ensures PerformAll(d, actions[..k + 1]) == Perform(PerformAll(d, actions[..k]), actions[k])
  {
    assert actions[..k + 1][..k] == actions[..k];
  }

  lemma FirstThree(d: Disk, acts: seq<Action>, k: nat)
    requires d.wals != [] && k <= |acts| && k <= 3
    ensures k == 0 ==> PerformAll(d, acts[..k]) == d
    ensures k == 1 ==> PerformAll(d, acts[..k]) == Perform(d, acts[0])
    ensures k == 2 ==> PerformAll(d, acts[..k]) == Perform(Perform(d, acts[0]), acts[1])
    ensures k == 3 ==> PerformAll(d, acts[..k]) == Perform(Perform(Perform(d, acts[0]), acts[1]), acts[2])
  {
    hide Perform;
    if k > 0 { PerformNext(d, acts, k - 1); }
    if k > 1 { PerformNext(d, acts, k - 2); }
    if k > 2 { PerformNext(d, acts, k - 3); }
  }

  // ----- WAL.Save -----

  function AfterHardState(d: Disk, rd: Ready): (r: Disk)
    requires d.wals != []
    ensures r.wals != []
  {
    var d1 := Perform(d, AppendEntries(rd.entries));
    if rd.hard.Changed? then Perform(d1, WriteHardState(rd.hard.ballot, rd.hard.commit)) else d1
  }

  /** The disk at any point within WAL.Save. */
  lemma SavePoints(rd: Ready, d: Disk, k: nat)
    requires d.wals != [] && k <= |SaveActions(rd)|
    ensures var p := PerformAll(d, SaveActions(rd)[..k]);
      && (p == d || p == Perform(d, AppendEntries(rd.entries))
          || p == AfterHardState(d, rd) || p == Perform(AfterHardState(d, rd), Sync))
      && (k == |SaveActions(rd)| && k != 0 ==>
        p == if rd.flush then Perform(AfterHardState(d, rd), Sync) else AfterHardState(d, rd))
  {
    FirstThree(d, SaveActions(rd), k);
    hide Perform, PerformAll;
  }

  lemma AfterHardStateIs(d: Disk, rd: Ready)
    requires d.wals != []
    ensures var e := AfterHardState(d, rd);
      && e.files == d.files
      && Current(e).entries == Overwritten(Current(d).entries, rd.entries)
      && Current(e).snaps == Current(d).snaps
      && Current(e).commit == (if rd.hard.Changed? then rd.hard.commit else Current(d).commit)
      && (!MustSync(Current(d), rd) && Even(d) ==> Even(e))
  {
    assert rd.entries == [] ==> Overwritten(Current(d).entries, rd.entries) == Current(d).entries;
  }

  lemma SyncKeeps(d: Disk)
    requires d.wals != []
    ensures var e := Perform(d, Sync); Current(e) == Current(d) && e.files == d.files && e.wals == [Current(d)]
  {
  }

  /** What the log holds after WAL.Save. */
  lemma SaveResult(rd: Ready, d: Disk)
    requires d.wals != []
    ensures var e := PerformAll(d, SaveActions(rd));
      && e.files == d.files
      && Current(e).entries == Overwritten(Current(d).entries, rd.entries)
      && Current(e).snaps == Current(d).snaps
      && Current(e).commit == (if rd.hard.Changed? then rd.hard.commit else Current(d).commit)
      && ((MustSync(Current(d), rd) ==> rd.flush) && Even(d) ==> Even(e))
      && (rd.entries != [] && rd.flush ==> e.wals == [Current(e)])
  {
    var n := |SaveActions(rd)|;
    assert SaveActions(rd)[..n] == SaveActions(rd);
    SavePoints(rd, d, n);
    SyncKeeps(AfterHardState(d, rd));
    AfterHardStateIs(d, rd);
    assert n == 0 ==> rd.entries == [] && rd.hard.Unchanged?;
    assert rd.entries == [] ==> Overwritten(Current(d).entries, rd.entries) == Current(d).entries;
    FirstThree(d, SaveActions(rd), 0);
    hide AfterHardState, SaveActions, Overwritten, PerformAll, Perform;
  }

  /** What the writes of one Ready do to a log that raft's picture matches: the saved
      entries stay as they are and the new ones are there. */
  ghost predicate Saved(r: Raft, rd: Ready, w: Wal, v: Wal) {
    && v.commit == r.committed && v.snaps == w.snaps
    && Holds(v, rd.entries)
    && (forall i :: i <= r.stable ==> (i in v.entries <==> i in w.entries))
    && (forall i :: i <= r.stable && i in w.entries ==> v.entries[i] == w.entries[i])
  }

  lemma AppendKeeps(r: Raft, rd: Ready, w: Wal)
    requires RaftOk(r) && ReadyOf(r, w, rd)
    ensures var v := w.(entries := Overwritten(w.entries, rd.entries), commit := r.committed);
      Saved(r, rd, w, v)
  {
    OverwrittenHolds(w.entries, rd.entries);
    forall i: nat | i <= r.stable
      ensures i in Overwritten(w.entries, rd.entries) <==> i in w.entries
      ensures i in w.entries ==> Overwritten(w.entries, rd.entries)[i] == w.entries[i]
    {
      OverwrittenKeeps(w.entries, rd.entries, i);
    }
  }

  lemma SavedAfter(r: Raft, rd: Ready, d: Disk)
    requires d.wals != [] && RaftOk(r) && ReadyOf(r, Current(d), rd)
    ensures Saved(r, rd, Current(d), Current(PerformAll(d, SaveActions(rd))))
  {
    SaveResult(rd, d);
    AppendKeeps(r, rd, Current(d));
    hide PerformAll, Overwritten, Segment, RaftOk, SaveActions;
  }

  // ----- SaveSnap and the rest -----

  /** Actions that write nothing new. */
  ghost predicate Quiet(acts: seq<Action>) {
    forall i :: 0 <= i < |acts| ==>
      acts[i].Sync? || acts[i].SendApply? || acts[i].SendMessages? || acts[i].Notify?
  }

  lemma {:induction false} QuietKeeps(d: Disk, acts: seq<Action>)
    requires d.wals != [] && Quiet(acts)
    ensures var e := PerformAll(d, acts);
      e.files == d.files && (e.wals == d.wals || e.wals == [Current(d)])
  {
    if acts != [] {
      QuietKeeps(d, acts[..|acts| - 1]);
    }
  }

  /** What SaveSnap adds only helps a reader. */
  ghost predicate SnapshotAdded(d: Disk, e: Disk) {
    && d.wals != [] && e.wals != [] && d.files <= e.files
    && Current(d).snaps <= Current(e).snaps
    && Current(e).(snaps := {}) == Current(d).(snaps := {})
    && (e.wals == d.wals || e.wals == [Current(e)])
  }

  function SnapshotActions(at: nat): seq<Action> {
    if at != 0 then [SaveSnapshotFile(at), SaveSnapshotRecord(at)] else []
  }

  lemma FileThenRecord(d: Disk, at: nat)
    requires d.wals != []
    ensures var d1 := Perform(d, SaveSnapshotFile(at));
      var d2 := Perform(d1, SaveSnapshotRecord(at));
      && SnapshotAdded(d, d) && SnapshotAdded(d, d1) && SnapshotAdded(d, d2)
      && at in Current(d2).snaps && at in d2.files && d2.wals == [Current(d2)]
  {
  }

  lemma SnapshotPoints(d: Disk, at: nat, k: nat)
    requires d.wals != [] && k <= |SnapshotActions(at)|
    ensures SnapshotAdded(d, PerformAll(d, SnapshotActions(at)[..k]))
    ensures k == 2 ==> var e := PerformAll(d, SnapshotActions(at)[..k]);
      at in Current(e).snaps && at in e.files && e.wals == [Current(e)]
  {
    hide SnapshotAdded, Perform, PerformAll;
    FirstThree(d, SnapshotActions(at), k);
    FileThenRecord(d, at);
  }

  lemma AfterSnapshot(d: Disk, at: nat)
    requires d.wals != []
    ensures var e := PerformAll(d, SnapshotActions(at));
      SnapshotAdded(d, e) && (at != 0 ==> at in Current(e).snaps && at in e.files && e.wals == [Current(e)])
  {
    var snap := SnapshotActions(at);
    SnapshotPoints(d, at, |snap|);
    assert snap[..|snap|] == snap;
  }

  function HandOver(rd: Ready): seq<Action> {
    if rd.leader then [SendApply, SendMessages] else [SendApply]
  }

  lemma AfterHandOver(d: Disk, rd: Ready)
    requires d.wals != []
    ensures PerformAll(d, HandOver(rd)) == d
  {
    var acts := HandOver(rd);
    FirstThree(d, acts, |acts|);
    assert acts[..|acts|] == acts;
  }

  function RestActions(rd: Ready): seq<Action> {
    (if rd.snapshot != 0 then [Sync, Notify, Notify] else [Notify]) + (if rd.leader then [] else [SendMessages])
  }

  /** The order of the writes when nothing has to be saved before it is applied. */
  lemma UsualOrder(rd: Ready)
    requires !ShouldWaitWALSync(rd)
    ensures Actions(rd) == HandOver(rd) + (SnapshotActions(rd.snapshot) + (SaveActions(rd) + RestActions(rd)))
  {
  }

  lemma WaitingOrder(rd: Ready)
    requires ShouldWaitWALSync(rd)
    ensures Actions(rd) == SaveActions(rd) + (HandOver(rd) + (SnapshotActions(rd.snapshot) + RestActions(rd)))
  {
  }

  // ----- the log after a whole Ready -----

  ghost predicate Finished(r: Raft, rd: Ready, d: Disk, e: Disk) {
    && d.wals != [] && Even(e)
    && Current(e).commit == r.committed
    && Holds(Current(e), rd.entries)
    && (forall i :: i <= r.stable && i in Current(d).entries ==>
      i in Current(e).entries && Current(e).entries[i] == Current(d).entries[i])
    && Current(d).snaps <= Current(e).snaps && d.files <= e.files
    && (rd.snapshot != 0 ==> rd.snapshot in Current(e).snaps && rd.snapshot in e.files && e.wals == [Current(e)])
  }

  ghost predicate Ripe(s: State, rd: Ready) {
    && Inv(s) && s.flight.Idle? && ReadyOf(s.raft, Current(s.disk), rd)
  }

  lemma SnapshotKeepsEven(d: Disk, e: Disk)
    requires SnapshotAdded(d, e) && Even(d)
    ensures Even(e) && Current(e).ballot == Current(d).ballot && Current(e).commit == Current(d).commit
  {
  }

  lemma QuietKeepsEven(d: Disk, e: Disk)
    requires d.wals != [] && Even(d) && (e.wals == d.wals || e.wals == [Current(d)])
    ensures Even(e) && Current(e) == Current(d)
  {
  }

  lemma SaveThenQuiet(r: Raft, rd: Ready, d: Disk, d1: Disk, d2: Disk, e: Disk)
    requires SnapshotAdded(d, d1) && (rd.snapshot != 0 ==> rd.snapshot in Current(d1).snaps && rd.snapshot in d1.files)
    requires d2.wals != [] && Even(d2) && d2.files == d1.files && Saved(r, rd, Current(d1), Current(d2))
    requires e.files == d2.files && (e.wals == d2.wals || e.wals == [Current(d2)])
    requires rd.snapshot != 0 ==> e.wals == [Current(d2)]
    ensures Finished(r, rd, d, e)
  {
    QuietKeepsEven(d2, e);
    hide Even;
  }

  lemma UsualFinishes(s: State, rd: Ready)
    requires Ripe(s, rd) && !ShouldWaitWALSync(rd)
    ensures Finished(s.raft, rd, s.disk, PerformAll(s.disk, Actions(rd)))
  {
    var d, over, snap, save, rest := s.disk, HandOver(rd), SnapshotActions(rd.snapshot), SaveActions(rd),
      RestActions(rd);
    UsualOrder(rd);
    assert Quiet(rest);
    hide SaveActions, SnapshotActions, HandOver, RestActions, Actions, ShouldWaitWALSync, PerformAll, Perform;
    AfterHandOver(d, rd);
    AfterSnapshot(d, rd.snapshot);
    var d1 := PerformAll(d, snap);
    SnapshotKeepsEven(d, d1);
    assert ReadyOf(s.raft, Current(d1), rd);
    SavedAfter(s.raft, rd, d1);
    SaveResult(rd, d1);
    var d2 := PerformAll(d1, save);
    QuietKeeps(d2, rest);
    if rd.snapshot != 0 { LastFlush(d2, rd); }
    hide Inv, ReadyOf, Overwritten, Quiet, SnapshotAdded, Saved, Even, Finished;
    PerformConcat(d, over, snap + (save + rest));
    PerformConcat(d, snap, save + rest);
    PerformConcat(d1, save, rest);
    SaveThenQuiet(s.raft, rd, d, d1, d2, PerformAll(d2, rest));
  }

  /** With a snapshot, the log is flushed before the notifications. */
  lemma LastFlush(d: Disk, rd: Ready)
    requires d.wals != [] && rd.snapshot != 0
    ensures PerformAll(d, RestActions(rd)).wals == [Current(d)]
  {
    var rest := RestActions(rd);
    FirstThree(d, rest, 1);
    assert rest == rest[..1] + rest[1..] && Quiet(rest[1..]);
    PerformConcat(d, rest[..1], rest[1..]);
    QuietKeeps(PerformAll(d, rest[..1]), rest[1..]);
  }

  lemma SnapshotThenQuiet(r: Raft, rd: Ready, d: Disk, d1: Disk, d2: Disk, e: Disk)
    requires d.wals != [] && d1.wals != [] && Even(d1) && d1.files == d.files && Saved(r, rd, Current(d), Current(d1))
    requires SnapshotAdded(d1, d2)
    requires rd.snapshot != 0 ==>
      rd.snapshot in Current(d2).snaps && rd.snapshot in d2.files && d2.wals == [Current(d2)]
    requires e.files == d2.files && (e.wals == d2.wals || e.wals == [Current(d2)])
    ensures Finished(r, rd, d, e)
  {
    SnapshotKeepsEven(d1, d2);
    QuietKeepsEven(d2, e);
    hide Even;
  }

  lemma WaitingFinishes(s: State, rd: Ready)
    requires Ripe(s, rd) && ShouldWaitWALSync(rd)
    ensures Finished(s.raft, rd, s.disk, PerformAll(s.disk, Actions(rd)))
  {
    var d, over, snap, save, rest := s.disk, HandOver(rd), SnapshotActions(rd.snapshot), SaveActions(rd),
      RestActions(rd);
    WaitingOrder(rd);
    assert Quiet(rest);
    hide SaveActions, SnapshotActions, HandOver, RestActions, Actions, ShouldWaitWALSync, PerformAll, Perform;
    SavedAfter(s.raft, rd, d);
    SaveResult(rd, d);
    var d1 := PerformAll(d, save);
    AfterHandOver(d1, rd);
    AfterSnapshot(d1, rd.snapshot);
    var d2 := PerformAll(d1, snap);
    QuietKeeps(d2, rest);
    hide ReadyOf, Overwritten, Quiet, SnapshotAdded, Saved, Even, Finished;
    PerformConcat(d, save, over + (snap + rest));
    PerformConcat(d1, over, snap + rest);
    PerformConcat(d1, snap, rest);
    SnapshotThenQuiet(s.raft, rd, d, d1, d2, PerformAll(d2, rest));
  }

  /** One Ready, from any point of any run: at the end everything it carried is on record. */
  lemma ReadyFinishes(s: State, rd: Ready)
    requires Ripe(s, rd)
    ensures Finished(s.raft, rd, s.disk, PerformAll(s.disk, Actions(rd)))
  {
    if ShouldWaitWALSync(rd) { WaitingFinishes(s, rd); } else { UsualFinishes(s, rd); }
  }

  // ----- reading back -----

  lemma UnstableAt(r: Raft, rd: Ready, i: nat)
    requires RaftOk(r) && AllUnstable(r, rd) && r.stable < i <= r.last
    ensures i in r.log && Entry(i, r.log[i]) in rd.entries
  {
    assert rd.entries[i - r.stable - 1].index == rd.entries[0].index + (i - r.stable - 1);
    assert rd.entries[i - r.stable - 1] == Entry(i, r.log[i]);
  }

  /** Once the log leads up to raft's base, it leads up to the commit index as well. */
  lemma ReadableFromBase(truth: Terms, r: Raft, rd: Ready, w: Wal, files: set<nat>)
    requires RaftOk(r) && Loyal(truth, r) && AllUnstable(r, rd)
    requires Matches(r, w) && Holds(w, rd.entries) && w.commit <= r.committed
    requires Reaches(truth, w, files, w.commit, r.base)
    ensures Readable(truth, w, files)
  {
    var s: nat :| Usable(w, files, w.commit, s) && Right(truth, w, s, r.base);
    forall i | s < i <= w.commit
      ensures i in w.entries && w.entries[i] == truth(i)
    {
      if i > r.stable { UnstableAt(r, rd, i); }
    }
    assert Right(truth, w, s, w.commit);
  }

  /** A readable log stays readable when entries are appended: those it drops are
      among those it adds. */
  lemma AppendReadable(truth: Terms, r: Raft, rd: Ready, w: Wal, files: set<nat>)
    requires RaftOk(r) && Loyal(truth, r) && ReadyOf(r, w, rd)
    requires Readable(truth, w, files) && w.commit <= r.committed
    ensures Readable(truth, w.(entries := Overwritten(w.entries, rd.entries)), files)
  {
    AppendKeeps(r, rd, w);
    var v := w.(entries := Overwritten(w.entries, rd.entries));
    hide Overwritten;
    var s: nat :| Usable(w, files, w.commit, s) && Right(truth, w, s, w.commit);
    forall i | s < i <= w.commit
      ensures i in v.entries && v.entries[i] == truth(i)
    {
      if i > r.stable { UnstableAt(r, rd, i); }
    }
    assert Usable(v, files, v.commit, s) && Right(truth, v, s, v.commit);
  }

  /** The new commit index asks for no more than a log that leads up to raft's base. */
  lemma HardStateReadable(truth: Terms, r: Raft, rd: Ready, w: Wal, v: Wal, files: set<nat>)
    requires RaftOk(r) && Loyal(truth, r) && ReadyOf(r, w, rd) && Matches(r, w) && Saved(r, rd, w, v)
    requires Reaches(truth, w, files, r.committed, r.base)
    ensures Readable(truth, v, files)
  {
    var s: nat :| Usable(w, files, r.committed, s) && Right(truth, w, s, r.base);
    assert Usable(v, files, v.commit, s) && Right(truth, v, s, r.base);
    ReadableFromBase(truth, r, rd, v, files);
  }

  /** A crash after any number of the actions leaves a readable log. */
  ghost predicate AlwaysReadable(truth: Terms, d: Disk, acts: seq<Action>)
    requires d.wals != []
  {
    forall k :: 0 <= k <= |acts| ==> AllReadable(truth, PerformAll(d, acts[..k]))
  }

  lemma AtTheEnd(truth: Terms, d: Disk, acts: seq<Action>)
    requires d.wals != [] && AlwaysReadable(truth, d, acts)
    ensures AllReadable(truth, PerformAll(d, acts))
  {
    assert acts[..|acts|] == acts;
  }

  lemma Compose(truth: Terms, d: Disk, a: seq<Action>, b: seq<Action>)
    requires d.wals != [] && AlwaysReadable(truth, d, a) && AlwaysReadable(truth, PerformAll(d, a), b)
    ensures AlwaysReadable(truth, d, a + b)
  {
    hide AllReadable, PerformAll;
    forall k | 0 <= k <= |a + b|
      ensures AllReadable(truth, PerformAll(d, (a + b)[..k]))
    {
      if k <= |a| {
        assert (a + b)[..k] == a[..k];
      } else {
        assert (a + b)[..k] == a + b[..k - |a|];
        PerformConcat(d, a, b[..k - |a|]);
      }
    }
  }

  lemma QuietReadable(truth: Terms, d: Disk, acts: seq<Action>)
    requires d.wals != [] && AllReadable(truth, d) && Quiet(acts)
    ensures AlwaysReadable(truth, d, acts)
  {
    hide Readable, PerformAll;
    forall k | 0 <= k <= |acts|
      ensures AllReadable(truth, PerformAll(d, acts[..k]))
    {
      QuietKeeps(d, acts[..k]);
      assert Current(d) in d.wals;
    }
  }

  lemma SnapshotReadable(truth: Terms, d: Disk, e: Disk)
    requires SnapshotAdded(d, e) && AllReadable(truth, d)
    ensures AllReadable(truth, e)
  {
    forall w | w in e.wals
      ensures Readable(truth, w, e.files)
    {
      var v := if e.wals == d.wals then w else Current(d);
      assert v in d.wals;
      var s: nat :| Usable(v, d.files, v.commit, s) && Right(truth, v, s, v.commit);
      assert Usable(w, e.files, w.commit, s) && Right(truth, w, s, w.commit);
    }
  }

  lemma SnapshotAlways(truth: Terms, d: Disk, at: nat)
    requires d.wals != [] && AllReadable(truth, d)
    ensures AlwaysReadable(truth, d, SnapshotActions(at)) && AllReadable(truth, PerformAll(d, SnapshotActions(at)))
  {
    var snap := SnapshotActions(at);
    hide AllReadable, SnapshotAdded, PerformAll, SnapshotActions;
    forall k | 0 <= k <= |snap|
      ensures AllReadable(truth, PerformAll(d, snap[..k]))
    {
      SnapshotPoints(d, at, k);
      SnapshotReadable(truth, d, PerformAll(d, snap[..k]));
    }
    AtTheEnd(truth, d, snap);
  }

  lemma Pushed(truth: Terms, d: Disk, e: Disk)
    requires d.wals != [] && e.files == d.files && AllReadable(truth, d)
    requires e.wals != [] && Readable(truth, Current(e), e.files)
    requires e.wals == d.wals + [Current(e)] || e.wals == [Current(e)]
    ensures AllReadable(truth, e)
  {
  }

  /** Every point within WAL.Save leaves a readable log if the log leads up to raft's base. */
  lemma SavePointReadable(truth: Terms, r: Raft, rd: Ready, d: Disk, k: nat)
    requires d.wals != [] && RaftOk(r) && Loyal(truth, r) && ReadyOf(r, Current(d), rd) && Matches(r, Current(d))
    requires AllReadable(truth, d) && Current(d).commit <= r.committed
    requires Reaches(truth, Current(d), d.files, r.committed, r.base)
    requires k <= |SaveActions(rd)|
    ensures AllReadable(truth, PerformAll(d, SaveActions(rd)[..k]))
  {
    var d1, d2 := Perform(d, AppendEntries(rd.entries)), AfterHardState(d, rd);
    var d3 := Perform(d2, Sync);
    SavePoints(rd, d, k);
    assert Current(d) in d.wals;
    AppendReadable(truth, r, rd, Current(d), d.files);
    AppendKeeps(r, rd, Current(d));
    AfterHardStateIs(d, rd);
    HardStateReadable(truth, r, rd, Current(d), Current(d2), d.files);
    hide RaftOk, ReadyOf, Loyal, Matches, Readable, Reaches, Overwritten, PerformAll, SaveActions;
    Pushed(truth, d, d1);
    if rd.hard.Changed? { Pushed(truth, d1, d2); }
    Pushed(truth, d2, d3);
  }

  lemma SaveAlways(truth: Terms, r: Raft, rd: Ready, d: Disk)
    requires d.wals != [] && RaftOk(r) && Loyal(truth, r) && ReadyOf(r, Current(d), rd) && Matches(r, Current(d))
    requires AllReadable(truth, d) && Current(d).commit <= r.committed
    requires Reaches(truth, Current(d), d.files, r.committed, r.base)
    ensures AlwaysReadable(truth, d, SaveActions(rd)) && AllReadable(truth, PerformAll(d, SaveActions(rd)))
  {
    var save := SaveActions(rd);
    hide RaftOk, ReadyOf, Loyal, Matches, Reaches, AllReadable, PerformAll, SaveActions;
    forall k | 0 <= k <= |save|
      ensures AllReadable(truth, PerformAll(d, save[..k]))
    {
      SavePointReadable(truth, r, rd, d, k);
    }
    AtTheEnd(truth, d, save);
  }

  /** A base with its record and file is reached without any entry. */
  lemma BaseReached(truth: Terms, r: Raft, d: Disk)
    requires RaftOk(r) && d.wals != [] && BaseUsable(r, d)
    ensures Reaches(truth, Current(d), d.files, r.committed, r.base)
  {
    assert Usable(Current(d), d.files, r.committed, r.base) && Right(truth, Current(d), r.base, r.base);
  }

  lemma UsualReadable(truth: Terms, s: State, rd: Ready)
    requires Ripe(s, rd) && Sound(truth, s) && !ShouldWaitWALSync(rd)
    ensures AlwaysReadable(truth, s.disk, Actions(rd))
  {
    var d, over, snap, save, rest := s.disk, HandOver(rd), SnapshotActions(rd.snapshot), SaveActions(rd),
      RestActions(rd);
    UsualOrder(rd);
    assert Quiet(over) && Quiet(rest);
    hide SaveActions, SnapshotActions, HandOver, RestActions, Actions, ShouldWaitWALSync, PerformAll, Perform;
    hide AllReadable, AlwaysReadable;
    AfterHandOver(d, rd);
    QuietReadable(truth, d, over);
    AfterSnapshot(d, rd.snapshot);
    SnapshotAlways(truth, d, rd.snapshot);
    var d1 := PerformAll(d, snap);
    BaseReached(truth, s.raft, d1);
    SaveAlways(truth, s.raft, rd, d1);
    hide Inv, ReadyOf, Sound, Quiet, SnapshotAdded;
    QuietReadable(truth, PerformAll(d1, save), rest);
    Compose(truth, d1, save, rest);
    Compose(truth, d, snap, save + rest);
    Compose(truth, d, over, snap + (save + rest));
  }

  lemma WaitingReadable(truth: Terms, s: State, rd: Ready)
    requires Ripe(s, rd) && Sound(truth, s) && ShouldWaitWALSync(rd) && Harmless(truth, s, rd)
    ensures AlwaysReadable(truth, s.disk, Actions(rd))
  {
    var d, over, snap, save, rest := s.disk, HandOver(rd), SnapshotActions(rd.snapshot), SaveActions(rd),
      RestActions(rd);
    WaitingOrder(rd);
    assert Quiet(over) && Quiet(rest);
    if rd.snapshot == 0 { BaseReached(truth, s.raft, d); }
    assert Reaches(truth, Current(d), d.files, s.raft.committed, s.raft.base);
    hide SaveActions, SnapshotActions, HandOver, RestActions, Actions, ShouldWaitWALSync, PerformAll, Perform, Reaches;
    hide AllReadable, AlwaysReadable;
    SaveAlways(truth, s.raft, rd, d);
    var d1 := PerformAll(d, save);
    hide Inv, ReadyOf, Sound, Quiet, Harmless;
    AfterHandOver(d1, rd);
    QuietReadable(truth, d1, over);
    SnapshotAlways(truth, d1, rd.snapshot);
    QuietReadable(truth, PerformAll(d1, snap), rest);
    Compose(truth, d1, snap, rest);
    Compose(truth, d1, over, snap + rest);
    Compose(truth, d, save, over + (snap + rest));
  }

  /** One Ready, from any sound point: whenever a crash comes, the log can be read back. */
  lemma ReadyReadable(truth: Terms, s: State, rd: Ready)
    requires Ripe(s, rd) && Sound(truth, s) && Harmless(truth, s, rd)
    ensures AlwaysReadable(truth, s.disk, Actions(rd))
  {
    if ShouldWaitWALSync(rd) { WaitingReadable(truth, s, rd); } else { UsualReadable(truth, s, rd); }
  }

  /** At its end every Ready leaves a readable log: its snapshot is there by then. */
  lemma ReadyEndsReadable(truth: Terms, s: State, rd: Ready)
    requires Ripe(s, rd) && Sound(truth, s)
    ensures AllReadable(truth, PerformAll(s.disk, Actions(rd)))
  {
    ReadyFinishes(s, rd);
    var e := PerformAll(s.disk, Actions(rd));
    hide Actions, ShouldWaitWALSync, PerformAll, AllReadable, AlwaysReadable;
    if Harmless(truth, s, rd) {
      ReadyReadable(truth, s, rd);
      AtTheEnd(truth, s.disk, Actions(rd));
    } else {
      hide Harmless;
      EarlySaveEndsReadable(truth, s, rd, e);
    }
  }

  lemma EarlySaveEndsReadable(truth: Terms, s: State, rd: Ready, e: Disk)
    requires Ripe(s, rd) && Sound(truth, s) && rd.snapshot != 0
    requires Finished(s.raft, rd, s.disk, e)
    ensures AllReadable(truth, e)
  {
    BaseReached(truth, s.raft, e);
    ReadableFromBase(truth, s.raft, rd, Current(e), e.files);
  }

  // ----- every step keeps the invariants -----

  lemma ProcessKeeps(s: State, rd: Ready, t: State)
    requires Inv(s) && Next(s, Process(rd), t)
    ensures Inv(t)
  {
    ReadyFinishes(s, rd);
    hide PerformAll, Actions, ShouldWaitWALSync, Overwritten, Segment;
  }

  lemma MovesKeeps(s: State, t: State)
    requires Inv(s) && Next(s, RaftMoves, t)
    ensures Inv(t)
  {
    hide PerformAll, Actions, Segment, Overwritten;
    var w := Current(s.disk);
    forall i | t.raft.base < i <= t.raft.stable
      ensures i in t.raft.log && i in w.entries && w.entries[i] == t.raft.log[i]
    {
      assert t.raft.base == s.raft.base && i <= s.raft.stable;
      assert i in s.raft.log && w.entries[i] == s.raft.log[i];
    }
  }

  lemma AdvanceKeeps(s: State, t: State)
    requires Inv(s) && Next(s, Advance, t)
    ensures Inv(t)
  {
    hide PerformAll, Actions, Segment, Overwritten;
    var w := Current(s.disk);
    forall i | t.raft.base < i <= t.raft.stable
      ensures i in t.raft.log && i in w.entries && w.entries[i] == t.raft.log[i]
    {
      if i > s.raft.stable { assert Entry(i, s.raft.log[i]) in s.flight.rd.entries; }
    }
  }

  lemma RestartKeeps(left: Wal, files: set<nat>, r: Raft)
    requires StartedFrom(left, files, r)
    ensures Inv(State(r, Disk([left], files), Idle))
  {
  }

  lemma StepKeeps(s: State, step: Step, t: State)
    requires Inv(s) && Next(s, step, t)
    ensures Inv(t)
  {
    match step
    case RaftMoves => MovesKeeps(s, t);
    case Advance => AdvanceKeeps(s, t);
    case Crash(left) => RestartKeeps(left, s.disk.files, t.raft);
    case Process(rd) => ProcessKeeps(s, rd, t);
    case CrashWithin(rd, done, left) => RestartKeeps(left, PerformAll(s.disk, Actions(rd)[..done]).files, t.raft);
    hide Inv, Next;
  }

  /** Raft commits only what the cluster commits, and a restart from the middle of a
      Ready whose early save does harm happens to find the committed log. */
  ghost predicate Faithful(truth: Terms, r: State, step: Step, s: State) {
    match step
    case RaftMoves => Loyal(truth, s.raft)
    case CrashWithin(rd, _, _) => (r.disk.wals != [] && Harmless(truth, r, rd)) || Loyal(truth, s.raft)
    case _ => true
  }

  lemma CrashSound(truth: Terms, d: Disk, left: Wal, r: Raft)
    requires AllReadable(truth, d) && left in d.wals && StartedFrom(left, d.files, r)
    ensures Sound(truth, State(r, Disk([left], d.files), Idle))
  {
    hide Readable, StartedFrom;
    StartIsLoyal(truth, left, d.files, r);
  }

  lemma StepSound(truth: Terms, s: State, step: Step, t: State)
    requires Inv(s) && Sound(truth, s) && Next(s, step, t) && Faithful(truth, s, step, t)
    ensures Sound(truth, t)
  {
    match step
    case RaftMoves =>
    case Advance =>
    case Crash(left) => CrashSound(truth, s.disk, left, t.raft);
    case Process(rd) => ReadyEndsReadable(truth, s, rd);
    case CrashWithin(rd, done, left) =>
      var d := PerformAll(s.disk, Actions(rd)[..done]);
      if Harmless(truth, s, rd) {
        ReadyReadable(truth, s, rd);
        CrashSound(truth, d, left, t.raft);
      } else {
        StartIsReadable(truth, left, d.files, t.raft);
      }
    hide *;
  }

  ghost predicate Goes(r: State, step: Step, s: State) {
    r.disk.wals != [] && Next(r, step, s)
  }

  ghost predicate Trace(steps: seq<Step>, states: seq<State>) {
    && |states| == |steps| + 1 && states[0] == Blank()
    && forall i, j {:trigger Goes(states[i], steps[i], states[j])} ::
         0 <= i < |steps| && j == i + 1 ==> Goes(states[i], steps[i], states[j])
  }

  ghost predicate FaithfulTrace(truth: Terms, steps: seq<Step>, states: seq<State>) {
    && Trace(steps, states)
    && forall i, j {:trigger Faithful(truth, states[i], steps[i], states[j])} ::
         0 <= i < |steps| && j == i + 1 ==> Faithful(truth, states[i], steps[i], states[j])
  }

  /** Any run of the loop, with crashes and restarts. */
  ghost predicate Run(steps: seq<Step>, s: State) {
    exists states :: Trace(steps, states) && states[|steps|] == s
  }

  ghost predicate FaithfulRun(truth: Terms, steps: seq<Step>, s: State) {
    exists states :: FaithfulTrace(truth, steps, states) && states[|steps|] == s
  }

  lemma {:induction false} TraceKeeps(steps: seq<Step>, states: seq<State>, n: nat)
    requires Trace(steps, states) && n <= |steps|
    ensures Inv(states[n])
  {
    if n > 0 {
      TraceKeeps(steps, states, n - 1);
      assert Goes(states[n - 1], steps[n - 1], states[n]);
      StepKeeps(states[n - 1], steps[n - 1], states[n]);
    }
  }

  lemma {:induction false} TraceSound(truth: Terms, steps: seq<Step>, states: seq<State>, n: nat)
    requires FaithfulTrace(truth, steps, states) && n <= |steps|
    ensures Sound(truth, states[n])
  {
    if n == 0 {
      var w := Current(Blank().disk);
      assert Usable(w, {}, 0, 0) && Right(truth, w, 0, 0);
    } else {
      TraceSound(truth, steps, states, n - 1);
      TraceKeeps(steps, states, n - 1);
      assert Goes(states[n - 1], steps[n - 1], states[n]);
      assert Faithful(truth, states[n - 1], steps[n - 1], states[n]);
      StepSound(truth, states[n - 1], steps[n - 1], states[n]);
    }
  }

  lemma RunKeeps(steps: seq<Step>, s: State)
    requires Run(steps, s)
    ensures Inv(s)
  {
    hide Inv, Goes;
    var states :| Trace(steps, states) && states[|steps|] == s;
    TraceKeeps(steps, states, |steps|);
  }

  lemma FaithfulRunKeeps(truth: Terms, steps: seq<Step>, s: State)
    requires FaithfulRun(truth, steps, s)
    ensures Run(steps, s) && Inv(s) && Sound(truth, s)
  {
    hide Inv, Goes, Sound, Faithful;
    var states :| FaithfulTrace(truth, steps, states) && states[|steps|] == s;
    TraceKeeps(steps, states, |steps|);
    TraceSound(truth, steps, states, |steps|);
  }

  // ----- the main results -----

  lemma SendPosition(rd: Ready, k: nat)
    requires k < |Actions(rd)| && Actions(rd)[k].SendApply?
    ensures Actions(rd)[..k] == if ShouldWaitWALSync(rd) then SaveActions(rd) else []
  {
  }

  lemma NothingPerformed(d: Disk)
    requires d.wals != []
    ensures PerformAll(d, []) == d
  {
  }

  /** At any point of any run, when a batch is sent to the apply loop, each of its
      committed entries has been written and flushed: whatever a crash leaves of the
      write-ahead log holds them. */
  lemma SavedBeforeApplied(steps: seq<Step>, s: State, rd: Ready, k: nat)
    requires Run(steps, s) && s.flight.Idle? && s.disk.wals != [] && ReadyOf(s.raft, Current(s.disk), rd)
    requires k < |Actions(rd)| && Actions(rd)[k].SendApply?
    ensures forall w :: w in PerformAll(s.disk, Actions(rd)[..k]).wals ==> Holds(w, rd.committed)
  {
    RunKeeps(steps, s);
    SendPosition(rd, k);
    NothingPerformed(s.disk);
    SavedAfter(s.raft, rd, s.disk);
    SaveResult(rd, s.disk);
    var r, d := s.raft, PerformAll(s.disk, Actions(rd)[..k]);
    if rd.entries != [] { assert rd.entries[|rd.entries| - 1].index == rd.entries[0].index + (|rd.entries| - 1); }
    WaitsExactlyOnOverlap(r.log, rd);
    hide PerformAll, Actions, SaveActions, Overwritten, Run;
    forall e | e in rd.committed
      ensures e.index in Current(d).entries && Current(d).entries[e.index] == e.term
    {
      var i :| 0 <= i < |rd.committed| && rd.committed[i] == e;
      if e.index > r.stable { UnstableAt(r, rd, e.index); }
    }
  }

  // ----- what is flushed -----

  /** A batch is flushed when it brings entries, another term or vote, or fills the
      segment; otherwise all that could be left by a crash before can be left after it,
      and a commit index alone can be lost. */
  lemma FlushedExactly(d: Disk, rd: Ready, full: bool)
    requires d.wals != [] && (rd.entries != [] || rd.hard.Changed?)
    ensures var e := PerformAll(d, SaveActions(Flushing(Current(d), rd, full)));
      if full || rd.entries != [] || rd.hard.ballot != Current(d).ballot then e.wals == [Current(e)]
      else forall w :: w in d.wals ==> w in e.wals
  {
    var r := Flushing(Current(d), rd, full);
    assert r.entries == rd.entries && r.hard == rd.hard && SaveActions(r) != [];
    SavePoints(r, d, |SaveActions(r)|);
    assert SaveActions(r)[..|SaveActions(r)|] == SaveActions(r);
    SyncKeeps(AfterHardState(d, r));
    hide PerformAll, SaveActions, Overwritten;
  }

  // ----- terms and votes -----

  /** Whatever a crash leaves has this term and vote. */
  ghost predicate Settled(d: Disk, b: Ballot) {
    forall w :: w in d.wals ==> w.ballot == b
  }

  /** Actions other than those of WAL.Save. */
  ghost predicate Others(acts: seq<Action>) {
    forall i :: 0 <= i < |acts| ==> !acts[i].WriteHardState? && !acts[i].AppendEntries?
  }

  lemma {:induction false} StaysSettled(d: Disk, b: Ballot, acts: seq<Action>)
    requires d.wals != [] && Settled(d, b) && Others(acts)
    ensures Settled(PerformAll(d, acts), b)
  {
    if acts != [] {
      hide Overwritten;
      StaysSettled(d, b, acts[..|acts| - 1]);
      assert Current(PerformAll(d, acts[..|acts| - 1])) in PerformAll(d, acts[..|acts| - 1]).wals;
    }
  }

  function BallotAfter(was: Ballot, rd: Ready): Ballot {
    if rd.hard.Changed? then rd.hard.ballot else was
  }

  /** Saving flushes a new term or vote; one that is not new is there already. */
  lemma SaveSettles(d: Disk, rd: Ready)
    requires d.wals != [] && Settled(d, Current(d).ballot) && (MustSync(Current(d), rd) ==> rd.flush)
    ensures Settled(PerformAll(d, SaveActions(rd)), BallotAfter(Current(d).ballot, rd))
  {
    var n := |SaveActions(rd)|;
    assert SaveActions(rd)[..n] == SaveActions(rd);
    SavePoints(rd, d, n);
    FirstThree(d, SaveActions(rd), 0);
    SyncKeeps(AfterHardState(d, rd));
    hide Overwritten, PerformAll;
  }

  lemma SaveAmongOthers(rd: Ready) returns (pre: seq<Action>, post: seq<Action>)
    ensures Actions(rd) == pre + (SaveActions(rd) + post) && Others(pre) && Others(post)
  {
    pre := if ShouldWaitWALSync(rd) then [] else HandOver(rd) + SnapshotActions(rd.snapshot);
    post := if ShouldWaitWALSync(rd) then HandOver(rd) + (SnapshotActions(rd.snapshot) + RestActions(rd))
            else RestActions(rd);
    if ShouldWaitWALSync(rd) { WaitingOrder(rd); } else { UsualOrder(rd); }
    hide Actions, SaveActions, ShouldWaitWALSync;
  }

  lemma SaveStart(rd: Ready)
    requires SaveActions(rd) != []
    ensures SaveActions(rd)[0].AppendEntries?
    ensures forall i :: 0 < i < |SaveActions(rd)| ==> !SaveActions(rd)[i].AppendEntries?
  {
  }

  /** The batch is saved in one place. */
  lemma SavePosition(save: seq<Action>, pre: seq<Action>, post: seq<Action>, at: nat)
    requires Others(pre) && Others(post) && save != [] && save[0].AppendEntries?
    requires forall i :: 0 < i < |save| ==> !save[i].AppendEntries?
    requires at + |save| <= |pre + (save + post)| && (pre + (save + post))[at..at + |save|] == save
    ensures at == |pre|
  {
    var acts := pre + (save + post);
    assert forall i :: 0 <= i < |acts| && i != |pre| ==> !acts[i].AppendEntries?;
    assert acts[at..at + |save|][0] == acts[at];
  }

  /** In any run and any Ready, from the moment its batch has been saved whatever a
      crash leaves of the log has the term and the vote of the Ready; a Ready without
      any leaves those that were there. */
  lemma VoteSurvives(steps: seq<Step>, s: State, rd: Ready, at: nat, k: nat, w: Wal)
    requires Run(steps, s) && s.flight.Idle? && s.disk.wals != [] && ReadyOf(s.raft, Current(s.disk), rd)
    requires at + |SaveActions(rd)| <= k <= |Actions(rd)|
    requires Actions(rd)[at..at + |SaveActions(rd)|] == SaveActions(rd)
    requires w in PerformAll(s.disk, Actions(rd)[..k]).wals
    ensures w.ballot == if rd.hard.Changed? then rd.hard.ballot else Current(s.disk).ballot
  {
    RunKeeps(steps, s);
    var pre, post := SaveAmongOthers(rd);
    assert Settled(s.disk, Current(s.disk).ballot);
    hide Inv, Run, Actions, PerformAll, SaveActions, Settled;
    SettledOnceSaved(s.disk, rd, pre, post, at, k);
    assert Settled(PerformAll(s.disk, Actions(rd)[..k]), BallotAfter(Current(s.disk).ballot, rd));
    VoteOf(PerformAll(s.disk, Actions(rd)[..k]), BallotAfter(Current(s.disk).ballot, rd), w);
  }

  lemma VoteOf(d: Disk, b: Ballot, w: Wal)
    requires Settled(d, b) && w in d.wals
    ensures w.ballot == b
  {
  }

  lemma SettledOnceSaved(d: Disk, rd: Ready, pre: seq<Action>, post: seq<Action>, at: nat, k: nat)
    requires d.wals != [] && Settled(d, Current(d).ballot) && (MustSync(Current(d), rd) ==> rd.flush)
    requires Others(pre) && Others(post)
    requires at + |SaveActions(rd)| <= k <= |pre + (SaveActions(rd) + post)|
    requires (pre + (SaveActions(rd) + post))[at..at + |SaveActions(rd)|] == SaveActions(rd)
    ensures Settled(PerformAll(d, (pre + (SaveActions(rd) + post))[..k]), BallotAfter(Current(d).ballot, rd))
  {
    var save, b := SaveActions(rd), Current(d).ballot;
    assert save == [] ==> rd.hard.Unchanged?;
    if save != [] { SaveStart(rd); }
    hide PerformAll, SaveActions, Perform, MustSync, Settled;
    if save == [] {
      assert pre + (save + post) == pre + post;
      assert Others((pre + post)[..k]);
      StaysSettled(d, b, (pre + post)[..k]);
    } else {
      SavePosition(save, pre, post, at);
      SettledAfter(d, rd, pre, post[..k - at - |save|]);
      assert (pre + (save + post))[..k] == pre + (save + post[..k - at - |save|]);
    }
  }

  lemma SettledAfter(d: Disk, rd: Ready, pre: seq<Action>, post: seq<Action>)
    requires d.wals != [] && Settled(d, Current(d).ballot) && (MustSync(Current(d), rd) ==> rd.flush)
    requires Others(pre) && Others(post)
    ensures Settled(PerformAll(d, pre + (SaveActions(rd) + post)), BallotAfter(Current(d).ballot, rd))
  {
    hide Perform, PerformAll, SaveActions;
    StaysSettled(d, Current(d).ballot, pre);
    var e := PerformAll(d, pre);
    assert Current(e).ballot == Current(d).ballot by { assert Current(e) in e.wals; }
    SaveSettles(e, rd);
    StaysSettled(PerformAll(e, SaveActions(rd)), BallotAfter(Current(d).ballot, rd), post);
    PerformConcat(e, SaveActions(rd), post);
    PerformConcat(d, pre, SaveActions(rd) + post);
  }

  /** A member that is not the leader sends its messages when nothing they promise can
      be lost any more: its term, its vote and its new entries are in whatever a crash
      leaves of the log. */
  lemma PromisesSurvive(steps: seq<Step>, s: State, rd: Ready, k: nat, w: Wal)
    requires Run(steps, s) && s.flight.Idle? && s.disk.wals != [] && ReadyOf(s.raft, Current(s.disk), rd)
    requires !rd.leader && k < |Actions(rd)| && Actions(rd)[k].SendMessages?
    requires w in PerformAll(s.disk, Actions(rd)[..k]).wals
    ensures w.ballot == if rd.hard.Changed? then rd.hard.ballot else Current(s.disk).ballot
    ensures Holds(w, rd.entries)
  {
    RunKeeps(steps, s);
    ReadyFinishes(s, rd);
    SendsLast(rd, k);
    var at := SavedWhere(rd);
    VoteSurvives(steps, s, rd, at, k, w);
    hide Actions, ShouldWaitWALSync, Inv, Run, SaveActions, PerformAll;
    PerformNext(s.disk, Actions(rd), k);
    assert Actions(rd)[..k + 1] == Actions(rd);
  }

  lemma SendsLast(rd: Ready, k: nat)
    requires !rd.leader && k < |Actions(rd)| && Actions(rd)[k].SendMessages?
    ensures k == |Actions(rd)| - 1
  {
  }

  lemma SavedWhere(rd: Ready) returns (at: nat)
    ensures at + |SaveActions(rd)| < |Actions(rd)|
    ensures Actions(rd)[at..at + |SaveActions(rd)|] == SaveActions(rd)
  {
    at := if ShouldWaitWALSync(rd) then 0 else |HandOver(rd)| + |SnapshotActions(rd.snapshot)|;
    hide ShouldWaitWALSync, SaveActions;
  }

  /** Between two Readys all that may survive agrees on term and vote. */
  lemma BallotsAgree(steps: seq<Step>, s: State, v: Wal, w: Wal)
    requires Run(steps, s) && v in s.disk.wals && w in s.disk.wals
    ensures v.ballot == w.ballot
  {
    RunKeeps(steps, s);
  }

  /** Between any two writes of the next Ready too, what a crash leaves can be read
      back up to its commit index and is what was committed, unless the Ready holds a
      snapshot that the log does not lead up to together with committed entries that
      are not saved yet. */
  lemma CrashLeavesReadableLog(truth: Terms, steps: seq<Step>, s: State, rd: Ready, k: nat, w: Wal)
    requires FaithfulRun(truth, steps, s) && s.flight.Idle? && s.disk.wals != []
    requires ReadyOf(s.raft, Current(s.disk), rd) && Harmless(truth, s, rd)
    requires k <= |Actions(rd)| && w in PerformAll(s.disk, Actions(rd)[..k]).wals
    ensures Readable(truth, w, PerformAll(s.disk, Actions(rd)[..k]).files)
  {
    FaithfulRunKeeps(truth, steps, s);
    ReadyReadable(truth, s, rd);
    hide FaithfulRun, Run, Harmless, Actions, PerformAll, Readable;
  }

  /** That exception is exact. */
  lemma ReadableExactly(truth: Terms, s: State, rd: Ready)
    requires Ripe(s, rd) && Sound(truth, s)
    ensures AlwaysReadable(truth, s.disk, Actions(rd)) <==> Harmless(truth, s, rd)
  {
    if Harmless(truth, s, rd) {
      ReadyReadable(truth, s, rd);
    } else if AlwaysReadable(truth, s.disk, Actions(rd)) {
      EarlySaveReadable(truth, s, rd);
    }
  }

  /** If what an early save leaves is readable, the log led up to the snapshot before. */
  lemma EarlySaveReadable(truth: Terms, s: State, rd: Ready)
    requires Ripe(s, rd) && rd.snapshot != 0 && ShouldWaitWALSync(rd)
    requires AlwaysReadable(truth, s.disk, Actions(rd))
    ensures Reaches(truth, Current(s.disk), s.disk.files, s.raft.committed, rd.snapshot)
  {
    var save := SaveActions(rd);
    assert Actions(rd)[..|save|] == save;
    SavedAfter(s.raft, rd, s.disk);
    SaveResult(rd, s.disk);
    var e := PerformAll(s.disk, save);
    var w, v := Current(s.disk), Current(e);
    assert v in e.wals;
    var at: nat :| Usable(v, e.files, v.commit, at) && Right(truth, v, at, v.commit);
    assert Usable(w, s.disk.files, s.raft.committed, at) && Right(truth, w, at, rd.snapshot);
  }

  /** Such a Ready is within raft's contract: a snapshot arrives and an entry behind it
      is appended and committed before the loop comes round. */
  lemma SnapshotWithUnsavedCommit() returns (truth: Terms, steps: seq<Step>, s: State, rd: Ready)
    ensures FaithfulRun(truth, steps, s) && Ripe(s, rd) && !AlwaysReadable(truth, s.disk, Actions(rd))
  {
    truth := _ => 1;
    s := Blank().(raft := Raft(5, map[6 := 1], 6, 5, 6, true));
    rd := Ready([Entry(6, 1)], [Entry(6, 1)], Changed(Ballot(1, 0), 6), 5, false, true);
    steps := [RaftMoves, RaftMoves];
    var states := [Blank(), Blank().(raft := Raft(5, map[], 5, 5, 5, true)), s];
    assert Goes(states[0], steps[0], states[1]) && Goes(states[1], steps[1], states[2]);
    assert FaithfulTrace(truth, steps, states);
    assert states[|steps|] == s;
    FaithfulRunKeeps(truth, steps, s);
    assert ReadyOf(s.raft, Current(s.disk), rd) && ShouldWaitWALSync(rd);
    assert !Right(truth, Current(s.disk), 0, 5) by { assert 5 !in Current(s.disk).entries; }
    assert forall at: nat :: Usable(Current(s.disk), {}, 6, at) ==> at == 0;
    hide FaithfulRun, Goes, Next, Overwritten, AlwaysReadable, FaithfulTrace, Usable, Right, Inv, ReadyOf,
      ShouldWaitWALSync;
    ReadableExactly(truth, s, rd);
  }

  // An entry is saved and never committed; the snapshot that replaces it arrives with
  // a committed entry behind it; the early save of that entry is cut short.

  function EntryAppended(): State {
    Blank().(raft := Raft(0, map[1 := 1], 1, 0, 0, false))
  }

  function EntrySaved(): State {
    State(Raft(0, map[1 := 1], 1, 1, 0, false), Disk([Wal(map[1 := 1], Ballot(0, 0), 0, {})], {}), Idle)
  }

  function SnapshotArrived(): State {
    EntrySaved().(raft := Raft(1, map[], 1, 1, 1, true))
  }

  function CommitBehindIt(): State {
    EntrySaved().(raft := Raft(1, map[2 := 2], 2, 1, 2, true))
  }

  function WrongStart(): State {
    State(Raft(0, map[1 := 1, 2 := 2], 2, 2, 2, false), Disk([Wal(map[1 := 1, 2 := 2], Ballot(2, 0), 2, {})], {}), Idle)
  }

  function FirstCrash(): Step {
    CrashWithin(Ready([Entry(1, 1)], [], Unchanged, 0, false, true), 2, EntrySaved().disk.wals[0])
  }

  function SecondCrash(): Step {
    var rd := Ready([Entry(2, 2)], [Entry(2, 2)], Changed(Ballot(2, 0), 2), 1, false, true);
    CrashWithin(rd, 2, WrongStart().disk.wals[0])
  }

  lemma OneEntry(i: nat, term: nat)
    ensures Overwritten(map[], [Entry(i, term)]) == map[i := term]
  {
    assert [Entry(i, term)][..0] == [];
  }

  lemma OneMore()
    ensures Overwritten(map[1 := 1], [Entry(2, 2)]) == map[1 := 1, 2 := 2]
  {
    assert [Entry(2, 2)][..0] == [];
  }

  lemma LastEntryReady(r: Raft, w: Wal, rd: Ready)
    requires RaftOk(r) && r.last == r.stable + 1 && rd.entries == [Entry(r.last, r.log[r.last])]
    requires rd.committed == if r.committed == r.last then rd.entries else []
    requires rd.snapshot == (if r.pending then r.base else 0) && rd.flush
    requires if rd.hard.Changed? then rd.hard.commit == r.committed else w.commit == r.committed
    ensures ReadyOf(r, w, rd)
  {
  }

  lemma FirstCrashGoes()
    ensures Goes(EntryAppended(), FirstCrash(), EntrySaved())
  {
    var s, rd, t := EntryAppended(), FirstCrash().rd, EntrySaved();
    OneEntry(1, 1);
    hide Overwritten, PerformAll, Actions, ReadyOf;
    assert RaftOk(s.raft);
    LastEntryReady(s.raft, Current(s.disk), rd);
    assert RaftOk(t.raft);
    hide RaftOk;
    assert StartedFrom(FirstCrash().left, s.disk.files, t.raft);
    hide StartedFrom;
    CrashAfterTwo(s, rd, FirstCrash().left, t);
  }

  lemma SecondCrashGoes()
    ensures Goes(CommitBehindIt(), SecondCrash(), WrongStart())
  {
    var s, rd, t := CommitBehindIt(), SecondCrash().rd, WrongStart();
    OneMore();
    hide Overwritten, PerformAll, Actions, ReadyOf;
    assert RaftOk(s.raft);
    LastEntryReady(s.raft, Current(s.disk), rd);
    assert RaftOk(t.raft);
    hide RaftOk;
    assert StartedFrom(SecondCrash().left, s.disk.files, t.raft);
    hide StartedFrom;
    CrashAfterTwo(s, rd, SecondCrash().left, t);
  }

  /** It can do worse than stop the restart. Where the snapshot belongs the log holds an
      entry that was never committed; the member restarts with it as a committed one. */
  lemma RestartWithWrongEntry(truth: Terms) returns (steps: seq<Step>)
    requires truth(1) == truth(2) == 2
    ensures FaithfulRun(truth, steps, CommitBehindIt())
    ensures Goes(CommitBehindIt(), SecondCrash(), WrongStart()) && !Loyal(truth, WrongStart().raft)
  {
    steps := [RaftMoves, FirstCrash(), RaftMoves, RaftMoves];
    FirstCrashGoes();
    SecondCrashGoes();
    MovesGo();
    WrongNotLoyal(truth);
    StatesLoyal(truth);
    hide Goes, Loyal, EntryAppended, EntrySaved, SnapshotArrived, CommitBehindIt, WrongStart;
    FourSteps(truth, steps, [Blank(), EntryAppended(), EntrySaved(), SnapshotArrived(), CommitBehindIt()]);
  }

  lemma FourSteps(truth: Terms, steps: seq<Step>, states: seq<State>)
    requires |steps| == 4 && |states| == 5 && states[0] == Blank()
    requires Goes(states[0], steps[0], states[1]) && Faithful(truth, states[0], steps[0], states[1])
    requires Goes(states[1], steps[1], states[2]) && Faithful(truth, states[1], steps[1], states[2])
    requires Goes(states[2], steps[2], states[3]) && Faithful(truth, states[2], steps[2], states[3])
    requires Goes(states[3], steps[3], states[4]) && Faithful(truth, states[3], steps[3], states[4])
    ensures FaithfulRun(truth, steps, states[4])
  {
    hide Goes, Faithful;
    assert FaithfulTrace(truth, steps, states);
  }

  lemma WrongNotLoyal(truth: Terms)
    requires truth(1) == 2
    ensures !Loyal(truth, WrongStart().raft)
  {
    assert WrongStart().raft.log[1] == 1;
  }

  lemma StatesLoyal(truth: Terms)
    requires truth(2) == 2
    ensures Loyal(truth, EntryAppended().raft) && Loyal(truth, EntrySaved().raft)
    ensures Loyal(truth, SnapshotArrived().raft) && Loyal(truth, CommitBehindIt().raft)
  {
  }

  lemma MovesGo()
    ensures Goes(Blank(), RaftMoves, EntryAppended())
    ensures Goes(EntrySaved(), RaftMoves, SnapshotArrived())
    ensures Goes(SnapshotArrived(), RaftMoves, CommitBehindIt())
  {
    assert RaftOk(EntryAppended().raft) && RaftOk(SnapshotArrived().raft) && RaftOk(CommitBehindIt().raft);
    hide RaftOk;
  }

  lemma CrashAfterTwo(s: State, rd: Ready, left: Wal, t: State)
    requires s.disk.wals != [] && s.flight.Idle? && ReadyOf(s.raft, Current(s.disk), rd) && rd.entries != []
    requires if ShouldWaitWALSync(rd) then rd.hard.Changed? && left == Current(AfterHardState(s.disk, rd))
             else rd.snapshot == 0 && !rd.leader && left == Current(Perform(s.disk, AppendEntries(rd.entries)))
    requires StartedFrom(left, s.disk.files, t.raft) && t == State(t.raft, Disk([left], s.disk.files), Idle)
    ensures Goes(s, CrashWithin(rd, 2, left), t)
  {
    TwoPerformed(s.disk, rd);
    FirstTwoActions(rd);
    AfterHardStateIs(s.disk, rd);
    hide Actions, ShouldWaitWALSync, PerformAll, ReadyOf, StartedFrom, AfterHardState, Overwritten;
    assert left in PerformAll(s.disk, Actions(rd)[..2]).wals;
  }

  lemma FirstTwoActions(rd: Ready)
    requires rd.entries != []
    ensures |Actions(rd)| >= 2
    ensures ShouldWaitWALSync(rd) && rd.hard.Changed? ==>
      Actions(rd)[0] == AppendEntries(rd.entries) && Actions(rd)[1] == WriteHardState(rd.hard.ballot, rd.hard.commit)
    ensures !ShouldWaitWALSync(rd) && rd.snapshot == 0 && !rd.leader ==>
      Actions(rd)[0] == SendApply && Actions(rd)[1] == AppendEntries(rd.entries)
  {
    hide ShouldWaitWALSync;
  }

  lemma TwoPerformed(d: Disk, rd: Ready)
    requires d.wals != [] && rd.entries != []
    requires if ShouldWaitWALSync(rd) then rd.hard.Changed? else rd.snapshot == 0 && !rd.leader
    ensures PerformAll(d, Actions(rd)[..2]) ==
      if ShouldWaitWALSync(rd) then AfterHardState(d, rd) else Perform(d, AppendEntries(rd.entries))
  {
    FirstTwoActions(rd);
    TwoInOrder(d, Actions(rd));
    SendPerforms(d);
    hide Actions, SaveActions, ShouldWaitWALSync, PerformAll, Perform, Overwritten;
  }

  lemma TwoInOrder(d: Disk, acts: seq<Action>)
    requires d.wals != [] && |acts| >= 2
    ensures PerformAll(d, acts[..2]) == Perform(Perform(d, acts[0]), acts[1])
  {
    hide Perform, PerformAll;
    FirstThree(d, acts, 2);
  }

  lemma SendPerforms(d: Disk)
    requires d.wals != []
    ensures Perform(d, SendApply) == d
  {
  }

  /** When the loop tells the apply loop that a batch is on disk, the commit index in
      the log reaches the batch; a snapshot's file, record and commit index have been
      flushed. */
  lemma NotifiedIsDurable(steps: seq<Step>, s: State, rd: Ready, k: nat)
    requires Run(steps, s) && s.flight.Idle? && s.disk.wals != [] && ReadyOf(s.raft, Current(s.disk), rd)
    requires k < |Actions(rd)| && Actions(rd)[k].Notify?
    ensures var d := PerformAll(s.disk, Actions(rd)[..k]);
      && (forall e :: e in rd.committed ==> e.index <= Current(d).commit)
      && (rd.snapshot != 0 ==>
            d.wals == [Current(d)] && rd.snapshot in d.files
            && rd.snapshot in Current(d).snaps && rd.snapshot <= Current(d).commit)
  {
    RunKeeps(steps, s);
    ReadyFinishes(s, rd);
    NotifyPosition(rd, k);
    if rd.snapshot != 0 { FlushedBefore(s.disk, rd, k); }
    assert rd.snapshot <= s.raft.committed;
    hide Actions, PerformAll, Perform, ShouldWaitWALSync, Inv, Run, Quiet;
    QuietTail(s.disk, Actions(rd), k);
  }

  lemma QuietTail(d: Disk, acts: seq<Action>, k: nat)
    requires d.wals != [] && k <= |acts| && Quiet(acts[k..])
    ensures var e, f := PerformAll(d, acts[..k]), PerformAll(d, acts);
      Current(e) == Current(f) && e.files == f.files
  {
    assert acts == acts[..k] + acts[k..];
    PerformConcat(d, acts[..k], acts[k..]);
    QuietKeeps(PerformAll(d, acts[..k]), acts[k..]);
  }

  lemma BeforeRest(rd: Ready) returns (pre: seq<Action>)
    ensures Actions(rd) == pre + RestActions(rd)
    ensures forall i :: 0 <= i < |pre| ==> !pre[i].Notify?
  {
    var over, snap, save := HandOver(rd), SnapshotActions(rd.snapshot), SaveActions(rd);
    pre := if ShouldWaitWALSync(rd) then save + (over + snap) else over + (snap + save);
    if ShouldWaitWALSync(rd) { WaitingOrder(rd); } else { UsualOrder(rd); }
    hide Actions, ShouldWaitWALSync, RestActions;
  }

  lemma NotifyPosition(rd: Ready, k: nat)
    requires k < |Actions(rd)| && Actions(rd)[k].Notify?
    ensures Quiet(Actions(rd)[k..])
    ensures rd.snapshot != 0 ==>
      k > 0 && (Actions(rd)[k - 1].Sync? || (k > 1 && Actions(rd)[k - 1].Notify? && Actions(rd)[k - 2].Sync?))
  {
    var pre := BeforeRest(rd);
    hide Actions;
    assert k >= |pre| && Actions(rd)[k..] == RestActions(rd)[k - |pre|..];
  }

  lemma FlushedBefore(d: Disk, rd: Ready, k: nat)
    requires d.wals != [] && 0 < k < |Actions(rd)|
    requires Actions(rd)[k - 1].Sync? || (k > 1 && Actions(rd)[k - 1].Notify? && Actions(rd)[k - 2].Sync?)
    ensures var e := PerformAll(d, Actions(rd)[..k]); e.wals == [Current(e)]
  {
    hide Actions, PerformAll;
    PerformNext(d, Actions(rd), k - 1);
    if k > 1 { PerformNext(d, Actions(rd), k - 2); }
  }

  // ----- the loop body -----

  class RaftNode {
    var disk: Disk
    ghost var start: Disk
    ghost var done: seq<Action>

    /** The disk is what the actions done so far have made of it. */
    ghost predicate Valid()
      reads this
    {
      start.wals != [] && disk == PerformAll(start, done)
    }

    constructor (d: Disk)
      requires d.wals != []
      ensures Valid() && start == disk == d && done == []
    {
      disk, start, done := d, d, [];
    }

    method Do(a: Action)
      requires Valid()
      modifies this`disk, this`done
      ensures Valid() && done == old(done) + [a]
      ensures disk.wals != [] && disk == Perform(old(disk), a)
      ensures a.SendApply? || a.SendMessages? ==> disk == old(disk)
    {
      assert (done + [a])[..|done|] == done;
      disk, done := Perform(disk, a), done + [a];
    }

    /** WAL.Save. A full segment is cut, which flushes it too. */
    method Save(rd: Ready, full: bool)
      requires Valid()
      modifies this`disk, this`done
      ensures Valid()
      ensures done == old(done) + SaveActions(Flushing(Current(old(disk)), rd, full))
    {
      assert disk.wals != [];
      ghost var was, r := done, Flushing(Current(disk), rd, full);
      assert r.entries == rd.entries && r.hard == rd.hard && r.flush == (full || MustSync(Current(disk), rd));
      SaveJoined(was, r);
      hide Valid, Perform, MustSync, SaveActions, Flushing;
      if rd.hard.Unchanged? && |rd.entries| == 0 { return; }
      var mustSync := MustSync(Current(disk), rd);
      Do(AppendEntries(rd.entries));
      if rd.hard.Changed? { Do(WriteHardState(rd.hard.ballot, rd.hard.commit)); }
      if full || mustSync { Do(Sync); }
    }

    method SaveSnap(at: nat)
      requires Valid()
      modifies this`disk, this`done
      ensures Valid() && done == old(done) + [SaveSnapshotFile(at), SaveSnapshotRecord(at)]
      ensures disk.wals != [] && Current(disk).ballot == Current(old(disk)).ballot
    {
      Do(SaveSnapshotFile(at));
      Do(SaveSnapshotRecord(at));
    }

    /** What start does with one Ready; the hand-over and the notifications are steps too. */
    method HandleReady(rd: Ready, full: bool)
      requires Valid()
      modifies this`disk, this`done
      ensures Valid()
      ensures done == old(done) + Actions(Flushing(Current(old(disk)), rd, full))
    {
      assert disk.wals != [];
      ghost var d, was, r := disk, done, Flushing(Current(disk), rd, full);
      hide Valid, Perform, MustSync, SaveActions;
      var waitWALSync := ShouldWaitWALSync(rd);
      assert waitWALSync == ShouldWaitWALSync(r) && rd.snapshot == r.snapshot && rd.leader == r.leader;
      hide ShouldWaitWALSync;
      if waitWALSync { Save(rd, full); }
      Do(SendApply);
      if rd.leader { Do(SendMessages); }
      if rd.snapshot != 0 { SaveSnap(rd.snapshot); }
      if !waitWALSync {
        SameFlush(d, rd, full);
        Save(rd, full);
      }
      hide Flushing, Actions;
      if rd.snapshot != 0 {
        Do(Sync);
        Do(Notify);
      }
      Do(Notify);
      if !rd.leader { Do(SendMessages); }
      JoinedActions(was, r);
    }

    lemma SaveJoined(was: seq<Action>, r: Ready)
      ensures
        var a := was + [AppendEntries(r.entries)];
        var b := if r.hard.Changed? then a + [WriteHardState(r.hard.ballot, r.hard.commit)] else a;
        var c := if r.flush then b + [Sync] else b;
        was + SaveActions(r) == if r.entries == [] && r.hard.Unchanged? then was else c
    {
    }

    lemma JoinedActions(was: seq<Action>, r: Ready)
      ensures
        var a := if ShouldWaitWALSync(r) then was + SaveActions(r) else was;
        var b0 := a + [SendApply];
        var b := if r.leader then b0 + [SendMessages] else b0;
        var c := if r.snapshot != 0 then b + [SaveSnapshotFile(r.snapshot), SaveSnapshotRecord(r.snapshot)] else b;
        var d := if ShouldWaitWALSync(r) then c else c + SaveActions(r);
        var e := if r.snapshot != 0 then d + [Sync] + [Notify] else d;
        was + Actions(r) == if r.leader then e + [Notify] else e + [Notify] + [SendMessages]
    {
      hide SaveActions, ShouldWaitWALSync;
    }

    lemma SameFlush(d: Disk, rd: Ready, full: bool)
      requires d.wals != [] && disk.wals != [] && Current(d).ballot == Current(disk).ballot
      ensures Flushing(Current(disk), rd, full) == Flushing(Current(d), rd, full)
    {
    }
  }
}
