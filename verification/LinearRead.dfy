// Linearizable reads: readers, the one loop that serves them, the notifier it
// swaps, the one-slot wake-up channel, and read-index replies matched by request
// id. This is the ReadIndex scheme of section 6.4 of Ongaro's Raft dissertation.
module LinearRead {
  datatype Outcome = Nil | Failure

  /** A call of linearizableReadNotify. start is the cluster's commit index when the
      call began, a ghost of the specification that the code never sees. */
  datatype Reader =
    | Called(start: nat)
    | Loaded(start: nat, nc: nat)
    | Signaled(start: nat, nc: nat)
    | Returned(start: nat, result: Outcome)

  /** Where linearizableReadLoop is. nr is the notifier it has taken over. */
  datatype Loop =
    | Waiting(id: nat)
    | TookToken(id: nat)
    | Swapped(id: nat, nr: nat)
    | Requesting(id: nat, nr: nat)
    | Confirmed(nr: nat, index: nat)
    | Notifying(nr: nat, result: Outcome)
    | Stopped

  /** Notifiers are numbered as they are created: current is s.readNotifier, closed the
      ones that were notified. sends records the commit index at each read-index
      request of an id. applied is the apply loop's progress; appliedIndex, what the
      read loop looks at, may lag behind it. */
  datatype State = State(
    readers: map<nat, Reader>, current: nat, closed: map<nat, Outcome>, token: bool,
    loop: Loop, nextId: nat, sends: map<nat, set<nat>>,
    commit: nat, applied: nat, appliedIndex: nat)

  datatype Step =
    | Commit(to: nat)
    | Apply(to: nat, visible: nat)
    | Call(reader: nat)
    | Load(reader: nat)
    | Signal(reader: nat)
    | Return(reader: nat)
    | GiveUp(reader: nat)
    | LeaderChangedIdle
    | TakeToken
    | Swap
    | Send
    | SendFails
    | Reply(id: nat, index: nat)
    | RequestFails
    | SeeApplied
    | WaitApplied
    | Notify
    | Stop

  /** The read-index contract: a reply for an id is not below the commit index at some
      request of that id. Replies for ids never requested here can be anything. */
  ghost predicate Answers(s: State, id: nat, index: nat) {
    id in s.sends ==> exists c :: c in s.sends[id] && c <= index
  }

  ghost predicate Enabled(s: State, step: Step) {
    match step
    case Commit(to) => to >= s.commit
    case Apply(to, visible) => s.applied <= to && s.appliedIndex <= visible <= to
    case Call(r) => r !in s.readers
    case Load(r) => r in s.readers && s.readers[r].Called?
    case Signal(r) => r in s.readers && s.readers[r].Loaded?
    case Return(r) => r in s.readers && s.readers[r].Signaled? && s.readers[r].nc in s.closed
    case GiveUp(r) => r in s.readers && s.readers[r].Signaled?
    case LeaderChangedIdle => s.loop.Waiting?
    case TakeToken => s.loop.Waiting? && s.token
    case Swap => s.loop.TookToken?
    case Send => s.loop.Swapped? || s.loop.Requesting?
    case SendFails => s.loop.Swapped? || s.loop.Requesting?
    case Reply(id, index) => s.loop.Requesting? && Answers(s, id, index)
    case RequestFails => s.loop.Requesting?
    case SeeApplied => s.loop.Confirmed? && s.appliedIndex >= s.loop.index
    case WaitApplied => s.loop.Confirmed? && s.applied >= s.loop.index
    case Notify => s.loop.Notifying?
    case Stop => true
  }

  function Next(s: State, step: Step): State
    requires Enabled(s, step)
  {
    match step
    case Commit(to) => s.(commit := to)
    case Apply(to, visible) => s.(applied := to, appliedIndex := visible)
    case Call(r) => s.(readers := s.readers[r := Called(s.commit)])
    case Load(r) => s.(readers := s.readers[r := Loaded(s.readers[r].start, s.current)])
    case Signal(r) =>
      s.(token := true, readers := s.readers[r := Signaled(s.readers[r].start, s.readers[r].nc)])
    case Return(r) =>
      s.(readers := s.readers[r := Returned(s.readers[r].start, s.closed[s.readers[r].nc])])
    case GiveUp(r) => s.(readers := s.readers[r := Returned(s.readers[r].start, Failure)])
    case LeaderChangedIdle => s.(loop := Waiting(s.nextId), nextId := s.nextId + 1)
    case TakeToken => s.(token := false, loop := TookToken(s.loop.id))
    case Swap => s.(current := s.current + 1, loop := Swapped(s.loop.id, s.current))
    case Send =>
      var before := if s.loop.id in s.sends then s.sends[s.loop.id] else {};
      s.(sends := s.sends[s.loop.id := before + {s.commit}], loop := Requesting(s.loop.id, s.loop.nr))
    case SendFails => s.(loop := Notifying(s.loop.nr, Failure))
    case Reply(id, index) => if id == s.loop.id then s.(loop := Confirmed(s.loop.nr, index)) else s
    case RequestFails => s.(loop := Notifying(s.loop.nr, Failure))
    case SeeApplied => s.(loop := Notifying(s.loop.nr, Nil))
    case WaitApplied => s.(loop := Notifying(s.loop.nr, Nil))
    case Notify =>
      s.(closed := s.closed[s.loop.nr := s.loop.result], loop := Waiting(s.nextId), nextId := s.nextId + 1)
    case Stop => s.(loop := Stopped)
  }

  /** The notifier a call waits on, if it has one. */
  ghost predicate On(r: Reader, nc: nat) {
    (r.Loaded? || r.Signaled?) && r.nc == nc
  }

  ghost predicate StartsBelow(readers: map<nat, Reader>, nc: nat, bound: nat) {
    forall r :: r in readers && On(readers[r], nc) ==> readers[r].start <= bound
  }

  ghost predicate HasNotifier(l: Loop) {
    l.Swapped? || l.Requesting? || l.Confirmed? || l.Notifying?
  }

  ghost predicate HasId(l: Loop) {
    l.Waiting? || l.TookToken? || l.Swapped? || l.Requesting?
  }

  ghost predicate ReadersOk(s: State) {
    forall r :: r in s.readers ==>
      && s.readers[r].start <= s.commit
      && ((s.readers[r].Loaded? || s.readers[r].Signaled?) ==> s.readers[r].nc <= s.current)
      && (s.readers[r].Returned? && s.readers[r].result.Nil? ==> s.readers[r].start <= s.applied)
  }

  ghost predicate ClosedOk(s: State) {
    forall n :: n in s.closed ==>
      n < s.current && (s.closed[n].Nil? ==> StartsBelow(s.readers, n, s.applied))
  }

  /** What the loop knows about those it serves grows with each of its steps. */
  ghost predicate LoopOk(s: State) {
    && (HasNotifier(s.loop) ==> s.loop.nr < s.current && s.loop.nr !in s.closed)
    && (HasId(s.loop) ==> s.loop.id < s.nextId && (!s.loop.Requesting? ==> s.loop.id !in s.sends))
    && (s.loop.Requesting? ==>
          s.loop.id in s.sends && forall c :: c in s.sends[s.loop.id] ==> StartsBelow(s.readers, s.loop.nr, c))
    && (s.loop.Confirmed? ==> StartsBelow(s.readers, s.loop.nr, s.loop.index))
    && (s.loop.Notifying? && s.loop.result.Nil? ==> StartsBelow(s.readers, s.loop.nr, s.applied))
  }

  /** A reader that has signaled is not forgotten: its notifier has been notified, or
      the loop is serving it, or a token says that it must be served. */
  ghost predicate Remembered(s: State, nc: nat) {
    || nc in s.closed
    || (HasNotifier(s.loop) && s.loop.nr == nc)
    || (nc == s.current && (s.token || s.loop.TookToken?))
    || s.loop.Stopped?
  }

  ghost predicate NoneForgotten(s: State) {
    forall r :: r in s.readers && s.readers[r].Signaled? ==> Remembered(s, s.readers[r].nc)
  }

  ghost predicate Inv(s: State) {
    && s.appliedIndex <= s.applied
    && (forall id :: id in s.sends ==> id < s.nextId)
    && ReadersOk(s) && ClosedOk(s) && LoopOk(s) && NoneForgotten(s)
    && (s.loop.Stopped? || forall n: nat :: n < s.current ==> n in s.closed || (HasNotifier(s.loop) && s.loop.nr == n))
  }

  ghost predicate Start(s: State) {
    s == State(map[], 0, map[], false, Waiting(0), 1, map[], s.commit, s.applied, s.appliedIndex)
    && s.appliedIndex <= s.applied
  }

  lemma BelowMore(readers: map<nat, Reader>, nc: nat, low: nat, high: nat)
    requires StartsBelow(readers, nc, low) && low <= high
    ensures StartsBelow(readers, nc, high)
  {
  }

  /** A reader that moves on without taking up another notifier. */
  lemma BelowMoved(readers: map<nat, Reader>, r: nat, moved: Reader, nc: nat, bound: nat)
    requires StartsBelow(readers, nc, bound)
    requires On(moved, nc) ==> r in readers && On(readers[r], nc) && moved.start == readers[r].start
    ensures StartsBelow(readers[r := moved], nc, bound)
  {
  }

  lemma ProgressKeeps(s: State, step: Step)
    requires Inv(s) && Enabled(s, step) && (step.Commit? || step.Apply?)
    ensures Inv(Next(s, step))
  {
    var t := Next(s, step);
    forall n | n in t.closed && t.closed[n].Nil?
      ensures StartsBelow(t.readers, n, t.applied)
    {
      BelowMore(s.readers, n, s.applied, t.applied);
    }
    if s.loop.Notifying? && s.loop.result.Nil? { BelowMore(s.readers, s.loop.nr, s.applied, t.applied); }
    hide StartsBelow;
  }

  lemma ReaderKeeps(s: State, step: Step)
    requires Inv(s) && Enabled(s, step)
    requires step.Call? || step.Load? || step.Signal? || step.Return? || step.GiveUp?
    ensures Inv(Next(s, step))
  {
    var t := Next(s, step);
    var r := step.reader;
    if step.Return? && s.closed[s.readers[r].nc].Nil? {
      assert StartsBelow(s.readers, s.readers[r].nc, s.applied);
      assert On(s.readers[r], s.readers[r].nc);
    }
    forall n: nat, bound: nat | n < s.current && StartsBelow(s.readers, n, bound)
      ensures StartsBelow(t.readers, n, bound)
    {
      BelowMoved(s.readers, r, t.readers[r], n, bound);
    }
    assert ReadersOk(t);
    assert NoneForgotten(t);
    hide StartsBelow, ReadersOk, NoneForgotten, Remembered;
  }

  lemma IdleKeeps(s: State, step: Step)
    requires Inv(s) && Enabled(s, step)
    requires step.LeaderChangedIdle? || step.TakeToken? || step.Swap? || step.SendFails? || step.RequestFails? ||
      step.Stop?
    ensures Inv(Next(s, step))
  {
    hide StartsBelow;
  }

  lemma SendKeeps(s: State)
    requires Inv(s) && Enabled(s, Send)
    ensures Inv(Next(s, Send))
  {
    var t := Next(s, Send);
    assert StartsBelow(s.readers, s.loop.nr, s.commit);
    hide StartsBelow;
  }

  lemma AnswerKeeps(s: State, step: Step)
    requires Inv(s) && Enabled(s, step)
    requires step.Reply? || step.SeeApplied? || step.WaitApplied? || step.Notify?
    ensures Inv(Next(s, step))
  {
    if step.Reply? && step.id == s.loop.id {
      var c :| c in s.sends[step.id] && c <= step.index;
      BelowMore(s.readers, s.loop.nr, c, step.index);
    } else if step.SeeApplied? || step.WaitApplied? {
      BelowMore(s.readers, s.loop.nr, s.loop.index, s.applied);
    }
    hide StartsBelow;
  }

  lemma StepKeeps(s: State, step: Step)
    requires Inv(s) && Enabled(s, step)
    ensures Inv(Next(s, step))
  {
    hide Inv, Enabled, Next;
    match step
    case Commit(_) => ProgressKeeps(s, step);
    case Apply(_, _) => ProgressKeeps(s, step);
    case Send => SendKeeps(s);
    case LeaderChangedIdle => IdleKeeps(s, step);
    case TakeToken => IdleKeeps(s, step);
    case Swap => IdleKeeps(s, step);
    case SendFails => IdleKeeps(s, step);
    case RequestFails => IdleKeeps(s, step);
    case Stop => IdleKeeps(s, step);
    case Reply(_, _) => AnswerKeeps(s, step);
    case SeeApplied => AnswerKeeps(s, step);
    case WaitApplied => AnswerKeeps(s, step);
    case Notify => AnswerKeeps(s, step);
    case _ => ReaderKeeps(s, step);
  }

  // ----- runs -----

  ghost predicate Goes(r: State, step: Step, s: State) {
    Enabled(r, step) && s == Next(r, step)
  }

  ghost predicate Follows(s: State, steps: seq<Step>, t: State) {
    if steps == [] then s == t
    else
      var last := |steps| - 1;
      exists r :: Follows(s, steps[..last], r) && Goes(r, steps[last], t)
  }

  lemma LastStep(s: State, steps: seq<Step>, t: State) returns (r: State)
    requires steps != [] && Follows(s, steps, t)
    ensures Follows(s, steps[..|steps| - 1], r)
    ensures Enabled(r, steps[|steps| - 1]) && t == Next(r, steps[|steps| - 1])
  {
    var last := |steps| - 1;
    r :| Follows(s, steps[..last], r) && Goes(r, steps[last], t);
    hide Follows, Enabled, Next;
  }

  lemma {:induction false} FollowsKeeps(s: State, steps: seq<Step>, t: State)
    requires Inv(s) && Follows(s, steps, t)
    ensures Inv(t)
  {
    if steps != [] {
      var last := |steps| - 1;
      var r :| Follows(s, steps[..last], r) && Goes(r, steps[last], t);
      FollowsKeeps(s, steps[..last], r);
      StepKeeps(r, steps[last]);
    }
  }

  lemma RunKeeps(start: State, steps: seq<Step>, s: State)
    requires Start(start) && Follows(start, steps, s)
    ensures Inv(s)
  {
    FollowsKeeps(start, steps, s);
  }

  lemma StepKeepsStart(s: State, step: Step, reader: nat)
    requires Enabled(s, step) && reader in s.readers
    ensures reader in Next(s, step).readers && Next(s, step).readers[reader].start == s.readers[reader].start
  {
  }

  lemma {:induction false} FollowsKeepsStart(s: State, steps: seq<Step>, t: State, reader: nat)
    requires Follows(s, steps, t) && reader in s.readers
    ensures reader in t.readers && t.readers[reader].start == s.readers[reader].start
  {
    if steps != [] {
      var last := |steps| - 1;
      var r :| Follows(s, steps[..last], r) && Goes(r, steps[last], t);
      FollowsKeepsStart(s, steps[..last], r, reader);
      StepKeepsStart(r, steps[last], reader);
    }
  }

  // ----- the main results -----

  /** A call begins in some state of some run. If it returns nil, everything that was
      committed in the cluster when it began has been applied by then, however replies
      are delayed, repeated or mixed up. */
  lemma LinearizableReads(start: State, before: seq<Step>, s: State, reader: nat, later: seq<Step>, t: State)
    requires Start(start) && Follows(start, before, s) && Enabled(s, Call(reader))
    requires Follows(Next(s, Call(reader)), later, t)
    ensures reader in t.readers
    ensures t.readers[reader].Returned? && t.readers[reader].result.Nil? ==> s.commit <= t.applied
  {
    RunKeeps(start, before, s);
    StepKeeps(s, Call(reader));
    FollowsKeeps(Next(s, Call(reader)), later, t);
    FollowsKeepsStart(Next(s, Call(reader)), later, t, reader);
  }

  /** A reader that has signaled and waits on the notifier in place: a token is in the
      channel, or the loop has taken one and is about to swap. */
  lemma NoLostWakeUp(start: State, steps: seq<Step>, s: State, reader: nat)
    requires Start(start) && Follows(start, steps, s) && !s.loop.Stopped?
    requires reader in s.readers && s.readers[reader].Signaled? && s.readers[reader].nc == s.current
    ensures s.token || s.loop.TookToken?
  {
    RunKeeps(start, steps, s);
    assert Remembered(s, s.readers[reader].nc);
  }

  /** A reader on a notifier that was replaced is being served, or has been answered. */
  lemma NoneStranded(start: State, steps: seq<Step>, s: State, reader: nat)
    requires Start(start) && Follows(start, steps, s) && !s.loop.Stopped?
    requires reader in s.readers && s.readers[reader].Signaled? && s.readers[reader].nc != s.current
    ensures s.readers[reader].nc in s.closed || (HasNotifier(s.loop) && s.loop.nr == s.readers[reader].nc)
  {
    RunKeeps(start, steps, s);
    assert Remembered(s, s.readers[reader].nc);
  }

  /** No notifier's channel is closed twice, which would be a panic. */
  lemma NotifiedOnce(start: State, steps: seq<Step>, s: State)
    requires Start(start) && Follows(start, steps, s) && s.loop.Notifying?
    ensures s.loop.nr !in s.closed
  {
    RunKeeps(start, steps, s);
  }

  // ----- what a call returns -----

  /** A request failed in the round that serves this notifier. */
  ghost predicate RoundFails(start: State, steps: seq<Step>, nc: nat) {
    exists k, r ::
      && 0 <= k < |steps| && Follows(start, steps[..k], r)
      && (steps[k].SendFails? || steps[k].RequestFails?) && HasNotifier(r.loop) && r.loop.nr == nc
  }

  ghost predicate FailuresCaused(start: State, steps: seq<Step>, s: State) {
    && (forall n :: n in s.closed && s.closed[n].Failure? ==> RoundFails(start, steps, n))
    && (s.loop.Notifying? && s.loop.result.Failure? ==> RoundFails(start, steps, s.loop.nr))
  }

  lemma RoundFailedEarlier(start: State, steps: seq<Step>, more: seq<Step>, nc: nat)
    requires RoundFails(start, steps, nc)
    ensures RoundFails(start, steps + more, nc)
  {
    var k, r :| 0 <= k < |steps| && Follows(start, steps[..k], r)
      && (steps[k].SendFails? || steps[k].RequestFails?) && HasNotifier(r.loop) && r.loop.nr == nc;
    assert (steps + more)[..k] == steps[..k] && (steps + more)[k] == steps[k];
  }

  lemma StepCauses(start: State, steps: seq<Step>, r: State, step: Step)
    requires Follows(start, steps, r) && Enabled(r, step) && FailuresCaused(start, steps, r)
    ensures FailuresCaused(start, steps + [step], Next(r, step))
  {
    forall n: nat | RoundFails(start, steps, n)
      ensures RoundFails(start, steps + [step], n)
    {
      RoundFailedEarlier(start, steps, [step], n);
    }
    if step.SendFails? || step.RequestFails? {
      var all := steps + [step];
      assert all[..|steps|] == steps && all[|steps|] == step;
      assert RoundFails(start, all, r.loop.nr);
    }
    hide RoundFails, Follows;
  }

  lemma {:induction false} FollowsCauses(start: State, steps: seq<Step>, s: State)
    requires Start(start) && Follows(start, steps, s)
    ensures FailuresCaused(start, steps, s)
  {
    if steps != [] {
      hide Follows, Enabled, Next;
      var last := |steps| - 1;
      var r := LastStep(start, steps, s);
      FollowsCauses(start, steps[..last], r);
      StepCauses(start, steps[..last], r, steps[last]);
      assert steps[..last] + [steps[last]] == steps;
    }
  }

  lemma {:induction false} FollowsConcat(s: State, a: seq<Step>, r: State, b: seq<Step>, t: State)
    requires Follows(s, a, r) && Follows(r, b, t)
    ensures Follows(s, a + b, t)
  {
    if b == [] {
      assert a + b == a;
    } else {
      var last := |b| - 1;
      var q :| Follows(r, b[..last], q) && Goes(q, b[last], t);
      FollowsConcat(s, a, r, b[..last], q);
      assert (a + b)[..|a + b| - 1] == a + b[..last] && (a + b)[|a + b| - 1] == b[last];
    }
  }

  ghost predicate WaitsOn(s: State, reader: nat, nc: nat) {
    reader in s.readers && s.readers[reader].Signaled? && s.readers[reader].nc == nc
  }

  ghost predicate HasFailed(s: State, reader: nat) {
    reader in s.readers && s.readers[reader].Returned? && s.readers[reader].result.Failure?
  }

  ghost predicate HasReturnedNil(s: State, reader: nat) {
    reader in s.readers && s.readers[reader].Returned? && s.readers[reader].result.Nil?
  }

  lemma OneMore(s: State, steps: seq<Step>, r: State, step: Step)
    requires Follows(s, steps, r) && Enabled(r, step)
    ensures Follows(s, steps + [step], Next(r, step))
  {
    hide Enabled, Next;
    assert (steps + [step])[..|steps|] == steps;
    assert Goes(r, step, Next(r, step));
  }

  /** A call that waits goes on waiting, gives up, or takes what its notifier holds. */
  lemma StepAnswers(s: State, step: Step, reader: nat, nc: nat)
    requires Enabled(s, step)
    requires WaitsOn(s, reader, nc) || HasFailed(s, reader) || HasReturnedNil(s, reader)
    ensures var t := Next(s, step);
      && (WaitsOn(t, reader, nc) || HasFailed(t, reader) || HasReturnedNil(t, reader))
      && (HasFailed(t, reader) ==>
            HasFailed(s, reader) || step == GiveUp(reader) || (nc in s.closed && s.closed[nc].Failure?))
  {
  }

  /** A call that waits on a notifier fails only if it gave up itself or if a request
      failed in the very round that served the notifier. */
  lemma {:induction false} FailureHasCause(start: State, steps: seq<Step>, s: State, reader: nat, nc: nat,
                                           later: seq<Step>, t: State)
    requires Start(start) && Follows(start, steps, s) && WaitsOn(s, reader, nc) && Follows(s, later, t)
    ensures WaitsOn(t, reader, nc) || HasFailed(t, reader) || HasReturnedNil(t, reader)
    ensures HasFailed(t, reader) ==> GiveUp(reader) in later || RoundFails(start, steps + later, nc)
  {
    if later != [] {
      var front, step := later[..|later| - 1], later[|later| - 1];
      SplitLast(steps, later);
      var r := LastStep(s, later, t);
      hide *;
      FailureHasCause(start, steps, s, reader, nc, front, r);
      FollowsConcat(start, steps, s, front, r);
      FailureCauseStep(start, steps + front, r, reader, nc, step);
    } else {
      assert t == s;
    }
  }

  lemma SplitLast(steps: seq<Step>, later: seq<Step>)
    requires later != []
    ensures var front, step := later[..|later| - 1], later[|later| - 1];
      && steps + later == steps + front + [step]
      && forall x :: x in later <==> x in front || x == step
  {
    assert later == later[..|later| - 1] + [later[|later| - 1]];
  }

  lemma FailureCauseStep(start: State, steps: seq<Step>, r: State, reader: nat, nc: nat, step: Step)
    requires Start(start) && Follows(start, steps, r) && Enabled(r, step)
    requires WaitsOn(r, reader, nc) || HasFailed(r, reader) || HasReturnedNil(r, reader)
    ensures var t := Next(r, step);
      && (WaitsOn(t, reader, nc) || HasFailed(t, reader) || HasReturnedNil(t, reader))
      && (HasFailed(t, reader) ==>
            HasFailed(r, reader) || step == GiveUp(reader) || RoundFails(start, steps + [step], nc))
    ensures RoundFails(start, steps, nc) ==> RoundFails(start, steps + [step], nc)
  {
    StepAnswers(r, step, reader, nc);
    FollowsCauses(start, steps, r);
    hide RoundFails, Follows, Next, Enabled, Start, WaitsOn, HasFailed, HasReturnedNil;
    if RoundFails(start, steps, nc) { RoundFailedEarlier(start, steps, [step], nc); }
  }

  /** The notifier can still be notified with nil, or has been. */
  ghost predicate Hopeful(s: State, nc: nat) {
    if nc in s.closed then s.closed[nc].Nil?
    else !s.loop.Stopped? && s.loop != Notifying(nc, Failure)
  }

  /** Some run from here on ends with nil for this call. */
  ghost predicate CanReturnNil(s: State, reader: nat) {
    exists later, t :: Follows(s, later, t) && HasReturnedNil(t, reader)
  }

  lemma CanAfter(s: State, step: Step, reader: nat)
    requires Enabled(s, step) && CanReturnNil(Next(s, step), reader)
    ensures CanReturnNil(s, reader)
  {
    hide Next, Enabled;
    var r := Next(s, step);
    var later, t :| Follows(r, later, t) && HasReturnedNil(t, reader);
    assert Follows(s, [], s) && [] + [step] == [step];
    OneMore(s, [], s, step);
    FollowsConcat(s, [step], r, later, t);
  }

  lemma ReturnsClosed(s: State, reader: nat, nc: nat)
    requires WaitsOn(s, reader, nc) && nc in s.closed && s.closed[nc].Nil?
    ensures CanReturnNil(s, reader)
  {
    var t := Next(s, Return(reader));
    assert Follows(t, [], t) && HasReturnedNil(t, reader);
    CanAfter(s, Return(reader), reader);
  }

  lemma ReturnsNotifying(s: State, reader: nat, nc: nat)
    requires WaitsOn(s, reader, nc) && s.loop == Notifying(nc, Nil)
    ensures CanReturnNil(s, reader)
  {
    ReturnsClosed(Next(s, Notify), reader, nc);
    CanAfter(s, Notify, reader);
  }

  /** With or without seeing the progress of the apply loop at once. */
  lemma ReturnsConfirmed(s: State, reader: nat, nc: nat, waits: bool)
    requires Inv(s) && WaitsOn(s, reader, nc) && s.loop.Confirmed? && s.loop.nr == nc
    ensures CanReturnNil(s, reader)
  {
    var upto := if s.applied < s.loop.index then s.loop.index else s.applied;
    var apply := Apply(upto, if waits then s.appliedIndex else upto);
    var see := if waits then WaitApplied else SeeApplied;
    ReturnsNotifying(Next(Next(s, apply), see), reader, nc);
    CanAfter(Next(s, apply), see, reader);
    CanAfter(s, apply, reader);
  }

  lemma ReturnsRequesting(s: State, reader: nat, nc: nat)
    requires Inv(s) && WaitsOn(s, reader, nc) && (s.loop.Swapped? || s.loop.Requesting?) && s.loop.nr == nc
    ensures CanReturnNil(s, reader)
  {
    var r := Next(s, Send);
    var reply := Reply(s.loop.id, s.commit);
    assert s.commit in r.sends[s.loop.id];
    StepKeeps(s, Send);
    StepKeeps(r, reply);
    hide Inv;
    ReturnsConfirmed(Next(r, reply), reader, nc, false);
    CanAfter(r, reply, reader);
    CanAfter(s, Send, reader);
  }

  lemma ReturnsServed(s: State, reader: nat, nc: nat)
    requires Inv(s) && WaitsOn(s, reader, nc) && HasNotifier(s.loop) && s.loop.nr == nc && Hopeful(s, nc)
    ensures CanReturnNil(s, reader)
  {
    if s.loop.Confirmed? {
      ReturnsConfirmed(s, reader, nc, true);
    } else if s.loop.Notifying? {
      assert s.loop == Notifying(nc, s.loop.result);
      ReturnsNotifying(s, reader, nc);
    } else {
      ReturnsRequesting(s, reader, nc);
    }
  }

  lemma ReturnsTaken(s: State, reader: nat)
    requires Inv(s) && WaitsOn(s, reader, s.current) && s.loop.TookToken?
    ensures CanReturnNil(s, reader)
  {
    StepKeeps(s, Swap);
    ReturnsServed(Next(s, Swap), reader, s.current);
    CanAfter(s, Swap, reader);
  }

  lemma ReturnsWaiting(s: State, reader: nat)
    requires Inv(s) && WaitsOn(s, reader, s.current) && s.loop.Waiting?
    ensures CanReturnNil(s, reader)
  {
    assert Remembered(s, s.current);
    StepKeeps(s, TakeToken);
    ReturnsTaken(Next(s, TakeToken), reader);
    CanAfter(s, TakeToken, reader);
  }

  lemma ReturnsAfterNotify(s: State, reader: nat)
    requires Inv(s) && WaitsOn(s, reader, s.current) && s.loop.Notifying?
    ensures CanReturnNil(s, reader)
  {
    StepKeeps(s, Notify);
    ReturnsWaiting(Next(s, Notify), reader);
    CanAfter(s, Notify, reader);
  }

  lemma ReturnsAfterConfirmed(s: State, reader: nat)
    requires Inv(s) && WaitsOn(s, reader, s.current) && s.loop.Confirmed?
    ensures CanReturnNil(s, reader)
  {
    var upto := if s.applied < s.loop.index then s.loop.index else s.applied;
    var r := Next(s, Apply(upto, upto));
    StepKeeps(s, Apply(upto, upto));
    StepKeeps(r, SeeApplied);
    hide Inv;
    ReturnsAfterNotify(Next(r, SeeApplied), reader);
    CanAfter(r, SeeApplied, reader);
    CanAfter(s, Apply(upto, upto), reader);
  }

  /** A round for others comes first; even if it ends badly, those who wait on the
      notifier in place do not notice. */
  lemma ReturnsAfterRound(s: State, reader: nat)
    requires Inv(s) && WaitsOn(s, reader, s.current) && HasNotifier(s.loop)
    ensures CanReturnNil(s, reader)
  {
    if s.loop.Notifying? {
      ReturnsAfterNotify(s, reader);
    } else if s.loop.Confirmed? {
      ReturnsAfterConfirmed(s, reader);
    } else {
      StepKeeps(s, SendFails);
      ReturnsAfterNotify(Next(s, SendFails), reader);
      CanAfter(s, SendFails, reader);
    }
  }

  lemma ReturnsHopeful(s: State, reader: nat, nc: nat)
    requires Inv(s) && WaitsOn(s, reader, nc) && Hopeful(s, nc)
    ensures CanReturnNil(s, reader)
  {
    assert Remembered(s, nc);
    if nc in s.closed {
      ReturnsClosed(s, reader, nc);
    } else if nc != s.current {
      ReturnsServed(s, reader, nc);
    } else if HasNotifier(s.loop) {
      ReturnsAfterRound(s, reader);
    } else if s.loop.TookToken? {
      ReturnsTaken(s, reader);
    } else {
      ReturnsWaiting(s, reader);
    }
  }

  lemma HopelessStays(s: State, step: Step, reader: nat, nc: nat)
    requires Inv(s) && Enabled(s, step) && !Hopeful(s, nc) && (WaitsOn(s, reader, nc) || HasFailed(s, reader))
    ensures var t := Next(s, step); !Hopeful(t, nc) && (WaitsOn(t, reader, nc) || HasFailed(t, reader))
  {
  }

  lemma {:induction false} HopelessFollows(s: State, reader: nat, nc: nat, later: seq<Step>, t: State)
    requires Inv(s) && WaitsOn(s, reader, nc) && !Hopeful(s, nc) && Follows(s, later, t)
    ensures !Hopeful(t, nc) && (WaitsOn(t, reader, nc) || HasFailed(t, reader))
  {
    if later != [] {
      var last := |later| - 1;
      var r :| Follows(s, later[..last], r) && Goes(r, later[last], t);
      HopelessFollows(s, reader, nc, later[..last], r);
      FollowsKeeps(s, later[..last], r);
      HopelessStays(r, later[last], reader, nc);
    }
  }

  /** At any point of any run, a call that waits can still return nil if and only if
      its notifier has not failed: it was notified with nil, or the loop runs and is
      not about to notify it of a failure. */
  lemma AnswerableExactly(start: State, steps: seq<Step>, s: State, reader: nat, nc: nat)
    requires Start(start) && Follows(start, steps, s) && WaitsOn(s, reader, nc)
    ensures CanReturnNil(s, reader) <==> Hopeful(s, nc)
  {
    RunKeeps(start, steps, s);
    if Hopeful(s, nc) {
      ReturnsHopeful(s, reader, nc);
    } else if CanReturnNil(s, reader) {
      var later, t :| Follows(s, later, t) && HasReturnedNil(t, reader);
      HopelessFollows(s, reader, nc, later, t);
    }
  }

  /** Those who wait when the loop stops, on a notifier not notified yet, get no answer. */
  lemma NoneAfterStop(start: State, steps: seq<Step>, s: State, reader: nat, nc: nat)
    requires Start(start) && Follows(start, steps, s) && WaitsOn(s, reader, nc) && nc !in s.closed
    ensures !CanReturnNil(Next(s, Stop), reader)
  {
    RunKeeps(start, steps, s);
    StepKeeps(s, Stop);
    var r := Next(s, Stop);
    if CanReturnNil(r, reader) {
      var later, t :| Follows(r, later, t) && HasReturnedNil(t, reader);
      HopelessFollows(r, reader, nc, later, t);
    }
  }

  /** A request is repeated under its id; the reply to the first one, delayed beyond a
      commit, still confirms the index that it was asked for. */
  lemma LateReplyCounts(start: State, steps: seq<Step>, s: State, to: nat) returns (t: State)
    requires Start(start) && Follows(start, steps, s) && s.loop.Swapped? && to >= s.commit
    ensures Follows(s, [Send, Commit(to), Send, Reply(s.loop.id, s.commit)], t)
    ensures t.loop == Confirmed(s.loop.nr, s.commit) && t.commit == to
  {
    RunKeeps(start, steps, s);
    var reply := Reply(s.loop.id, s.commit);
    var a := Next(s, Send);
    var b := Next(a, Commit(to));
    var c := Next(b, Send);
    assert s.commit in c.sends[s.loop.id];
    t := Next(c, reply);
    assert Follows(s, [], s);
    hide Inv, Start, Enabled, Next, Follows;
    assert [] + [Send] == [Send] && [Send] + [Commit(to)] == [Send, Commit(to)];
    assert [Send, Commit(to)] + [Send] == [Send, Commit(to), Send];
    assert [Send, Commit(to), Send] + [reply] == [Send, Commit(to), Send, reply];
    OneMore(s, [], s, Send);
    OneMore(s, [Send], a, Commit(to));
    OneMore(s, [Send, Commit(to)], b, Send);
    OneMore(s, [Send, Commit(to), Send], c, reply);
  }

  ghost function Signals(steps: seq<Step>): nat {
    if steps == [] then 0
    else Signals(steps[..|steps| - 1]) + if steps[|steps| - 1].Signal? then 1 else 0
  }

  ghost function Rounds(steps: seq<Step>): nat {
    if steps == [] then 0
    else Rounds(steps[..|steps| - 1]) + if steps[|steps| - 1].TakeToken? then 1 else 0
  }

  /** No round without a call that asked for it: one signal starts one round at most. */
  lemma {:induction false} RoundsAreAskedFor(start: State, steps: seq<Step>, s: State)
    requires Start(start) && Follows(start, steps, s)
    ensures Rounds(steps) + (if s.token then 1 else 0) <= Signals(steps)
  {
    if steps != [] {
      var r := LastStep(start, steps, s);
      RoundsAreAskedFor(start, steps[..|steps| - 1], r);
      TokenStep(r, steps[|steps| - 1]);
      hide Follows, Enabled, Next;
    }
  }

  lemma TokenStep(s: State, step: Step)
    requires Enabled(s, step)
    ensures Next(s, step).token == (step.Signal? || (s.token && !step.TakeToken?)) && (step.TakeToken? ==> s.token)
  {
  }

  /** A new call can be answered at any point of any run, as long as the loop runs. */
  lemma NewCallAnswerable(start: State, steps: seq<Step>, s: State, reader: nat)
    requires Start(start) && Follows(start, steps, s) && !s.loop.Stopped? && Enabled(s, Call(reader))
    ensures CanReturnNil(Next(s, Call(reader)), reader)
  {
    RunKeeps(start, steps, s);
    var a := Next(s, Call(reader));
    var b := Next(a, Load(reader));
    var c := Next(b, Signal(reader));
    StepKeeps(s, Call(reader));
    StepKeeps(a, Load(reader));
    StepKeeps(b, Signal(reader));
    ReturnsHopeful(c, reader, s.current);
    CanAfter(b, Signal(reader), reader);
    CanAfter(a, Load(reader), reader);
  }
}
