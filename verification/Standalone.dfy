// Forcing a member to restart alone: cut what is not committed, then append entries
// that reduce the membership to the member itself.
module Standalone {
  datatype Change = NoChange | AddNode(id: nat) | AddLearnerNode(id: nat) | RemoveNode(id: nat) | UpdateNode(id: nat)
  datatype Entry = Entry(index: nat, term: nat, change: Change)

  function Voters(voters: seq<nat>): set<nat> {
    set v | v in voters
  }

  /** The members as getIDs counts them: voters and learners alike. */
  function After(ids: set<nat>, c: Change): set<nat> {
    match c
    case AddNode(id) => ids + {id}
    case AddLearnerNode(id) => ids + {id}
    case RemoveNode(id) => ids - {id}
    case UpdateNode(_) => ids
    case NoChange => ids
  }

  function Members(ids: set<nat>, ents: seq<Entry>): set<nat> {
    if ents == [] then ids else After(Members(ids, ents[..|ents| - 1]), ents[|ents| - 1].change)
  }

  predicate Adds(c: Change, id: nat) {
    c == AddNode(id) || c == AddLearnerNode(id)
  }

  ghost predicate NotRemoved(ents: seq<Entry>, from: nat, id: nat) {
    forall j :: from <= j < |ents| ==> ents[j].change != RemoveNode(id)
  }

  /** A member is one that was there or was added, as a learner or not, and was not
      removed after that. */
  lemma {:induction false} MembersExactly(ids: set<nat>, ents: seq<Entry>, id: nat)
    ensures id in Members(ids, ents) <==>
      || (id in ids && NotRemoved(ents, 0, id))
      || exists i :: 0 <= i < |ents| && Adds(ents[i].change, id) && NotRemoved(ents, i, id)
  {
    if ents != [] {
      var n := |ents| - 1;
      var front := ents[..n];
      MembersExactly(ids, front, id);
      if Adds(ents[n].change, id) {
        assert NotRemoved(ents, n, id);
      } else if ents[n].change == RemoveNode(id) {
        assert forall i :: 0 <= i < |ents| ==> !NotRemoved(ents, i, id);
      } else {
        assert forall i :: 0 <= i < |ents| ==> (NotRemoved(ents, i, id) <==> NotRemoved(front, i, id));
        assert forall i :: 0 <= i < |front| ==> front[i] == ents[i];
      }
    }
  }

  lemma {:induction false} MembersConcat(ids: set<nat>, a: seq<Entry>, b: seq<Entry>)
    ensures Members(ids, a + b) == Members(Members(ids, a), b)
  {
    if b == [] {
      assert a + b == a;
    } else {
      MembersConcat(ids, a, b[..|b| - 1]);
      assert (a + b)[..|a + b| - 1] == a + b[..|b| - 1];
    }
  }

  /** Raft's own configuration. A change to a learner takes its vote away. */
  datatype Config = Config(voters: set<nat>, learners: set<nat>)

  function Changed(c: Config, change: Change): Config {
    match change
    case AddNode(id) => Config(c.voters + {id}, c.learners - {id})
    case AddLearnerNode(id) => Config(c.voters - {id}, c.learners + {id})
    case RemoveNode(id) => Config(c.voters - {id}, c.learners - {id})
    case UpdateNode(_) => c
    case NoChange => c
  }

  function ConfigAfter(c: Config, ents: seq<Entry>): Config {
    if ents == [] then c else Changed(ConfigAfter(c, ents[..|ents| - 1]), ents[|ents| - 1].change)
  }

  /** Nothing from this entry on changes the role of the id. */
  ghost predicate Untouched(ents: seq<Entry>, from: nat, id: nat) {
    forall j :: from <= j < |ents| ==> !Adds(ents[j].change, id) && ents[j].change != RemoveNode(id)
  }

  /** The last entry that is about an id decides its role: a voter or a learner is one
      that was added as such, or was one before and has not been touched. */
  lemma {:induction false} RolesExactly(c: Config, ents: seq<Entry>, id: nat)
    ensures id in ConfigAfter(c, ents).voters <==>
      || (id in c.voters && Untouched(ents, 0, id))
      || exists i :: 0 <= i < |ents| && ents[i].change == AddNode(id) && Untouched(ents, i + 1, id)
    ensures id in ConfigAfter(c, ents).learners <==>
      || (id in c.learners && Untouched(ents, 0, id))
      || exists i :: 0 <= i < |ents| && ents[i].change == AddLearnerNode(id) && Untouched(ents, i + 1, id)
  {
    if ents != [] {
      var n := |ents| - 1;
      var front, last := ents[..n], ents[n].change;
      RolesExactly(c, front, id);
      assert forall i :: 0 <= i < n ==> front[i] == ents[i];
      if Adds(last, id) || last == RemoveNode(id) {
        assert Untouched(ents, n + 1, id) && ents[n].change == last;
        assert forall i :: 0 <= i <= n ==> !Untouched(ents, i, id);
      } else {
        assert forall i :: 0 <= i <= n ==> (Untouched(ents, i, id) <==> Untouched(front, i, id));
      }
    }
  }

  lemma {:induction false} ConfigConcat(c: Config, a: seq<Entry>, b: seq<Entry>)
    ensures ConfigAfter(c, a + b) == ConfigAfter(ConfigAfter(c, a), b)
  {
    if b == [] {
      assert a + b == a;
    } else {
      ConfigConcat(c, a, b[..|b| - 1]);
      assert (a + b)[..|a + b| - 1] == a + b[..|b| - 1];
    }
  }

  /** Every voter is a member that getIDs knows. */
  lemma {:induction false} VotersKnown(c: Config, ents: seq<Entry>)
    ensures ConfigAfter(c, ents).voters <= Members(c.voters, ents)
  {
    if ents != [] { VotersKnown(c, ents[..|ents| - 1]); }
  }

  ghost predicate Sorted(s: seq<nat>) {
    forall i, j :: 0 <= i < j < |s| ==> s[i] < s[j]
  }

  /** Entries that follow the index without a gap. */
  ghost predicate Contiguous(index: nat, ents: seq<Entry>) {
    forall i :: 0 <= i < |ents| ==> ents[i].index == index + 1 + i
  }

  lemma EmptyIfNone(s: set<nat>)
    requires forall x :: x !in s
    ensures s == {}
  {
  }

  lemma HasMember(s: set<nat>)
    requires s != {}
    ensures exists x :: x in s
  {
    if forall x :: x !in s { EmptyIfNone(s); }
  }

  method Insert(s: seq<nat>, x: nat) returns (r: seq<nat>)
    requires Sorted(s) && x !in s
    ensures Sorted(r) && forall y :: y in r <==> y in s || y == x
  {
    var i := 0;
    while i < |s| && s[i] < x
      invariant i <= |s| && forall j :: 0 <= j < i ==> s[j] < x
    {
      i := i + 1;
    }
    r := s[..i] + [x] + s[i..];
  }

  /** getIDs: the members by the snapshot's voters and the entries, in order. */
  method GetIDs(voters: seq<nat>, ents: seq<Entry>) returns (sids: seq<nat>)
    ensures Sorted(sids)
    ensures forall id :: id in sids <==> id in Members(Voters(voters), ents)
  {
    var ids: set<nat> := {};
    for i := 0 to |voters|
      invariant ids == Voters(voters[..i])
    {
      ids := ids + {voters[i]};
    }
    assert voters[..|voters|] == voters;
    for i := 0 to |ents|
      invariant ids == Members(Voters(voters), ents[..i])
    {
      assert ents[..i + 1][..i] == ents[..i];
      match ents[i].change
      case NoChange => continue;
      case AddLearnerNode(id) => ids := ids + {id};
      case AddNode(id) => ids := ids + {id};
      case RemoveNode(id) => ids := ids - {id};
      case UpdateNode(_) =>
    }
    assert ents[..|ents|] == ents;
    sids := [];
    ghost var all := ids;
    while ids != {}
      invariant ids <= all && Sorted(sids)
      invariant forall id :: id in sids <==> id in all && id !in ids
      decreases |ids|
    {
      HasMember(ids);
      var id :| id in ids;
      sids := Insert(sids, id);
      ids := ids - {id};
    }
  }

  function Removals(ids: seq<nat>, self: nat, term: nat, index: nat): seq<Entry> {
    if ids == [] then []
    else
      var front := Removals(ids[..|ids| - 1], self, term, index);
      var id := ids[|ids| - 1];
      if id == self then front else front + [Entry(index + 1 + |front|, term, RemoveNode(id))]
  }

  /** What is appended: the member first, if it is not there, then a removal of every other. */
  function ConfigChanges(ids: seq<nat>, self: nat, term: nat, index: nat): seq<Entry> {
    if self in ids then Removals(ids, self, term, index)
    else [Entry(index + 1, term, AddNode(self))] + Removals(ids, self, term, index + 1)
  }

  /** createConfigChangeEnts */
  method CreateConfigChangeEnts(ids: seq<nat>, self: nat, term: nat, index: nat) returns (ents: seq<Entry>)
    ensures ents == ConfigChanges(ids, self, term, index)
  {
    var found := false;
    for i := 0 to |ids|
      invariant found <==> self in ids[..i]
    {
      if ids[i] == self { found := true; }
    }
    assert ids[..|ids|] == ids;
    ents := [];
    var next := index + 1;
    if !found {
      ents := ents + [Entry(next, term, AddNode(self))];
      next := next + 1;
    }
    ghost var head := ents;
    for i := 0 to |ids|
      invariant ents == head + Removals(ids[..i], self, term, index + |head|)
      invariant next == index + 1 + |ents|
    {
      assert ids[..i + 1][..i] == ids[..i];
      if ids[i] == self { continue; }
      ents := ents + [Entry(next, term, RemoveNode(ids[i]))];
      next := next + 1;
    }
  }

  lemma {:induction false} RemovalsRemove(ids: seq<nat>, self: nat, term: nat, index: nat, members: set<nat>)
    requires self in members
    ensures Contiguous(index, Removals(ids, self, term, index))
    ensures var left := Members(members, Removals(ids, self, term, index));
      forall id :: id in left <==> id in members && (id == self || id !in ids)
  {
    if ids != [] {
      var n := |ids| - 1;
      RemovalsRemove(ids[..n], self, term, index, members);
      var front := Removals(ids[..n], self, term, index);
      assert ids == ids[..n] + [ids[n]];
      if ids[n] != self {
        var r := Removals(ids, self, term, index);
        assert r[..|r| - 1] == front;
      }
    }
  }

  /** What removing the others leaves, of the voters and of the learners. */
  lemma {:induction false} RemovalsLeave(ids: seq<nat>, self: nat, term: nat, index: nat, c: Config)
    ensures var left := ConfigAfter(c, Removals(ids, self, term, index));
      && (forall id :: id in left.voters <==> id in c.voters && (id == self || id !in ids))
      && (forall id :: id in left.learners <==> id in c.learners && (id == self || id !in ids))
  {
    if ids != [] {
      var n := |ids| - 1;
      RemovalsLeave(ids[..n], self, term, index, c);
      var front := Removals(ids[..n], self, term, index);
      assert ids == ids[..n] + [ids[n]];
      if ids[n] != self {
        var r := Removals(ids, self, term, index);
        assert r[..|r| - 1] == front;
      }
    }
  }

  lemma {:induction false} SelfStays(ids: seq<nat>, self: nat, term: nat, index: nat, c: Config, k: nat)
    requires self in c.voters && k <= |Removals(ids, self, term, index)|
    ensures self in ConfigAfter(c, Removals(ids, self, term, index)[..k]).voters
  {
    var r := Removals(ids, self, term, index);
    if k > 0 {
      SelfStays(ids, self, term, index, c, k - 1);
      assert r[..k][..k - 1] == r[..k - 1];
      RemovesOthers(ids, self, term, index, k - 1);
    }
  }

  lemma {:induction false} RemovesOthers(ids: seq<nat>, self: nat, term: nat, index: nat, k: nat)
    requires k < |Removals(ids, self, term, index)|
    ensures var c := Removals(ids, self, term, index)[k].change; c.RemoveNode? && c.id != self
  {
    var n := |ids| - 1;
    var front := Removals(ids[..n], self, term, index);
    if k < |front| {
      RemovesOthers(ids[..n], self, term, index, k);
    }
  }

  lemma AddedFirst(ids: seq<nat>, self: nat, term: nat, index: nat, c: Config)
    requires self !in ids
    ensures var app, tail := ConfigChanges(ids, self, term, index), Removals(ids, self, term, index + 1);
      var more := Config(c.voters + {self}, c.learners - {self});
      && |app| == |tail| + 1
      && ConfigAfter(c, app) == ConfigAfter(more, tail)
      && forall k :: 0 < k <= |app| ==> ConfigAfter(c, app[..k]) == ConfigAfter(more, tail[..k - 1])
  {
    var app, tail := ConfigChanges(ids, self, term, index), Removals(ids, self, term, index + 1);
    var head := [Entry(index + 1, term, AddNode(self))];
    assert head[..0] == [];
    ConfigConcat(c, head, tail);
    forall k | 0 < k <= |app|
      ensures ConfigAfter(c, app[..k]) == ConfigAfter(Config(c.voters + {self}, c.learners - {self}), tail[..k - 1])
    {
      assert app[..k] == head + tail[..k - 1];
      ConfigConcat(c, head, tail[..k - 1]);
    }
  }

  lemma {:induction false} RemovalsTerm(ids: seq<nat>, self: nat, term: nat, index: nat)
    ensures forall e :: e in Removals(ids, self, term, index) ==> e.term == term
  {
    if ids != [] { RemovalsTerm(ids[..|ids| - 1], self, term, index); }
  }

  /** The appended entries are contiguous after the commit index and leave, of the ids
      that were found, exactly the member itself. */
  lemma ChangesLeaveSelf(ids: seq<nat>, self: nat, term: nat, index: nat, members: set<nat>)
    requires forall id :: id in ids <==> id in members
    ensures var app := ConfigChanges(ids, self, term, index);
      Contiguous(index, app) && Members(members, app) == {self} && forall e :: e in app ==> e.term == term
  {
    RemovalsTerm(ids, self, term, index);
    RemovalsTerm(ids, self, term, index + 1);
    if self in ids {
      RemovalsRemove(ids, self, term, index, members);
    } else {
      var head, tail := [Entry(index + 1, term, AddNode(self))], Removals(ids, self, term, index + 1);
      assert head[..0] == [] && Members(members, head) == members + {self};
      RemovalsRemove(ids, self, term, index + 1, members + {self});
      MembersConcat(members, head, tail);
    }
  }

  /** The member will have a vote: it is added, or it has one when the appended entries begin. */
  predicate GetsVote(ids: seq<nat>, self: nat, c: Config) {
    self !in ids || self in c.voters
  }

  /** After the appended entries the only voter is the member itself, and there is a voter
      on the way too, if and only if it gets a vote. A member found as a learner does not:
      it is not added, and with the last removal raft is left without voters and panics. */
  lemma VotersExactly(ids: seq<nat>, self: nat, term: nat, index: nat, c: Config)
    requires forall id :: id in c.voters ==> id in ids
    ensures var app := ConfigChanges(ids, self, term, index);
      && ConfigAfter(c, app).voters == (if GetsVote(ids, self, c) then {self} else {})
      && (GetsVote(ids, self, c) ==> forall k :: 0 < k <= |app| ==> self in ConfigAfter(c, app[..k]).voters)
  {
    var app := ConfigChanges(ids, self, term, index);
    var at, start := index, c;
    if self !in ids {
      at, start := index + 1, Config(c.voters + {self}, c.learners - {self});
      AddedFirst(ids, self, term, index, c);
    }
    RemovalsLeave(ids, self, term, at, start);
    if GetsVote(ids, self, c) {
      forall k | 0 < k <= |app|
        ensures self in ConfigAfter(c, app[..k]).voters
      {
        SelfStays(ids, self, term, at, start, if self in ids then k else k - 1);
      }
    }
  }

  /** The log surgery of restartAsStandaloneNode: the entries that were in the WAL after the
      snapshot, its commit index and term; the result is the new log and commit index. */
  method RestartAsStandalone(voters: seq<nat>, ghost learners: set<nat>, snapshot: nat, ents: seq<Entry>,
                             commit: nat, term: nat, self: nat)
    returns (log: seq<Entry>, newCommit: nat, app: seq<Entry>)
    requires Contiguous(snapshot, ents) && snapshot <= commit <= snapshot + |ents|
    ensures log == ents[..commit - snapshot] + app && Contiguous(snapshot, log)
    ensures newCommit == snapshot + |log|
    ensures Members(Voters(voters), log) == {self}
    ensures var begin := Config(Voters(voters), learners);
      var before := ConfigAfter(begin, ents[..commit - snapshot]);
      var votes := self !in Members(begin.voters, ents[..commit - snapshot]) || self in before.voters;
      && ConfigAfter(begin, log).voters == (if votes then {self} else {})
      && (votes ==> forall k :: commit - snapshot < k <= |log| ==> self in ConfigAfter(begin, log[..k]).voters)
  {
    hide Members, Removals, ConfigChanges, Sorted, ConfigAfter;
    log := ents;
    for i := 0 to |ents|
      invariant log == ents && snapshot + i <= commit
    {
      if ents[i].index > commit {
        log := ents[..i];
        break;
      }
    }
    assert log == ents[..commit - snapshot];
    ghost var kept := log;
    var ids := GetIDs(voters, log);
    app := CreateConfigChangeEnts(ids, self, term, commit);
    ghost var begin := Config(Voters(voters), learners);
    ChangesLeaveSelf(ids, self, term, commit, Members(begin.voters, kept));
    VotersKnown(begin, kept);
    VotersExactly(ids, self, term, commit, ConfigAfter(begin, kept));
    log := log + app;
    MembersConcat(begin.voters, kept, app);
    ConfigConcat(begin, kept, app);
    newCommit := commit;
    if |log| != 0 { newCommit := log[|log| - 1].index; }
    forall k | commit - snapshot < k <= |log|
      ensures ConfigAfter(begin, log[..k]) == ConfigAfter(ConfigAfter(begin, kept), app[..k - |kept|])
    {
      assert log[..k] == kept + app[..k - |kept|];
      ConfigConcat(begin, kept, app[..k - |kept|]);
    }
  }

  // ----- learners -----

  /** Raft's configuration starts from the snapshot's learners as well. The member ends
      up alone if and only if it gets a vote and no other learner of the snapshot is left
      that the entries neither promoted nor removed. */
  lemma AloneExactly(begin: Config, kept: seq<Entry>, ids: seq<nat>, self: nat, term: nat, commit: nat)
    requires forall id :: id in ids <==> id in Members(begin.voters, kept)
    requires begin.voters !! begin.learners
    ensures var c := ConfigAfter(begin, kept);
      ConfigAfter(begin, kept + ConfigChanges(ids, self, term, commit)) == Config({self}, {}) <==>
        GetsVote(ids, self, c) && forall id :: id in c.learners ==> id in ids || id == self
  {
    var c := ConfigAfter(begin, kept);
    ConfigConcat(begin, kept, ConfigChanges(ids, self, term, commit));
    VotersKnown(begin, kept);
    VotersExactly(ids, self, term, commit, c);
    LearnersLeft(ids, self, term, commit, c);
    NeverBoth(begin, kept, self);
  }

  lemma LearnersLeft(ids: seq<nat>, self: nat, term: nat, index: nat, c: Config)
    ensures forall id :: id in ConfigAfter(c, ConfigChanges(ids, self, term, index)).learners <==>
      id in c.learners && (if id == self then self in ids else id !in ids)
  {
    if self in ids {
      RemovalsLeave(ids, self, term, index, c);
    } else {
      AddedFirst(ids, self, term, index, c);
      RemovalsLeave(ids, self, term, index + 1, Config(c.voters + {self}, c.learners - {self}));
    }
  }

  lemma {:induction false} NeverBoth(c: Config, ents: seq<Entry>, id: nat)
    requires !(id in c.voters && id in c.learners)
    ensures var d := ConfigAfter(c, ents); !(id in d.voters && id in d.learners)
  {
    if ents != [] { NeverBoth(c, ents[..|ents| - 1], id); }
  }

  /** A snapshot with a learner beside its only voter: the member is not alone afterwards. */
  lemma LearnerStays() returns (begin: Config, ids: seq<nat>)
    ensures forall id :: id in ids <==> id in Members(begin.voters, [])
    ensures ConfigAfter(begin, [] + ConfigChanges(ids, 1, 3, 7)) == Config({1}, {2})
  {
    begin, ids := Config({1}, {2}), [1];
    assert ids[..0] == [] && Removals([], 1, 3, 7) == [];
    assert Removals(ids, 1, 3, 7) == [];
  }

  /** A member that was added as a learner: removing the only voter leaves none. */
  lemma LearnerGetsNoVote() returns (begin: Config, kept: seq<Entry>, ids: seq<nat>)
    ensures forall id :: id in ids <==> id in Members(begin.voters, kept)
    ensures ConfigAfter(begin, kept + ConfigChanges(ids, 1, 3, 1)).voters == {}
  {
    begin, kept, ids := Config({2}, {}), [Entry(1, 3, AddLearnerNode(1))], [1, 2];
    assert kept[..0] == [];
    assert ConfigAfter(begin, kept) == Config({2}, {1});
    ConfigConcat(begin, kept, ConfigChanges(ids, 1, 3, 1));
    VotersExactly(ids, 1, 3, 1, ConfigAfter(begin, kept));
  }
}
