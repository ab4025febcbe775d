// Users, roles and the cache of merged permissions as one state machine.
module AuthStores {
  import opened Bytes

  const ROOT: Key := [114, 111, 111, 116]

  datatype Kind = READ | WRITE | READWRITE
  datatype Permission = Permission(key: Key, rangeEnd: Key, kind: Kind)
  datatype User = User(roles: seq<Key>, password: seq<byte>, noPassword: bool)

  /** What the interval trees hold; an open interval has no end. */
  datatype Interval = Point(key: Key) | Bounded(begin: Key, end: Key) | Open(begin: Key)
  datatype Unified = Unified(read: set<Interval>, write: set<Interval>)

  type Roles = map<Key, seq<Permission>>
  type Users = map<Key, User>

  datatype Outcome =
    | Done | UserEmpty | UserAlreadyExist | UserNotFound | RoleEmpty | RoleAlreadyExist | RoleNotFound
    | RoleNotGranted | PermissionNotGranted | InvalidAuthMgmt | RootUserNotExist | RootRoleNotExist

  function RangeOf(key: Key, rangeEnd: Key): Interval {
    if rangeEnd == [] then Point(key) else if rangeEnd == [0] then Open(key) else Bounded(key, rangeEnd)
  }

  function IntervalOf(p: Permission): Interval {
    RangeOf(p.key, p.rangeEnd)
  }

  predicate Includes(kind: Kind, write: bool) {
    kind == READWRITE || kind == if write then WRITE else READ
  }

  predicate IsValidPermissionRange(key: Key, rangeEnd: Key) {
    key != [] && (rangeEnd == [] || Less(key, rangeEnd) || rangeEnd == [0])
  }

  /** A permission range is valid if and only if it holds some key. */
  lemma ValidRangesHoldKeys(key: Key, rangeEnd: Key)
    requires key != []
    ensures IsValidPermissionRange(key, rangeEnd) <==> exists k :: Selects(key, rangeEnd, k)
  {
    LessTotal(key, key);
    if IsValidPermissionRange(key, rangeEnd) { assert Selects(key, rangeEnd, key); }
    if k :| Selects(key, rangeEnd, k) && !IsValidPermissionRange(key, rangeEnd) {
      BelowTransitive(key, k, rangeEnd);
    }
  }

  lemma NoEmptyKey(rangeEnd: Key)
    ensures !IsValidPermissionRange([], rangeEnd)
  {
  }

  // ----- what the cache should hold -----

  function OfPerms(perms: seq<Permission>, write: bool): set<Interval> {
    set i | 0 <= i < |perms| && Includes(perms[i].kind, write) :: IntervalOf(perms[i])
  }

  /** Everything that the roles of this list which exist allow. */
  function OfRoles(roles: Roles, names: seq<Key>, write: bool): set<Interval> {
    set n, x | n in names && n in roles && x in OfPerms(roles[n], write) :: x
  }

  function Merge(roles: Roles, user: User): Unified {
    Unified(OfRoles(roles, user.roles, false), OfRoles(roles, user.roles, true))
  }

  ghost predicate Coherent(users: Users, roles: Roles, cache: map<Key, Unified>) {
    cache.Keys == users.Keys && forall name :: name in users ==> cache[name] == Merge(roles, users[name])
  }

  ghost predicate RolesSorted(users: Users) {
    forall name :: name in users ==> Ascending(users[name].roles)
  }

  ghost predicate RootSafe(users: Users) {
    ROOT in users && ROOT in users[ROOT].roles
  }

  ghost predicate ByKey(perms: seq<Permission>) {
    forall i, j :: 0 <= i < j < |perms| ==> !Less(perms[j].key, perms[i].key)
  }

  ghost predicate PermsSorted(roles: Roles) {
    forall name :: name in roles ==> ByKey(roles[name])
  }

  lemma OneRoleSorted(roles: Roles, name: Key, perms: seq<Permission>)
    requires PermsSorted(roles) && ByKey(perms)
    ensures PermsSorted(roles[name := perms])
  {
  }

  /** A role without permissions adds nothing, whoever has been granted it before it existed. */
  lemma NewRoleAddsNothing(roles: Roles, name: Key, users: Users, cache: map<Key, Unified>)
    requires name !in roles && Coherent(users, roles, cache)
    ensures Coherent(users, roles[name := []], cache)
  {
    forall u | u in users
      ensures Merge(roles[name := []], users[u]) == Merge(roles, users[u])
    {
      NothingMore(roles, name, users[u].roles, false);
      NothingMore(roles, name, users[u].roles, true);
    }
  }

  lemma NothingMore(roles: Roles, name: Key, names: seq<Key>, write: bool)
    requires name !in roles
    ensures OfRoles(roles[name := []], names, write) == OfRoles(roles, names, write)
  {
    var more := roles[name := []];
    assert OfPerms(more[name], write) == {};
    forall x | x in OfRoles(roles, names, write)
      ensures x in OfRoles(more, names, write)
    {
      var n :| n in names && n in roles && x in OfPerms(roles[n], write);
      assert n in more && x in OfPerms(more[n], write);
    }
    forall x | x in OfRoles(more, names, write)
      ensures x in OfRoles(roles, names, write)
    {
      var n :| n in names && n in more && x in OfPerms(more[n], write);
      assert n in roles;
    }
  }

  function Without(names: seq<Key>, name: Key): seq<Key> {
    if names == [] then []
    else
      var front := Without(names[..|names| - 1], name);
      if names[|names| - 1] == name then front else front + [names[|names| - 1]]
  }

  lemma {:induction false} WithoutMembers(names: seq<Key>, name: Key)
    ensures forall x :: x in Without(names, name) <==> x in names && x != name
    ensures |Without(names, name)| <= |names|
    ensures |Without(names, name)| == |names| <==> name !in names
  {
    if names != [] {
      WithoutMembers(names[..|names| - 1], name);
      assert names == names[..|names| - 1] + [names[|names| - 1]];
    }
  }

  lemma {:induction false} WithoutAscending(names: seq<Key>, name: Key)
    requires Ascending(names)
    ensures Ascending(Without(names, name))
  {
    if names != [] {
      var front := names[..|names| - 1];
      WithoutAscending(front, name);
      WithoutMembers(front, name);
      var kept := Without(front, name);
      forall i | 0 <= i < |kept|
        ensures Less(kept[i], names[|names| - 1])
      {
        assert kept[i] in kept && kept[i] in front;
        var j :| 0 <= j < |front| && front[j] == kept[i];
        assert names[j] == kept[i];
      }
    }
  }

  /** A user who has lost a role and nothing else. */
  ghost predicate RoleTaken(was: User, role: Key, now: User) {
    && now.password == was.password && now.noPassword == was.noPassword
    && Ascending(now.roles)
    && forall x :: x in now.roles <==> x in was.roles && x != role
  }

  // ----- searching and sorting -----

  ghost predicate NonDescending(a: seq<Key>) {
    forall i, j :: 0 <= i < j < |a| ==> !Less(a[j], a[i])
  }

  /** The first position whose element is not below x. */
  ghost predicate LowerBound(a: seq<Key>, x: Key, i: nat) {
    && i <= |a|
    && (forall k :: 0 <= k < i ==> Less(a[k], x))
    && (forall k :: i <= k < |a| ==> !Less(a[k], x))
  }

  /** The binary search of sort.Search, which sort.SearchStrings uses too. */
  method Search(a: seq<Key>, x: Key) returns (i: nat)
    requires NonDescending(a)
    ensures LowerBound(a, x, i)
  {
    i := 0;
    var j := |a|;
    while i < j
      invariant i <= j <= |a|
      invariant forall k :: 0 <= k < i ==> Less(a[k], x)
      invariant forall k :: j <= k < |a| ==> !Less(a[k], x)
    {
      var h := (i + j) / 2;
      if Less(a[h], x) {
        forall k | 0 <= k <= h
          ensures Less(a[k], x)
        {
          if k < h { BelowTransitive(a[k], a[h], x); }
        }
        i := h + 1;
      } else {
        forall k | h <= k < |a|
          ensures !Less(a[k], x)
        {
          if k > h && Less(a[k], x) { BelowTransitive(a[h], a[k], x); }
        }
        j := h;
      }
    }
  }

  /** Binary search decides membership because the list is kept sorted. */
  method Holds(a: seq<Key>, x: Key) returns (found: bool)
    requires Ascending(a)
    ensures found <==> x in a
  {
    forall i, j | 0 <= i < j < |a|
      ensures !Less(a[j], a[i])
    {
      if Less(a[j], a[i]) {
        LessTransitive(a[i], a[j], a[i]);
        LessTotal(a[i], a[i]);
      }
    }
    var i := Search(a, x);
    found := i < |a| && a[i] == x;
    LessTotal(x, x);
    forall k | 0 <= k < |a| && a[k] == x
      ensures k == i
    {
    }
  }

  function KeysOf(perms: seq<Permission>): (keys: seq<Key>)
    ensures |keys| == |perms| && forall i :: 0 <= i < |perms| ==> keys[i] == perms[i].key
  {
    seq(|perms|, i requires 0 <= i < |perms| => perms[i].key)
  }

  /** Only the first permission with the key is compared: when it has the range as well it
      is replaced, otherwise one more is added and nothing else changes. */
  ghost predicate Granted(before: seq<Permission>, perm: Permission, i: nat, after: seq<Permission>) {
    && LowerBound(KeysOf(before), perm.key, i)
    && if i < |before| && before[i].key == perm.key && before[i].rangeEnd == perm.rangeEnd
       then after == before[i := perm]
       else multiset(after) == multiset(before) + multiset{perm}
  }

  lemma BelowTransitive(a: Key, b: Key, c: Key)
    requires !Less(b, a) && Less(b, c)
    ensures Less(a, c)
  {
    LessTotal(a, b);
    if a != b { LessTransitive(a, b, c); }
  }

  // ----- the store -----

  class AuthStore {
    var users: Users
    var roles: Roles
    var enabled: bool
    var revision: nat
    var rangePermCache: map<Key, Unified>

    /** The cache holds exactly the stored users with what their roles allow now, role
        lists are sorted without duplicates, and while authentication is enabled the
        root user exists with the root role. */
    ghost predicate Valid()
      reads this
    {
      && Coherent(users, roles, rangePermCache)
      && RolesSorted(users) && PermsSorted(roles)
      && (enabled ==> RootSafe(users))
    }

    constructor ()
      ensures Valid() && users == map[] && roles == map[] && !enabled
    {
      users, roles, enabled, revision, rangePermCache := map[], map[], false, 0, map[];
    }

    /** getMergedPerms */
    method GetMergedPerms(name: Key) returns (merged: Unified)
      requires name in users
      ensures merged == Merge(roles, users[name])
    {
      var names := users[name].roles;
      var read, write: set<Interval> := {}, {};
      for i := 0 to |names|
        invariant read == OfRoles(roles, names[..i], false)
        invariant write == OfRoles(roles, names[..i], true)
      {
        OneMoreRole(roles, names, i, false);
        OneMoreRole(roles, names, i, true);
        if names[i] in roles {
          read, write := InsertPerms(roles[names[i]], read, write);
        }
      }
      assert names[..|names|] == names;
      merged := Unified(read, write);
    }

    /** The inner loop of getMergedPerms, which fills the two trees. */
    method InsertPerms(perms: seq<Permission>, read0: set<Interval>, write0: set<Interval>)
      returns (read: set<Interval>, write: set<Interval>)
      ensures read == read0 + OfPerms(perms, false)
      ensures write == write0 + OfPerms(perms, true)
    {
      read, write := read0, write0;
      for j := 0 to |perms|
        invariant read == read0 + OfPerms(perms[..j], false)
        invariant write == write0 + OfPerms(perms[..j], true)
      {
        OneMorePerm(perms, j, false);
        OneMorePerm(perms, j, true);
        var ivl := IntervalOf(perms[j]);
        match perms[j].kind
        case READWRITE => read := read + {ivl}; write := write + {ivl};
        case READ => read := read + {ivl};
        case WRITE => write := write + {ivl};
      }
      assert perms[..|perms|] == perms;
    }

    /** refreshRangePermCache, in the order in which the bucket hands out the users. */
    method RefreshRangePermCache()
      modifies this`rangePermCache
      ensures Coherent(users, roles, rangePermCache)
    {
      rangePermCache := map[];
      var names := SortKeys(users.Keys);
      for i := 0 to |names|
        invariant forall name :: name in rangePermCache <==> name in names[..i]
        invariant forall name :: name in rangePermCache ==>
          name in users && rangePermCache[name] == Merge(roles, users[name])
      {
        assert names[i] in names;
        var perms := GetMergedPerms(names[i]);
        rangePermCache := rangePermCache[names[i] := perms];
      }
      assert names[..|names|] == names;
      assert rangePermCache.Keys == users.Keys;
    }

    method CommitRevision()
      modifies this`revision
      ensures revision == old(revision) + 1
    {
      revision := revision + 1;
    }

    /** Every mutation that reaches the backend ends with these. */
    method Committed()
      requires RolesSorted(users) && PermsSorted(roles) && (enabled ==> RootSafe(users))
      modifies this`revision, this`rangePermCache
      ensures Valid() && revision == old(revision) + 1
    {
      CommitRevision();
      RefreshRangePermCache();
    }

    method HasRootRole(u: User) returns (r: bool)
      requires Ascending(u.roles)
      ensures r <==> ROOT in u.roles
    {
      r := Holds(u.roles, ROOT);
    }

    method AuthEnable() returns (err: Outcome)
      requires Valid()
      modifies this`enabled, this`rangePermCache
      ensures Valid()
      ensures err ==
        if old(enabled) then Done
        else if ROOT !in users then RootUserNotExist
        else if ROOT !in users[ROOT].roles then RootRoleNotExist
        else Done
      ensures enabled == (old(enabled) || err.Done?)
    {
      if enabled { return Done; }
      if ROOT !in users { return RootUserNotExist; }
      var rooted := HasRootRole(users[ROOT]);
      if !rooted { return RootRoleNotExist; }
      enabled := true;
      RefreshRangePermCache();
      return Done;
    }

    method AuthDisable()
      requires Valid()
      modifies this`enabled, this`revision
      ensures Valid() && !enabled
      ensures revision == old(revision) + (if old(enabled) then 1 else 0)
    {
      if !enabled { return; }
      CommitRevision();
      enabled := false;
    }

    /** Recover from a backend that another store has written. */
    method Recover(stored: AuthStore)
      requires stored.Valid()
      modifies this
      ensures Valid() && users == old(stored.users) && roles == old(stored.roles) && enabled == old(stored.enabled)
      ensures revision == old(stored.revision) && rangePermCache == old(stored.rangePermCache)
    {
      ghost var cache := stored.rangePermCache;
      users, roles, enabled, revision := stored.users, stored.roles, stored.enabled, stored.revision;
      RefreshRangePermCache();
      assert rangePermCache == cache;
    }

    method UserAdd(name: Key, password: seq<byte>, noPassword: bool) returns (err: Outcome)
      requires Valid()
      modifies this
      ensures Valid() && roles == old(roles) && enabled == old(enabled)
      ensures err == if name == [] then UserEmpty else if name in old(users) then UserAlreadyExist else Done
      ensures revision == old(revision) + (if err.Done? then 1 else 0)
      ensures users == if err.Done? then old(users)[name := User([], if noPassword then [] else password, noPassword)]
        else old(users)
    {
      if |name| == 0 { return UserEmpty; }
      var hashed := if noPassword then [] else password;
      if name in users { return UserAlreadyExist; }
      users := users[name := User([], hashed, noPassword)];
      Committed();
      return Done;
    }

    method UserDelete(name: Key) returns (err: Outcome)
      requires Valid()
      modifies this
      ensures Valid() && roles == old(roles) && enabled == old(enabled)
      ensures err ==
        if enabled && name == ROOT then InvalidAuthMgmt else if name !in old(users) then UserNotFound else Done
      ensures revision == old(revision) + (if err.Done? then 1 else 0)
      ensures users == if err.Done? then old(users) - {name} else old(users)
    {
      if enabled && name == ROOT { return InvalidAuthMgmt; }
      if name !in users { return UserNotFound; }
      users := users - {name};
      Committed();
      return Done;
    }

    method UserChangePassword(name: Key, password: seq<byte>) returns (err: Outcome)
      requires Valid()
      modifies this
      ensures Valid() && roles == old(roles) && enabled == old(enabled)
      ensures err == if name !in old(users) then UserNotFound else Done
      ensures revision == old(revision) + (if err.Done? then 1 else 0)
      ensures users == if err.Done? then old(users)[name := old(users)[name].(password := password)] else old(users)
    {
      if name !in users { return UserNotFound; }
      var user := users[name];
      users := users[name := User(user.roles, password, user.noPassword)];
      Committed();
      return Done;
    }

    method UserGrantRole(name: Key, role: Key) returns (err: Outcome)
      requires Valid()
      modifies this
      ensures Valid() && roles == old(roles) && enabled == old(enabled)
      ensures err ==
        if name !in old(users) then UserNotFound else if role != ROOT && role !in roles then RoleNotFound else Done
      ensures revision == old(revision) + (if users != old(users) then 1 else 0)
      ensures !err.Done? ==> users == old(users)
      ensures err.Done? ==>
        && users.Keys == old(users).Keys
        && users == old(users)[name := old(users)[name].(roles := users[name].roles)]
        && forall x :: x in users[name].roles <==> x in old(users)[name].roles || x == role
    {
      if name !in users { return UserNotFound; }
      if role != ROOT && role !in roles { return RoleNotFound; }
      var user := users[name];
      var granted := Holds(user.roles, role);
      if granted { return Done; }
      // append, then sort
      var sorted := InsertKey(user.roles, role);
      users := users[name := user.(roles := sorted)];
      Committed();
      return Done;
    }

    /** The loop of UserRevokeRole and of RoleDelete. */
    method DropRole(names: seq<Key>, role: Key) returns (kept: seq<Key>)
      ensures kept == Without(names, role)
    {
      kept := [];
      for i := 0 to |names|
        invariant kept == Without(names[..i], role)
      {
        assert names[..i + 1][..i] == names[..i];
        if names[i] != role { kept := kept + [names[i]]; }
      }
      assert names[..|names|] == names;
    }

    method UserRevokeRole(name: Key, role: Key) returns (err: Outcome)
      requires Valid()
      modifies this
      ensures Valid() && roles == old(roles) && enabled == old(enabled)
      ensures err ==
        if enabled && name == ROOT && role == ROOT then InvalidAuthMgmt
        else if name !in old(users) then UserNotFound
        else if role !in old(users)[name].roles then RoleNotGranted
        else Done
      ensures revision == old(revision) + (if err.Done? then 1 else 0)
      ensures err.Done? ==> name in users && users == old(users)[name := users[name]]
      ensures err.Done? ==> RoleTaken(old(users)[name], role, users[name])
      ensures !err.Done? ==> users == old(users)
    {
      if enabled && name == ROOT && role == ROOT { return InvalidAuthMgmt; }
      if name !in users { return UserNotFound; }
      var user := users[name];
      var kept := DropRole(user.roles, role);
      WithoutMembers(user.roles, role);
      if |kept| == |user.roles| { return RoleNotGranted; }
      WithoutAscending(user.roles, role);
      users := users[name := user.(roles := kept)];
      Committed();
      return Done;
    }

    /** RoleAdd does not refresh the cache. */
    method RoleAdd(name: Key) returns (err: Outcome)
      requires Valid()
      modifies this`roles, this`revision
      ensures Valid()
      ensures err == if name == [] then RoleEmpty else if name in old(roles) then RoleAlreadyExist else Done
      ensures revision == old(revision) + (if err.Done? then 1 else 0)
      ensures roles == if err.Done? then old(roles)[name := []] else old(roles)
    {
      if |name| == 0 { return RoleEmpty; }
      if name in roles { return RoleAlreadyExist; }
      NewRoleAddsNothing(roles, name, users, rangePermCache);
      roles := roles[name := []];
      CommitRevision();
      return Done;
    }

    method RoleDelete(name: Key) returns (err: Outcome)
      requires Valid()
      modifies this
      ensures Valid() && enabled == old(enabled)
      ensures err ==
        if enabled && name == ROOT then InvalidAuthMgmt else if name !in old(roles) then RoleNotFound else Done
      ensures revision == old(revision) + (if err.Done? then 1 else 0)
      ensures !err.Done? ==> users == old(users) && roles == old(roles)
      ensures err.Done? ==>
        && roles == old(roles) - {name}
        && users.Keys == old(users).Keys
        && forall u :: u in users ==> RoleTaken(old(users)[u], name, users[u])
    {
      if enabled && name == ROOT { return InvalidAuthMgmt; }
      if name !in roles { return RoleNotFound; }
      roles := roles - {name};
      ghost var was := users;
      StripRole(name);
      StrippedOk(was, users, name);
      Committed();
      return Done;
    }

    /** RoleDelete's walk over the users, who lose the role. */
    method StripRole(name: Key)
      modifies this`users
      ensures users == Stripped(old(users), name)
    {
      var all := SortKeys(users.Keys);
      ghost var was := users;
      for i := 0 to |all|
        invariant users == StrippedUpTo(was, all[..i], name)
      {
        StripOne(was, all, i, name);
        hide StrippedUpTo, Ascending;
        var user := users[all[i]];
        var kept := DropRole(user.roles, name);
        WithoutMembers(user.roles, name);
        if |kept| == |user.roles| {
          WithoutNothing(user.roles, name);
          continue;
        }
        users := users[all[i] := user.(roles := kept)];
      }
      assert all[..|all|] == all;
    }

    method RoleGrantPermission(name: Key, perm: Permission) returns (err: Outcome)
      requires Valid()
      modifies this
      ensures Valid() && users == old(users) && enabled == old(enabled)
      ensures err ==
        if !IsValidPermissionRange(perm.key, perm.rangeEnd) then InvalidAuthMgmt
        else if name !in old(roles) then RoleNotFound
        else Done
      ensures revision == old(revision) + (if err.Done? then 1 else 0)
      ensures !err.Done? ==> roles == old(roles)
      ensures err.Done? ==> name in roles && roles == old(roles)[name := roles[name]]
      ensures err.Done? ==> GrantedRightly(old(roles)[name], perm, roles[name])
    {
      if !IsValidPermissionRange(perm.key, perm.rangeEnd) { return InvalidAuthMgmt; }
      if name !in roles { return RoleNotFound; }
      var perms := GrantPermission(roles[name], perm);
      OneRoleSorted(roles, name, perms);
      hide GrantedRightly, PermsSorted;
      roles := roles[name := perms];
      Committed();
      return Done;
    }

    /** The part of RoleGrantPermission that changes the sorted list of a role. */
    method GrantPermission(perms: seq<Permission>, perm: Permission) returns (after: seq<Permission>)
      requires ByKey(perms)
      ensures ByKey(after) && GrantedRightly(perms, perm, after)
    {
      var idx := Search(KeysOf(perms), perm.key);
      if idx < |perms| && perms[idx].key == perm.key && perms[idx].rangeEnd == perm.rangeEnd {
        GrantUpdates(perms, perm, idx);
        after := perms[idx := perms[idx].(kind := perm.kind)];
      } else {
        // append, then sort
        GrantInserts(perms, perm, idx);
        after := perms[..idx] + [perm] + perms[idx..];
      }
    }

    method RoleRevokePermission(name: Key, key: Key, rangeEnd: Key) returns (err: Outcome)
      requires Valid()
      modifies this
      ensures Valid() && users == old(users) && enabled == old(enabled)
      ensures err ==
        if name !in old(roles) then RoleNotFound
        else if !exists p :: p in old(roles)[name] && p.key == key && p.rangeEnd == rangeEnd then PermissionNotGranted
        else Done
      ensures revision == old(revision) + (if err.Done? then 1 else 0)
      ensures roles == if err.Done? then old(roles)[name := WithoutRange(old(roles)[name], key, rangeEnd)]
        else old(roles)
    {
      if name !in roles { return RoleNotFound; }
      var perms := roles[name];
      var kept := DropPermission(perms, key, rangeEnd);
      WithoutRangeMembers(perms, key, rangeEnd);
      WithoutRangeSorted(perms, key, rangeEnd);
      if |perms| == |kept| { return PermissionNotGranted; }
      roles := roles[name := kept];
      Committed();
      return Done;
    }

    /** The loop of RoleRevokePermission. */
    method DropPermission(perms: seq<Permission>, key: Key, rangeEnd: Key) returns (kept: seq<Permission>)
      ensures kept == WithoutRange(perms, key, rangeEnd)
    {
      kept := [];
      for i := 0 to |perms|
        invariant kept == WithoutRange(perms[..i], key, rangeEnd)
      {
        assert perms[..i + 1][..i] == perms[..i];
        if perms[i].key != key || perms[i].rangeEnd != rangeEnd { kept := kept + [perms[i]]; }
      }
      assert perms[..|perms|] == perms;
    }

    /** checkKeyPoint: the cached trees decide just as the roles that the user holds now do. */
    method IsKeyPermitted(name: Key, key: Key, write: bool) returns (ok: bool)
      requires Valid()
      ensures ok <==> name in users && Permitted(roles, users[name], key, write)
    {
      if name !in rangePermCache { return false; }
      var perms := rangePermCache[name];
      ok := exists ivl :: ivl in (if write then perms.write else perms.read) && Contains(ivl, key);
      PermittedMeans(roles, users[name], key, write);
    }

    /** isRangeOpPermitted; covers is the covering test of the interval tree. A range is
        permitted exactly when each of its keys is, by whatever roles. */
    method IsRangeOpPermitted(name: Key, key: Key, rangeEnd: Key, write: bool,
                              covers: (set<Interval>, Interval) -> bool)
      returns (ok: bool)
      requires Valid()
      requires forall tree, ivl :: (exists k :: Contains(ivl, k)) ==> (covers(tree, ivl) <==> Covered(tree, ivl))
      ensures rangeEnd == [] ==> (ok <==> name in users && Permitted(roles, users[name], key, write))
      ensures (exists k :: Selects(key, rangeEnd, k)) ==>
        (ok <==> name in users && forall k :: Selects(key, rangeEnd, k) ==> Permitted(roles, users[name], k, write))
    {
      if name !in rangePermCache { return false; }
      if |rangeEnd| == 0 {
        ok := IsKeyPermitted(name, key, write);
        assert forall k :: Selects(key, rangeEnd, k) <==> k == key;
        return;
      }
      var perms := rangePermCache[name];
      ok := covers(if write then perms.write else perms.read, RangeOf(key, rangeEnd));
      RangeHolds(key, rangeEnd);
      RangePermittedMeans(roles, users[name], RangeOf(key, rangeEnd), write);
    }
  }

  predicate Contains(ivl: Interval, key: Key) {
    match ivl
    case Point(k) => k == key
    case Bounded(begin, end) => !Less(key, begin) && Less(key, end)
    case Open(begin) => !Less(key, begin)
  }

  ghost predicate Covered(tree: set<Interval>, ivl: Interval) {
    forall k :: Contains(ivl, k) ==> Hit(tree, k)
  }

  ghost predicate Hit(tree: set<Interval>, key: Key) {
    exists ivl :: ivl in tree && Contains(ivl, key)
  }

  /** What a stored permission allows: reading, writing or both, of the keys of its range. */
  ghost predicate Allows(p: Permission, key: Key, write: bool) {
    && (match p.kind
        case READ => !write
        case WRITE => write
        case READWRITE => true)
    && Selects(p.key, p.rangeEnd, key)
  }

  /** One of the user's roles exists and holds a permission for the key. */
  ghost predicate Permitted(roles: Roles, user: User, key: Key, write: bool) {
    exists r, i :: r in user.roles && r in roles && 0 <= i < |roles[r]| && Allows(roles[r][i], key, write)
  }

  /** An interval holds the keys that its key and range end stand for. */
  lemma RangeHolds(key: Key, rangeEnd: Key)
    ensures forall k :: Contains(RangeOf(key, rangeEnd), k) <==> Selects(key, rangeEnd, k)
  {
    assert rangeEnd == [0] <==> |rangeEnd| == 1 && rangeEnd[0] == 0;
  }

  /** A single permission, kind by kind and range end by range end. */
  lemma PermissionMeans(p: Permission, key: Key, write: bool)
    ensures (p.kind == READ && write) || (p.kind == WRITE && !write) ==> !Hit(OfPerms([p], write), key)
    ensures p.kind == READWRITE || p.kind == (if write then WRITE else READ) ==>
      && (p.rangeEnd == [] ==> (Hit(OfPerms([p], write), key) <==> key == p.key))
      && (p.rangeEnd == [0] ==> (Hit(OfPerms([p], write), key) <==> !Less(key, p.key)))
      && (p.rangeEnd != [] && p.rangeEnd != [0] ==>
            (Hit(OfPerms([p], write), key) <==> !Less(key, p.key) && Less(key, p.rangeEnd)))
  {
    assert [p][0] == p;
    RangeHolds(p.key, p.rangeEnd);
    if Includes(p.kind, write) {
      assert IntervalOf([p][0]) in OfPerms([p], write);
      assert OfPerms([p], write) == {IntervalOf(p)};
    }
    hide RangeOf, Contains;
  }

  lemma AllowsMeans(p: Permission, key: Key, write: bool)
    ensures Allows(p, key, write) <==> Includes(p.kind, write) && Contains(IntervalOf(p), key)
  {
    RangeHolds(p.key, p.rangeEnd);
  }

  lemma PermittedMeans(roles: Roles, user: User, key: Key, write: bool)
    ensures Hit(OfRoles(roles, user.roles, write), key) <==> Permitted(roles, user, key, write)
  {
    hide Includes, IntervalOf, Contains, Allows;
    if ivl :| ivl in OfRoles(roles, user.roles, write) && Contains(ivl, key) {
      var r :| r in user.roles && r in roles && ivl in OfPerms(roles[r], write);
      var i :| 0 <= i < |roles[r]| && Includes(roles[r][i].kind, write) && IntervalOf(roles[r][i]) == ivl;
      AllowsMeans(roles[r][i], key, write);
    }
    if r, i :| r in user.roles && r in roles && 0 <= i < |roles[r]| && Allows(roles[r][i], key, write) {
      AllowsMeans(roles[r][i], key, write);
      assert IntervalOf(roles[r][i]) in OfPerms(roles[r], write);
      assert IntervalOf(roles[r][i]) in OfRoles(roles, user.roles, write);
    }
  }

  lemma RangePermittedMeans(roles: Roles, user: User, asked: Interval, write: bool)
    ensures Covered(OfRoles(roles, user.roles, write), asked) <==>
      forall k :: Contains(asked, k) ==> Permitted(roles, user, k, write)
  {
    hide Contains, Permitted, Hit, OfRoles;
    forall k
      ensures Hit(OfRoles(roles, user.roles, write), k) <==> Permitted(roles, user, k, write)
    {
      PermittedMeans(roles, user, k, write);
    }
  }

  lemma OneMoreRole(roles: Roles, names: seq<Key>, i: nat, write: bool)
    requires i < |names|
    ensures OfRoles(roles, names[..i + 1], write) ==
      OfRoles(roles, names[..i], write) + (if names[i] in roles then OfPerms(roles[names[i]], write) else {})
    ensures names[i] in roles ==> OfPerms(roles[names[i]][..0], write) == {}
  {
    assert names[..i + 1] == names[..i] + [names[i]];
  }

  lemma OneMorePerm(perms: seq<Permission>, j: nat, write: bool)
    requires j < |perms|
    ensures OfPerms(perms[..j + 1], write) == OfPerms(perms[..j], write)
      + (if Includes(perms[j].kind, write) then {IntervalOf(perms[j])} else {})
  {
    var more := perms[..j + 1];
    forall x | x in OfPerms(perms[..j], write)
      ensures x in OfPerms(more, write)
    {
      var k :| 0 <= k < j && Includes(perms[..j][k].kind, write) && IntervalOf(perms[..j][k]) == x;
      assert more[k] == perms[..j][k];
    }
    if Includes(perms[j].kind, write) { assert more[j] == perms[j]; }
  }

  lemma {:induction false} WithoutNothing(names: seq<Key>, name: Key)
    requires name !in names
    ensures Without(names, name) == names
  {
    if names != [] {
      assert names[|names| - 1] in names;
      WithoutNothing(names[..|names| - 1], name);
    }
  }

  function Stripped(users: Users, role: Key): Users {
    map u | u in users :: users[u].(roles := Without(users[u].roles, role))
  }

  function StrippedUpTo(users: Users, names: seq<Key>, role: Key): Users {
    map u | u in users :: if u in names then users[u].(roles := Without(users[u].roles, role)) else users[u]
  }

  lemma StripOne(was: Users, all: seq<Key>, i: nat, role: Key)
    requires Ascending(all) && i < |all| && all[i] in was
    ensures all[i] in StrippedUpTo(was, all[..i], role)
    ensures var before, kept := StrippedUpTo(was, all[..i], role), Without(was[all[i]].roles, role);
      && before[all[i]] == was[all[i]]
      && StrippedUpTo(was, all[..i + 1], role) == before[all[i] := was[all[i]].(roles := kept)]
      && (kept == was[all[i]].roles ==> StrippedUpTo(was, all[..i + 1], role) == before)
  {
    LessTotal(all[i], all[i]);
    assert all[..i + 1] == all[..i] + [all[i]];
    assert all[i] !in all[..i];
    hide Without, Ascending;
  }

  lemma StrippedOk(was: Users, users: Users, role: Key)
    requires RolesSorted(was) && users == Stripped(was, role)
    ensures RolesSorted(users) && users.Keys == was.Keys
    ensures forall u :: u in users ==> RoleTaken(was[u], role, users[u])
    ensures role != ROOT && RootSafe(was) ==> RootSafe(users)
  {
    forall u | u in users
      ensures Ascending(users[u].roles)
    {
      WithoutAscending(was[u].roles, role);
    }
    forall u | u in users
      ensures RoleTaken(was[u], role, users[u])
    {
      WithoutMembers(was[u].roles, role);
    }
    if RootSafe(was) { WithoutMembers(was[ROOT].roles, role); }
  }

  /** The permission is there, no other one is new, and none with another key or end is
      lost; the first one with its key decides between replacing and adding. */
  ghost predicate GrantedRightly(before: seq<Permission>, perm: Permission, after: seq<Permission>) {
    && perm in after
    && (forall p :: p in before && (p.key != perm.key || p.rangeEnd != perm.rangeEnd) ==> p in after)
    && (forall p :: p in after ==> p == perm || p in before)
    && (exists i :: Granted(before, perm, i, after))
  }

  lemma GrantUpdates(before: seq<Permission>, perm: Permission, i: nat)
    requires ByKey(before) && LowerBound(KeysOf(before), perm.key, i)
    requires i < |before| && before[i].key == perm.key && before[i].rangeEnd == perm.rangeEnd
    ensures var after := before[i := before[i].(kind := perm.kind)];
      ByKey(after) && GrantedRightly(before, perm, after)
  {
    UpdatedMembers(before, i, perm);
    hide ByKey, LowerBound, KeysOf;
    assert before[i].(kind := perm.kind) == perm;
    assert Granted(before, perm, i, before[i := perm]);
  }

  lemma GrantInserts(before: seq<Permission>, perm: Permission, i: nat)
    requires ByKey(before) && LowerBound(KeysOf(before), perm.key, i)
    requires !(i < |before| && before[i].key == perm.key && before[i].rangeEnd == perm.rangeEnd)
    ensures var after := before[..i] + [perm] + before[i..];
      ByKey(after) && GrantedRightly(before, perm, after)
  {
    KeysBound(before, perm.key, i);
    InsertedMembers(before, i, perm);
    hide ByKey, LowerBound, KeysOf;
    assert before == before[..i] + before[i..];
    assert Granted(before, perm, i, before[..i] + [perm] + before[i..]);
  }

  lemma KeysBound(perms: seq<Permission>, key: Key, i: nat)
    requires LowerBound(KeysOf(perms), key, i)
    ensures forall k :: 0 <= k < i ==> Less(perms[k].key, key)
    ensures forall k :: i <= k < |perms| ==> !Less(perms[k].key, key)
  {
    forall k | 0 <= k < |perms|
      ensures if k < i then Less(perms[k].key, key) else !Less(perms[k].key, key)
    {
      assert KeysOf(perms)[k] == perms[k].key;
    }
  }

  lemma UpdatedMembers(perms: seq<Permission>, idx: nat, perm: Permission)
    requires ByKey(perms) && idx < |perms| && perms[idx].key == perm.key && perms[idx].rangeEnd == perm.rangeEnd
    ensures var r := perms[idx := perms[idx].(kind := perm.kind)];
      && ByKey(r) && perm in r
      && (forall p :: p in perms && (p.key != perm.key || p.rangeEnd != perm.rangeEnd) ==> p in r)
      && (forall p :: p in r ==> p == perm || p in perms)
  {
    var r := perms[idx := perms[idx].(kind := perm.kind)];
    assert r[idx] == perm;
    forall p | p in perms && (p.key != perm.key || p.rangeEnd != perm.rangeEnd)
      ensures p in r
    {
      var k :| 0 <= k < |perms| && perms[k] == p;
      assert r[k] == p;
    }
  }

  lemma InsertedMembers(perms: seq<Permission>, idx: nat, perm: Permission)
    requires ByKey(perms) && idx <= |perms|
    requires forall k :: 0 <= k < idx ==> Less(perms[k].key, perm.key)
    requires forall k :: idx <= k < |perms| ==> !Less(perms[k].key, perm.key)
    ensures var r := perms[..idx] + [perm] + perms[idx..];
      ByKey(r) && forall p :: p in r <==> p in perms || p == perm
  {
    var r := perms[..idx] + [perm] + perms[idx..];
    assert perms == perms[..idx] + perms[idx..];
    forall i, j | 0 <= i < j < |r|
      ensures !Less(r[j].key, r[i].key)
    {
      if j == idx { LessTotal(perms[i].key, perm.key); }
    }
  }

  function WithoutRange(perms: seq<Permission>, key: Key, rangeEnd: Key): seq<Permission> {
    if perms == [] then []
    else
      var front, p := WithoutRange(perms[..|perms| - 1], key, rangeEnd), perms[|perms| - 1];
      if p.key == key && p.rangeEnd == rangeEnd then front else front + [p]
  }

  lemma {:induction false} WithoutRangeMembers(perms: seq<Permission>, key: Key, rangeEnd: Key)
    ensures forall p :: p in WithoutRange(perms, key, rangeEnd) <==>
      p in perms && !(p.key == key && p.rangeEnd == rangeEnd)
    ensures |WithoutRange(perms, key, rangeEnd)| <= |perms|
    ensures |WithoutRange(perms, key, rangeEnd)| == |perms| <==>
      !exists p :: p in perms && p.key == key && p.rangeEnd == rangeEnd
  {
    if perms != [] {
      WithoutRangeMembers(perms[..|perms| - 1], key, rangeEnd);
      assert perms == perms[..|perms| - 1] + [perms[|perms| - 1]];
    }
  }

  lemma {:induction false} WithoutRangeSorted(perms: seq<Permission>, key: Key, rangeEnd: Key)
    requires ByKey(perms)
    ensures ByKey(WithoutRange(perms, key, rangeEnd))
  {
    if perms != [] {
      var front, p := perms[..|perms| - 1], perms[|perms| - 1];
      WithoutRangeSorted(front, key, rangeEnd);
      WithoutRangeMembers(front, key, rangeEnd);
      var kept := WithoutRange(front, key, rangeEnd);
      forall i | 0 <= i < |kept|
        ensures !Less(p.key, kept[i].key)
      {
        assert kept[i] in kept && kept[i] in front;
        var j :| 0 <= j < |front| && front[j] == kept[i];
        assert perms[j] == kept[i];
      }
    }
  }
}
