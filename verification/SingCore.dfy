/** The sing core's user tables: users by tag, the uid index over all tags, what each inbound serves. */
module SingCore {
  import opened Common
  import opened SortedUsers
  import L = Ledger

  type Users = map<string, UserInfo>

  datatype Tables = Tables(
    tagUsers: map<string, Users>,            // tag -> uuid -> user; no entry for a tag without users
    uidMap: map<string, int>,                // tag|uuid -> uid
    inbounds: map<string, seq<UserInfo>>,    // tag -> the list its inbound was last given
    counters: map<string, L.Counters>,       // tag -> uuid -> traffic
    minBytes: map<string, int>)              // tag -> report threshold

  function UsersOf(s: Tables, tag: string): Users {
    Lookup(s.tagUsers, tag, map[])
  }

  function UidKeys(tag: string, uuids: set<string>): set<string> {
    set x | x in uuids :: UserTag(tag, x)
  }

  /** The uuid part of a key made under this tag. */
  function UuidOf(tag: string, key: string): string {
    if |tag| < |key| then key[|tag| + 1..] else ""
  }

  lemma UuidOfKey(tag: string, x: string)
    ensures UuidOf(tag, UserTag(tag, x)) == x
  {
  }

  function IdOf(users: Users, x: string): int {
    if x in users then users[x].id else 0
  }

  function Index(tag: string, users: Users): map<string, int> {
    IndexBy(users, tag, users.Keys)
  }

  /** Hands the tag a new user table: inbound, table and index together. */
  ghost function Replace(s: Tables, tag: string, next: Users): Tables
    requires WellKeyed(next)
  {
    s.(tagUsers := WithUsers(s.tagUsers, tag, next),
       uidMap := WithIndex(s.uidMap, tag, UsersOf(s, tag), next),
       inbounds := s.inbounds[tag := CanonicalList(next)])
  }

  datatype Op =
    | AddNode(tag: string, minBytes: int, ok: bool)
    | AddUsers(tag: string, users: seq<UserInfo>, ok: bool)
    | DelUsers(tag: string, uuids: set<string>, ok: bool)
    | DelNode(tag: string, ok: bool)

  ghost predicate KeyedTables(s: Tables) {
    forall tag :: tag in s.tagUsers ==> WellKeyed(s.tagUsers[tag])
  }

  lemma NextIsKeyed(s: Tables, tag: string, users: seq<UserInfo>, gone: set<string>)
    requires KeyedTables(s)
    ensures WellKeyed(UsersOf(s, tag) + ByUuid(users)) && WellKeyed(UsersOf(s, tag) - gone)
  {
    WellKeyedUnion(UsersOf(s, tag), users);
  }

  /** `ok` is the answer of the underlying server; an inbound that is not there refuses by itself. */
  ghost function Step(s: Tables, op: Op): Tables
    requires KeyedTables(s)
  {
    match op
    case AddNode(tag, min, ok) =>
      s.(minBytes := s.minBytes[tag := min], inbounds := if ok then s.inbounds[tag := []] else s.inbounds)
    case AddUsers(tag, users, ok) =>
      NextIsKeyed(s, tag, users, {});
      if ok && tag in s.inbounds then Replace(s, tag, UsersOf(s, tag) + ByUuid(users)) else s
    case DelUsers(tag, uuids, ok) =>
      NextIsKeyed(s, tag, [], uuids);
      if !(ok && tag in s.inbounds) then s
      else
        var s' := Replace(s, tag, UsersOf(s, tag) - uuids);
        if tag in s.counters then s'.(counters := s.counters[tag := s.counters[tag] - uuids]) else s'
    case DelNode(tag, ok) =>
      s.(tagUsers := s.tagUsers - {tag},
         uidMap := s.uidMap - UidKeys(tag, UsersOf(s, tag).Keys),
         minBytes := s.minBytes - {tag},
         counters := s.counters - {tag},
         inbounds := if ok then s.inbounds - {tag} else s.inbounds)
  }

  lemma StepKeyed(s: Tables, op: Op)
    requires KeyedTables(s)
    ensures KeyedTables(Step(s, op))
    ensures op.AddUsers? || op.DelUsers? ==> Step(s, op).inbounds.Keys == s.inbounds.Keys
    ensures (op.AddUsers? || op.DelUsers?) && !(op.ok && op.tag in s.inbounds) ==> Step(s, op) == s
  {
    hide Canonical, WithIndex;
    var users := if op.AddUsers? then op.users else [];
    var gone := if op.DelUsers? then op.uuids else {};
    NextIsKeyed(s, op.tag, users, gone);
  }

  // ---------------------------------------------------------------------------
  // The index agrees with the tables
  // ---------------------------------------------------------------------------

  ghost predicate Listed(tagUsers: map<string, Users>, tag: string, x: string) {
    tag in tagUsers && x in tagUsers[tag]
  }

  /** Tables are keyed by uuid, none is empty, and no uuid carries a bar. */
  ghost predicate Clean(tagUsers: map<string, Users>) {
    && (forall tag :: tag in tagUsers ==> WellKeyed(tagUsers[tag]) && tagUsers[tag] != map[])
    && (forall tag, x :: Listed(tagUsers, tag, x) ==> NoBar(x))
  }

  ghost predicate Indexes(uidMap: map<string, int>, tagUsers: map<string, Users>) {
    forall tag, x {:trigger Listed(tagUsers, tag, x)} ::
      Listed(tagUsers, tag, x) ==> UserTag(tag, x) in uidMap && uidMap[UserTag(tag, x)] == tagUsers[tag][x].id
  }

  ghost predicate Owned(k: string, tagUsers: map<string, Users>) {
    exists tag, x :: Listed(tagUsers, tag, x) && k == UserTag(tag, x)
  }

  ghost predicate NothingElse(uidMap: map<string, int>, tagUsers: map<string, Users>) {
    forall k :: k in uidMap ==> Owned(k, tagUsers)
  }

  /** The index holds exactly the listed users. */
  ghost predicate Indexed(s: Tables) {
    Clean(s.tagUsers) && Indexes(s.uidMap, s.tagUsers) && NothingElse(s.uidMap, s.tagUsers)
  }

  ghost predicate BarFree(op: Op) {
    match op
    case AddUsers(_, users, _) => forall u :: u in users ==> NoBar(u.uuid)
    case DelUsers(_, uuids, _) => forall x :: x in uuids ==> NoBar(x)
    case _ => true
  }

  lemma IndexedIff(s: Tables, tag: string, x: string)
    requires Indexed(s) && NoBar(x)
    ensures UserTag(tag, x) in s.uidMap <==> Listed(s.tagUsers, tag, x)
    ensures Listed(s.tagUsers, tag, x) ==> s.uidMap[UserTag(tag, x)] == s.tagUsers[tag][x].id
  {
    if UserTag(tag, x) in s.uidMap {
      assert Owned(UserTag(tag, x), s.tagUsers);
      var t, y :| Listed(s.tagUsers, t, y) && UserTag(tag, x) == UserTag(t, y);
      BarFreeInjective(tag, x, t, y);
    }
  }

  lemma IndexKeys(tag: string, users: Users, x: string)
    ensures x in users ==> UserTag(tag, x) in Index(tag, users) && Index(tag, users)[UserTag(tag, x)] == users[x].id
    ensures UserTag(tag, x) in UidKeys(tag, users.Keys) <==> x in users
  {
    UuidOfKey(tag, x);
    if UserTag(tag, x) in UidKeys(tag, users.Keys) {
      var y :| y in users && UserTag(tag, y) == UserTag(tag, x);
      SameTagInjective(tag, x, y);
    }
  }

  /** A key of another tag survives a change of this tag's users: bar-free keys never coincide. */
  lemma OtherTagsKeys(tag: string, users: Users, t: string, x: string)
    requires t != tag && NoBar(x) && forall y :: y in users ==> NoBar(y)
    ensures UserTag(t, x) !in UidKeys(tag, users.Keys)
  {
    if UserTag(t, x) in UidKeys(tag, users.Keys) {
      var y :| y in users && UserTag(tag, y) == UserTag(t, x);
      BarFreeInjective(tag, y, t, x);
    }
  }

  function WithUsers(tagUsers: map<string, Users>, tag: string, next: Users): map<string, Users> {
    if next == map[] then tagUsers - {tag} else tagUsers[tag := next]
  }

  function WithIndex(uidMap: map<string, int>, tag: string, now: Users, next: Users): map<string, int> {
    (uidMap - UidKeys(tag, now.Keys)) + Index(tag, next)
  }

  lemma IndexesKept(uidMap: map<string, int>, tagUsers: map<string, Users>, tag: string, next: Users)
    requires Clean(tagUsers) && Indexes(uidMap, tagUsers) && forall x :: x in next ==> NoBar(x)
    ensures Indexes(WithIndex(uidMap, tag, Lookup(tagUsers, tag, map[]), next), WithUsers(tagUsers, tag, next))
  {
    hide NoBar;
    var now := Lookup(tagUsers, tag, map[]);
    var um, tu := WithIndex(uidMap, tag, now, next), WithUsers(tagUsers, tag, next);
    assert forall y :: y in now ==> Listed(tagUsers, tag, y);
    forall t, x | Listed(tu, t, x)
      ensures UserTag(t, x) in um && um[UserTag(t, x)] == tu[t][x].id
    {
      if t == tag {
        IndexKeys(tag, next, x);
      } else {
        assert Listed(tagUsers, t, x);
        OtherTagsKeys(tag, now, t, x);
        OtherTagsKeys(tag, next, t, x);
      }
    }
  }

  lemma NothingElseKept(uidMap: map<string, int>, tagUsers: map<string, Users>, tag: string, next: Users)
    requires NothingElse(uidMap, tagUsers)
    ensures NothingElse(WithIndex(uidMap, tag, Lookup(tagUsers, tag, map[]), next), WithUsers(tagUsers, tag, next))
  {
    var now := Lookup(tagUsers, tag, map[]);
    var um, tu := WithIndex(uidMap, tag, now, next), WithUsers(tagUsers, tag, next);
    forall k | k in um
      ensures Owned(k, tu)
    {
      if k in UidKeys(tag, next.Keys) {
        var x :| x in next && k == UserTag(tag, x);
        assert Listed(tu, tag, x);
      } else {
        assert Owned(k, tagUsers);
        var t, x :| Listed(tagUsers, t, x) && k == UserTag(t, x);
        IndexKeys(tag, now, x);
        assert Listed(tu, t, x);
      }
    }
  }

  lemma ReplaceKeepsIndex(s: Tables, tag: string, next: Users)
    requires Indexed(s) && WellKeyed(next) && forall x :: x in next ==> NoBar(x)
    ensures Indexed(Replace(s, tag, next))
  {
    hide NoBar, Indexes, NothingElse, Canonical;
    IndexesKept(s.uidMap, s.tagUsers, tag, next);
    NothingElseKept(s.uidMap, s.tagUsers, tag, next);
    var tu := WithUsers(s.tagUsers, tag, next);
    forall t, x | Listed(tu, t, x)
      ensures NoBar(x)
    {
      if t != tag { assert Listed(s.tagUsers, t, x); }
    }
  }

  lemma DelNodeIsReplaceByNobody(s: Tables, tag: string, ok: bool)
    requires KeyedTables(s)
    ensures Step(s, DelNode(tag, ok)).tagUsers == Replace(s, tag, map[]).tagUsers
    ensures Step(s, DelNode(tag, ok)).uidMap == Replace(s, tag, map[]).uidMap
  {
    assert Index(tag, map[]) == map[];
  }

  /** Every operation keeps the index exact over all tags. */
  lemma StepKeepsIndex(s: Tables, op: Op)
    requires Indexed(s) && BarFree(op)
    ensures Indexed(Step(s, op))
  {
    hide NoBar, Replace, Indexes, NothingElse, WithUsers, WithIndex;
    var now := UsersOf(s, op.tag);
    assert forall x :: x in now ==> Listed(s.tagUsers, op.tag, x);
    match op
    case AddNode(_, _, _) =>
    case DelNode(tag, ok) =>
      DelNodeIsReplaceByNobody(s, tag, ok);
      ReplaceKeepsIndex(s, tag, map[]);
    case AddUsers(tag, users, ok) =>
      NextIsKeyed(s, tag, users, {});
      ByUuidKeys(users);
      ReplaceKeepsIndex(s, tag, now + ByUuid(users));
    case DelUsers(tag, uuids, ok) =>
      NextIsKeyed(s, tag, [], uuids);
      ReplaceKeepsIndex(s, tag, now - uuids);
  }

  ghost function After(s: Tables, ops: seq<Op>): (s': Tables)
    requires Indexed(s) && forall i :: 0 <= i < |ops| ==> BarFree(ops[i])
    ensures Indexed(s')
  {
    if ops == [] then s
    else
      var before := After(s, ops[..|ops| - 1]);
      StepKeepsIndex(before, ops[|ops| - 1]);
      Step(before, ops[|ops| - 1])
  }

  /** Over any run, on any tags: the key tag|uuid is in the index exactly when the tag lists the uuid, with its id. */
  lemma IndexOverRuns(s: Tables, ops: seq<Op>, tag: string, x: string)
    requires Indexed(s) && (forall i :: 0 <= i < |ops| ==> BarFree(ops[i])) && NoBar(x)
    ensures var s' := After(s, ops);
            && (UserTag(tag, x) in s'.uidMap <==> Listed(s'.tagUsers, tag, x))
            && (Listed(s'.tagUsers, tag, x) ==> s'.uidMap[UserTag(tag, x)] == s'.tagUsers[tag][x].id)
  {
    IndexedIff(After(s, ops), tag, x);
  }

  ghost predicate SameTables(s: Tables, s': Tables, tag: string) {
    && (tag in s'.tagUsers <==> tag in s.tagUsers) && UsersOf(s', tag) == UsersOf(s, tag)
    && (tag in s'.inbounds <==> tag in s.inbounds) && (tag in s.inbounds ==> s'.inbounds[tag] == s.inbounds[tag])
    && (tag in s'.counters <==> tag in s.counters) && (tag in s.counters ==> s'.counters[tag] == s.counters[tag])
    && Lookup(s'.minBytes, tag, 0) == Lookup(s.minBytes, tag, 0)
  }

  ghost predicate SameIndex(s: Tables, s': Tables, tag: string) {
    forall x {:trigger UserTag(tag, x)} :: NoBar(x) ==>
      (UserTag(tag, x) in s'.uidMap <==> UserTag(tag, x) in s.uidMap)
      && Lookup(s'.uidMap, UserTag(tag, x), 0) == Lookup(s.uidMap, UserTag(tag, x), 0)
  }

  lemma OtherTablesUndisturbed(s: Tables, op: Op, tag: string)
    requires KeyedTables(s) && op.tag != tag
    ensures SameTables(s, Step(s, op), tag)
  {
    hide Canonical;
  }

  /** No operation on one tag disturbs another tag's users, inbound, counters, threshold or uids. */
  lemma OtherTagsUndisturbed(s: Tables, op: Op, tag: string)
    requires Indexed(s) && BarFree(op) && op.tag != tag
    ensures SameTables(s, Step(s, op), tag) && SameIndex(s, Step(s, op), tag)
  {
    OtherTablesUndisturbed(s, op, tag);
    StepKeepsIndex(s, op);
    var s' := Step(s, op);
    hide NoBar, Indexed, Step;
    forall x | NoBar(x)
      ensures UserTag(tag, x) in s'.uidMap <==> UserTag(tag, x) in s.uidMap
      ensures Lookup(s'.uidMap, UserTag(tag, x), 0) == Lookup(s.uidMap, UserTag(tag, x), 0)
    {
      IndexedIff(s, tag, x);
      IndexedIff(s', tag, x);
      assert Listed(s'.tagUsers, tag, x) <==> Listed(s.tagUsers, tag, x);
    }
  }

  /** Exactly when dropping a node takes some user's index entry with it, whatever the uuids contain. */
  lemma DelNodeSparesIff(s: Tables, tag: string, ok: bool, t: string, x: string)
    requires KeyedTables(s) && UserTag(t, x) in s.uidMap
    ensures UserTag(t, x) in Step(s, DelNode(tag, ok)).uidMap <==>
            !exists y :: y in UsersOf(s, tag)
                && ((tag == t && y == x) || Continues(tag, y, t, x) || Continues(t, x, tag, y))
  {
    forall y | y in UsersOf(s, tag)
      ensures UserTag(tag, y) == UserTag(t, x) <==>
              (tag == t && y == x) || Continues(tag, y, t, x) || Continues(t, x, tag, y)
    {
      KeyClash(tag, y, t, x);
    }
  }

  // ---------------------------------------------------------------------------
  // What one operation leaves
  // ---------------------------------------------------------------------------

  /** A removed node leaves no users, no uids of them, no counters and no threshold, even when its inbound stays. */
  lemma DelNodeLeavesNothing(s: Tables, tag: string, ok: bool)
    requires KeyedTables(s)
    ensures var s' := Step(s, DelNode(tag, ok));
            && tag !in s'.tagUsers && tag !in s'.counters && tag !in s'.minBytes
            && (forall x :: x in UsersOf(s, tag) ==> tag + "|" + x !in s'.uidMap)
            && (tag in s'.inbounds <==> tag in s.inbounds && !ok)
  {
    forall x | x in UsersOf(s, tag)
      ensures UserTag(tag, x) in UidKeys(tag, UsersOf(s, tag).Keys)
    {
    }
  }

  /** The threshold is there before the inbound, which starts without users. */
  lemma AddNodeSetsThreshold(s: Tables, tag: string, min: int, ok: bool)
    requires KeyedTables(s)
    ensures var s' := Step(s, AddNode(tag, min, ok));
            && tag in s'.minBytes && s'.minBytes[tag] == min
            && (if ok then tag in s'.inbounds && s'.inbounds[tag] == [] else s'.inbounds == s.inbounds)
            && s'.tagUsers == s.tagUsers && s'.uidMap == s.uidMap && s'.counters == s.counters
  {
  }

  /** After users were added or deleted, the inbound has been given exactly the tag's users, in byte order of uuids. */
  lemma InboundGivenUsers(s: Tables, op: Op)
    requires KeyedTables(s) && (op.AddUsers? || op.DelUsers?) && op.ok && op.tag in s.inbounds
    ensures var s' := Step(s, op);
            && op.tag in s'.inbounds
            && (forall u :: u in s'.inbounds[op.tag] <==>
                  (u.uuid in UsersOf(s', op.tag) && UsersOf(s', op.tag)[u.uuid] == u))
            && (forall i, j :: 0 <= i < j < |s'.inbounds[op.tag]| ==>
                  Less(s'.inbounds[op.tag][i].uuid, s'.inbounds[op.tag][j].uuid))
            && s'.minBytes == s.minBytes
  {
    NextIsKeyed(s, op.tag, if op.AddUsers? then op.users else [], if op.DelUsers? then op.uuids else {});
    hide WithIndex;
  }

  /** A user added is in the tag's table with its last entry; whoever is not named stays. */
  lemma UsersAfterAdd(s: Tables, tag: string, users: seq<UserInfo>, i: nat, x: string)
    requires KeyedTables(s) && tag in s.inbounds && i < |users| && LastOfUuid(users, i) && x !in Uuids(users)
    ensures var s' := Step(s, AddUsers(tag, users, true));
            && users[i].uuid in UsersOf(s', tag) && UsersOf(s', tag)[users[i].uuid] == users[i]
            && (x in UsersOf(s', tag) <==> x in UsersOf(s, tag))
            && (x in UsersOf(s, tag) ==> UsersOf(s', tag)[x] == UsersOf(s, tag)[x])
            && s'.counters == s.counters
  {
    NextIsKeyed(s, tag, users, {});
    ByUuidHoldsLast(users, i);
    ByUuidKeys(users);
    hide WithIndex, Canonical, ByUuid;
  }

  /** A user deleted leaves table and counters of the tag; whoever is not named keeps both. */
  lemma UsersAfterDelete(s: Tables, tag: string, uuids: set<string>, x: string)
    requires KeyedTables(s) && tag in s.inbounds
    ensures var s' := Step(s, DelUsers(tag, uuids, true));
            && (x in UsersOf(s', tag) <==> x in UsersOf(s, tag) && x !in uuids)
            && (x in UsersOf(s', tag) ==> UsersOf(s', tag)[x] == UsersOf(s, tag)[x])
            && (x in CountersOf(s', tag) <==> x in CountersOf(s, tag) && x !in uuids)
            && (x in CountersOf(s', tag) ==> CountersOf(s', tag)[x] == CountersOf(s, tag)[x])
  {
    NextIsKeyed(s, tag, [], uuids);
    hide WithIndex, Canonical;
  }

  // ---------------------------------------------------------------------------
  // The tag's traffic
  // ---------------------------------------------------------------------------

  /** With an exact index the bytes a collection throws away are those of users the tag does not list, or lists without
      an id. */
  lemma OrphanIsUnlisted(s: Tables, tag: string, min: int, reset: bool, uuid: string)
    requires Indexed(s) && NoBar(uuid) && uuid in CountersOf(s, tag) && L.Fits(CountersOf(s, tag))
    ensures var c := CountersOf(s, tag);
            uuid !in L.Collected(c, UidLookup(s.uidMap, tag), min, reset) <==>
            c[uuid].up + c[uuid].down > min && (Listed(s.tagUsers, tag, uuid) ==> s.tagUsers[tag][uuid].id == 0)
  {
    hide L.Heavy, L.Collected, L.Fits, Indexed;
    IndexedIff(s, tag, uuid);
    L.CounterAfterCollection(CountersOf(s, tag), UidLookup(s.uidMap, tag), min, reset, uuid);
  }

  function CountersOf(s: Tables, tag: string): L.Counters {
    Lookup(s.counters, tag, map[])
  }

  /** What an operation is to the ledger of one tag. */
  function EventOf(s: Tables, op: Op, tag: string): Option<L.Event> {
    match op
    case DelUsers(t, uuids, ok) => if t == tag && ok && tag in s.inbounds then Some(L.DelUsers(uuids)) else None
    case DelNode(t, _) => if t == tag then Some(L.DelNode) else None
    case _ => None
  }

  /** Users and nodes that go take their counters along as the ledger books it, and nothing else touches a tag's
      counters. */
  lemma CountersFollowLedger(s: Tables, op: Op, tag: string, b: L.Book)
    requires KeyedTables(s) && b.counters == CountersOf(s, tag)
    ensures CountersOf(Step(s, op), tag) ==
            match EventOf(s, op, tag)
            case None => b.counters
            case Some(e) => L.Step(b, e).counters
  {
    hide Canonical, WithIndex, WithUsers, L.Total;
    if op.tag == tag && tag !in s.counters && op.DelUsers? {
      assert b.counters - op.uuids == map[];
    }
  }

  // ---------------------------------------------------------------------------
  // The object
  // ---------------------------------------------------------------------------

  class Sing {
    var tagUsers: map<string, Users>
    var uidMap: map<string, int>
    var inbounds: map<string, seq<UserInfo>>
    var counters: map<string, L.Counters>
    var minBytes: map<string, int>

    ghost function State(): Tables
      reads this
    {
      Tables(tagUsers, uidMap, inbounds, counters, minBytes)
    }

    constructor ()
      ensures State() == Tables(map[], map[], map[], map[], map[])
    {
      tagUsers, uidMap, inbounds, counters, minBytes := map[], map[], map[], map[], map[];
    }

    /** Fails when there is no inbound for the tag or the inbound refuses the list. */
    method RefreshInboundUsers(tag: string, users: seq<UserInfo>, accepts: bool) returns (ok: bool)
      modifies this`inbounds
      ensures ok == (accepts && tag in old(inbounds))
      ensures inbounds == if ok then old(inbounds)[tag := users] else old(inbounds)
    {
      ok := accepts && tag in inbounds;
      if ok {
        inbounds := inbounds[tag := users];
      }
    }

    method ReplaceTagUsers(tag: string, oldUsers: Users, newUsers: seq<UserInfo>, ghost next: Users)
      requires oldUsers == UsersOf(State(), tag)
      requires WellKeyed(next) && newUsers == CanonicalList(next)
      modifies this`tagUsers, this`uidMap
      ensures State() == Replace(old(State()), tag, next).(inbounds := inbounds)
    {
      EmptyIffEmpty(newUsers, next);
      if newUsers == [] {
        tagUsers := tagUsers - {tag};
      } else {
        var nextUsers := TableOf(newUsers, next);
        tagUsers := tagUsers[tag := nextUsers];
      }
      uidMap := Unindex(uidMap, tag, oldUsers);
      uidMap := Reindex(uidMap, tag, newUsers, next);
    }

    method AddUsers(tag: string, users: seq<UserInfo>, accepts: bool) returns (added: nat, ok: bool)
      requires KeyedTables(State())
      modifies this
      ensures ok == (accepts && tag in old(inbounds)) && added == (if ok then |users| else 0)
      ensures State() == Step(old(State()), Op.AddUsers(tag, users, accepts))
    {
      var oldUsers := Lookup(tagUsers, tag, map[]);
      var nextUsers := oldUsers;
      for i := 0 to |users|
        invariant nextUsers == oldUsers + ByUuid(users[..i])
      {
        assert users[..i + 1][..i] == users[..i];
        nextUsers := nextUsers[users[i].uuid := users[i]];
      }
      assert users[..|users|] == users;
      NextIsKeyed(State(), tag, users, {});
      var userList := SortedTagUsers(nextUsers);
      ok := RefreshInboundUsers(tag, userList, accepts);
      if !ok {
        return 0, false;
      }
      ReplaceTagUsers(tag, oldUsers, userList, nextUsers);
      added := |users|;
    }

    method DelUsers(users: seq<UserInfo>, tag: string, accepts: bool) returns (ok: bool)
      requires KeyedTables(State())
      modifies this
      ensures ok == (accepts && tag in old(inbounds))
      ensures State() == Step(old(State()), Op.DelUsers(tag, Uuids(users), accepts))
    {
      var oldUsers := Lookup(tagUsers, tag, map[]);
      var nextUsers := DropAll(oldUsers, users);
      NextIsKeyed(State(), tag, [], Uuids(users));
      var userList := SortedTagUsers(nextUsers);
      ok := RefreshInboundUsers(tag, userList, accepts);
      if !ok {
        return false;
      }
      ReplaceTagUsers(tag, oldUsers, userList, nextUsers);
      if tag in counters {
        var c := DropAll(counters[tag], users);
        counters := counters[tag := c];
      }
    }

    method AddNode(tag: string, min: int, created: bool) returns (ok: bool)
      modifies this
      ensures ok == created
      ensures KeyedTables(old(State())) ==> State() == Step(old(State()), Op.AddNode(tag, min, created))
    {
      minBytes := minBytes[tag := min];
      if !created {
        return false;
      }
      inbounds := inbounds[tag := []];
      return true;
    }

    method DelNode(tag: string, removed: bool) returns (ok: bool)
      modifies this
      ensures ok == removed
      ensures KeyedTables(old(State())) ==> State() == Step(old(State()), Op.DelNode(tag, removed))
    {
      if tag in tagUsers {
        uidMap := Unindex(uidMap, tag, tagUsers[tag]);
        tagUsers := tagUsers - {tag};
      }
      minBytes := minBytes - {tag};
      counters := counters - {tag};
      if !removed {
        return false;
      }
      inbounds := inbounds - {tag};
      return true;
    }

    /** Reports and drains the tag's counters under the uids of the index; nothing when the tag has none. */
    method GetUserTrafficSlice(tag: string, reset: bool) returns (slice: seq<L.UserTraffic>, ghost order: seq<string>)
      modifies this`counters
      ensures tag !in old(counters) ==> slice == [] && counters == old(counters)
      ensures tag in old(counters) ==>
                var c, lookup, min := old(counters)[tag], UidLookup(uidMap, tag), Lookup(minBytes, tag, 0);
                L.Walks(order, c) && slice == L.Slice(c, lookup, min, order)
                && counters == old(counters)[tag := L.Collected(c, lookup, min, reset)]
    {
      order := [];
      if tag !in counters {
        return [], [];
      }
      var c;
      c, slice, order := L.Collect(counters[tag], UidLookup(uidMap, tag), Lookup(minBytes, tag, 0), reset);
      counters := counters[tag := c];
    }
  }

  function UidLookup(uidMap: map<string, int>, tag: string): string -> int {
    uuid => Lookup(uidMap, UserTag(tag, uuid), 0)
  }

  method DropAll<V>(m: map<string, V>, users: seq<UserInfo>) returns (rest: map<string, V>)
    ensures rest == m - Uuids(users)
  {
    rest := m;
    for i := 0 to |users|
      invariant rest == m - Uuids(users[..i])
    {
      assert users[..i + 1] == users[..i] + [users[i]];
      assert Uuids(users[..i + 1]) == Uuids(users[..i]) + {users[i].uuid};
      rest := rest - {users[i].uuid};
    }
    assert users[..|users|] == users;
  }

  method TableOf(list: seq<UserInfo>, ghost next: Users) returns (table: Users)
    requires WellKeyed(next) && Lists(list, next)
    ensures table == next
  {
    table := map[];
    for i := 0 to |list|
      invariant table == ByUuid(list[..i])
    {
      assert list[..i + 1][..i] == list[..i];
      table := table[list[i].uuid := list[i]];
    }
    assert list[..|list|] == list;
    ByUuidKeys(list);
    assert forall x :: x in next ==> next[x] in list;
    assert forall x :: x in table ==> table[x] in list;
  }

  method Unindex(uidMap: map<string, int>, tag: string, users: Users) returns (rest: map<string, int>)
    ensures rest == uidMap - UidKeys(tag, users.Keys)
  {
    rest := uidMap;
    var todo := users.Keys;
    while todo != {}
      invariant todo <= users.Keys && rest == uidMap - UidKeys(tag, users.Keys - todo)
    {
      var x :| x in todo;
      assert UidKeys(tag, users.Keys - (todo - {x})) == UidKeys(tag, users.Keys - todo) + {UserTag(tag, x)};
      rest := rest - {UserTag(tag, x)};
      todo := todo - {x};
    }
    assert users.Keys - todo == users.Keys;
  }

  method Reindex(uidMap: map<string, int>, tag: string, list: seq<UserInfo>, ghost next: Users)
    returns (full: map<string, int>)
    requires WellKeyed(next) && Lists(list, next)
    ensures full == uidMap + Index(tag, next)
  {
    full := uidMap;
    assert Uuids([]) == {};
    assert IndexBy(next, tag, {}) == map[];
    for i := 0 to |list|
      invariant full == uidMap + IndexBy(next, tag, Uuids(list[..i]))
    {
      hide IndexBy, Lists;
      var u := list[i];
      assert IdOf(next, u.uuid) == u.id by { Member(list, next, i); }
      assert list[..i + 1] == list[..i] + [u];
      assert Uuids(list[..i + 1]) == Uuids(list[..i]) + {u.uuid};
      IndexByNext(uidMap, next, tag, Uuids(list[..i]), u.uuid);
      full := full[UserTag(tag, u.uuid) := u.id];
    }
    assert list[..|list|] == list;
    assert Uuids(list) == next.Keys by {
      forall x | x in next ensures x in Uuids(list) { assert next[x] in list; }
    }
  }

  function IndexBy(users: Users, tag: string, uuids: set<string>): map<string, int> {
    map k | k in UidKeys(tag, uuids) :: IdOf(users, UuidOf(tag, k))
  }

  lemma Member(list: seq<UserInfo>, users: Users, i: nat)
    requires Lists(list, users) && i < |list|
    ensures IdOf(users, list[i].uuid) == list[i].id
  {
    assert list[i] in list;
  }

  lemma IndexByNext(base: map<string, int>, users: Users, tag: string, uuids: set<string>, x: string)
    ensures base + IndexBy(users, tag, uuids + {x}) ==
            (base + IndexBy(users, tag, uuids))[UserTag(tag, x) := IdOf(users, x)]
  {
    UuidOfKey(tag, x);
    assert UidKeys(tag, uuids + {x}) == UidKeys(tag, uuids) + {UserTag(tag, x)};
  }

  // ---------------------------------------------------------------------------
  // What an inbound serves
  // ---------------------------------------------------------------------------

  /** Every inbound serves the sorted list of its tag's users. */
  ghost predicate Served(s: Tables) {
    KeyedTables(s) && forall tag :: tag in s.inbounds ==> s.inbounds[tag] == CanonicalList(KeyedUsers(s, tag))
  }

  ghost function KeyedUsers(s: Tables, tag: string): (users: Users)
    requires KeyedTables(s)
    ensures WellKeyed(users)
  {
    UsersOf(s, tag)
  }

  ghost predicate ServedAt(s: Tables, tag: string)
    requires KeyedTables(s)
  {
    tag in s.inbounds ==> s.inbounds[tag] == CanonicalList(KeyedUsers(s, tag))
  }

  lemma ServedElsewhere(s: Tables, op: Op)
    requires Served(s)
    ensures KeyedTables(Step(s, op)) && (Served(Step(s, op)) <==> ServedAt(Step(s, op), op.tag))
  {
    StepKeyed(s, op);
    var s' := Step(s, op);
    hide Step;
    forall tag | tag in s'.inbounds && tag != op.tag
      ensures s'.inbounds[tag] == CanonicalList(KeyedUsers(s', tag))
    {
      OtherTablesUndisturbed(s, op, tag);
      assert KeyedUsers(s', tag) == KeyedUsers(s, tag);
    }
  }

  /** Served lists stay canonical under every operation, save exactly a node removal
      that the server refuses or an inbound created over a tag that still has users. */
  lemma StepServedIff(s: Tables, op: Op)
    requires Served(s)
    ensures KeyedTables(Step(s, op))
    ensures Served(Step(s, op)) <==>
            match op
            case DelNode(tag, ok) => ok || tag !in s.inbounds || UsersOf(s, tag) == map[]
            case AddNode(tag, _, ok) => !ok || UsersOf(s, tag) == map[]
            case _ => true
  {
    ServedElsewhere(s, op);
    ServedHere(s, op.tag);
    hide Served;
    if op.AddUsers? || op.DelUsers? {
      UserOpServes(s, op);
    } else {
      NodeOpServesIff(s, op);
    }
  }

  lemma UserOpServes(s: Tables, op: Op)
    requires KeyedTables(s) && ServedAt(s, op.tag) && (op.AddUsers? || op.DelUsers?)
    ensures KeyedTables(Step(s, op)) && ServedAt(Step(s, op), op.tag)
  {
    StepKeyed(s, op);
    hide Canonical, WithIndex;
  }

  lemma NodeOpServesIff(s: Tables, op: Op)
    requires KeyedTables(s) && ServedAt(s, op.tag) && (op.AddNode? || op.DelNode?)
    ensures KeyedTables(Step(s, op))
    ensures ServedAt(Step(s, op), op.tag) <==>
            match op
            case DelNode(tag, ok) => ok || tag !in s.inbounds || UsersOf(s, tag) == map[]
            case AddNode(tag, _, ok) => !ok || UsersOf(s, tag) == map[]
            case _ => true
  {
    StepKeyed(s, op);
    ListEmptyIff(KeyedUsers(s, op.tag));
    ListEmptyIff(KeyedUsers(Step(s, op), op.tag));
    hide Canonical;
  }

  lemma ServedHere(s: Tables, tag: string)
    requires Served(s)
    ensures ServedAt(s, tag)
  {
  }

  lemma ListEmptyIff(users: Users)
    requires WellKeyed(users)
    ensures CanonicalList(users) == [] <==> users == map[]
  {
    EmptyIffEmpty(CanonicalList(users), users);
  }
}
