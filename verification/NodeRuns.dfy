/** Incremental synchronisation against a rebuild, over whole runs of polls, connections and reports. */
module NodeRuns {
  import opened Common
  import opened UserDiff
  import opened Controller
  import V = Veil
  import R = LimiterRuns
  import S = SingCore

  // ---------------------------------------------------------------------------
  // What being in step with the user list means
  // ---------------------------------------------------------------------------

  function TagKeys(tag: string, users: seq<UserInfo>): set<string> {
    S.UidKeys(tag, Uuids(users))
  }

  /** The limiter knows exactly the listed users, each with its listed speed. */
  ghost predicate LimiterFollows(t: V.Tables, tag: string, users: seq<UserInfo>) {
    t.info.Keys == TagKeys(tag, users)
    && forall u :: u in users ==> UserTag(tag, u.uuid) in t.info && t.info[UserTag(tag, u.uuid)].speed == u.speedLimit
  }

  ghost predicate CoreFollows(core: S.Tables, tag: string, users: seq<UserInfo>) {
    S.UsersOf(core, tag).Keys == Uuids(users)
  }

  lemma ServedIsKeyed(core: S.Tables)
    requires S.Served(core)
    ensures S.KeyedTables(core)
  {
  }

  lemma StepServes(core: S.Tables, op: S.Op)
    requires S.Served(core)
    requires op.DelNode? ==> op.ok
    requires op.AddNode? ==> S.UsersOf(core, op.tag) == map[]
    ensures S.Served(S.Step(core, op))
  {
    S.StepServedIff(core, op);
  }

  /** The limiter is in step with the controller's list, whatever the core does. */
  ghost predicate LimiterSynced(c: Node, universe: iset<string>) {
    && ListOver(c.users, universe)
    && LimiterFollows(c.limiter, c.tag, c.users) && c.limiter.nodeSpeed == c.nodeSpeed
    && R.NoDynamic(c.limiter) && R.Coherent(c.limiter)
  }

  ghost predicate Synced(c: Node, universe: iset<string>) {
    && LimiterSynced(c, universe)
    && S.Served(c.core) && c.tag in c.core.inbounds && CoreFollows(c.core, c.tag, c.users)
    && c.tag in c.registered
  }

  lemma LimiterPart(c: Node, universe: iset<string>)
    requires Synced(c, universe)
    ensures LimiterSynced(c, universe)
  {
  }

  /** Core calls succeed, lists are distinct and over the universe, and only an unnamed node is reloaded,
      under its own tag or one no other node of the core uses. */
  ghost predicate Smooth(c: Node, p: Poll, universe: iset<string>) {
    && p.delNodeOk && p.certOk && p.addNodeOk && p.delUsersOk && p.addUsersOk
    && (p.users.Some? ==> ListOver(p.users.value, universe))
    && (p.node.Some? ==> !c.named && (p.node.value.tag == c.tag || p.node.value.tag !in c.core.tagUsers))
  }

  lemma KeyIn(tag: string, users: seq<UserInfo>, x: string)
    ensures UserTag(tag, x) in TagKeys(tag, users) <==> x in Uuids(users)
  {
    if UserTag(tag, x) in TagKeys(tag, users) {
      var y :| y in Uuids(users) && UserTag(tag, y) == UserTag(tag, x);
      SameTagInjective(tag, x, y);
    }
  }

  lemma KeyInDeleted(tag: string, gone: set<UserInfo>, x: string)
    ensures UserTag(tag, x) in V.KeysOf(tag, gone) <==> exists u :: u in gone && u.uuid == x
  {
    if UserTag(tag, x) in V.KeysOf(tag, gone) {
      var u :| u in gone && UserTag(tag, u.uuid) == UserTag(tag, x);
      SameTagInjective(tag, x, u.uuid);
    }
  }

  lemma KeysOfList(tag: string, users: seq<UserInfo>)
    ensures V.KeysOf(tag, set u | u in users) == TagKeys(tag, users)
  {
    forall k | k in TagKeys(tag, users)
      ensures k in V.KeysOf(tag, set u | u in users)
    {
      var x :| x in Uuids(users) && k == UserTag(tag, x);
      var u :| u in users && u.uuid == x;
      assert u in (set w | w in users);
    }
  }

  // ---------------------------------------------------------------------------
  // The limiter
  // ---------------------------------------------------------------------------

  lemma CreatedFollows(nodeSpeed: int, tag: string, users: seq<UserInfo>, alive: map<int, int>)
    requires DistinctUuids(users)
    ensures var t := V.Created(nodeSpeed, tag, users, alive);
            LimiterFollows(t, tag, users) && R.NoDynamic(t) && R.Coherent(t)
    ensures forall u :: u in users ==>
            V.Created(nodeSpeed, tag, users, alive).info[UserTag(tag, u.uuid)] == V.LimitOf(u)
  {
    V.StoreLimitsKeys(map[], tag, users);
    KeysOfList(tag, users);
    forall u | u in users
      ensures UserTag(tag, u.uuid) in V.StoreLimits(map[], tag, users)
      ensures V.StoreLimits(map[], tag, users)[UserTag(tag, u.uuid)] == V.LimitOf(u)
    {
      V.StoreLimitsExact(map[], tag, users, u);
    }
  }

  /** What the limiter knows of one uuid after the diff between two lists. */
  lemma DiffedLimits(t: V.Tables, tag: string, before: seq<UserInfo>, after: seq<UserInfo>, universe: iset<string>,
                     x: string)
    requires ListOver(before, universe) && ListOver(after, universe) && NoKeyClash(universe)
    requires t.info.Keys == TagKeys(tag, before)
    ensures var t' := V.Update(t, tag, Added(DiffKeys(before), after), Deleted(before, after));
            && (UserTag(tag, x) in t'.info <==> x in Uuids(after))
            && (forall v :: v in after && v.uuid == x ==>
                  (UserTag(tag, x) in t'.info &&
                   if Unmatched(v, before) then t'.info[UserTag(tag, x)] == V.LimitOf(v)
                   else UserTag(tag, x) in t.info && t'.info[UserTag(tag, x)] == t.info[UserTag(tag, x)]))
  {
    hide DiffKey, Unmatched;
    var deleted, added := Deleted(before, after), Added(DiffKeys(before), after);
    var kept := t.info - V.KeysOf(tag, deleted);
    var k := UserTag(tag, x);
    DiffExact(before, after, universe);
    V.StoreLimitsKeys(kept, tag, added);
    KeysOfList(tag, added);
    KeyIn(tag, added, x);
    KeyIn(tag, before, x);
    KeyInDeleted(tag, deleted, x);
    AppliedAt(before, after, universe, x);
    AppliedKeys(before, after, x);
    forall v | v in after && v.uuid == x
      ensures if Unmatched(v, before) then v in added && V.StoreLimits(kept, tag, added)[k] == V.LimitOf(v)
              else x !in Uuids(added)
    {
      if Unmatched(v, before) {
        V.StoreLimitsExact(kept, tag, added, v);
      } else {
        SameUser(after, v);
      }
    }
  }

  lemma UpdatedKeys(t: V.Tables, tag: string, before: seq<UserInfo>, after: seq<UserInfo>)
    requires t.info.Keys == TagKeys(tag, before)
    ensures var t' := V.Update(t, tag, Added(DiffKeys(before), after), Deleted(before, after));
            forall k :: k in t'.info ==> k == UserTag(tag, S.UuidOf(tag, k))
  {
    hide DiffKey;
    var deleted, added := Deleted(before, after), Added(DiffKeys(before), after);
    V.StoreLimitsKeys(t.info - V.KeysOf(tag, deleted), tag, added);
    KeysOfList(tag, added);
    forall x
      ensures S.UuidOf(tag, UserTag(tag, x)) == x
    {
      S.UuidOfKey(tag, x);
    }
  }

  lemma UpdatedFollows(t: V.Tables, tag: string, before: seq<UserInfo>, after: seq<UserInfo>, universe: iset<string>)
    requires ListOver(before, universe) && ListOver(after, universe) && NoKeyClash(universe)
    requires LimiterFollows(t, tag, before)
    ensures LimiterFollows(V.Update(t, tag, Added(DiffKeys(before), after), Deleted(before, after)), tag, after)
  {
    hide DiffKey, V.Update, NoKeyClash;
    var t' := V.Update(t, tag, Added(DiffKeys(before), after), Deleted(before, after));
    UpdatedKeys(t, tag, before, after);
    forall x
      ensures UserTag(tag, x) in t'.info <==> UserTag(tag, x) in TagKeys(tag, after)
    {
      DiffedLimits(t, tag, before, after, universe, x);
      KeyIn(tag, after, x);
    }
    forall k
      ensures k in t'.info <==> k in TagKeys(tag, after)
    {
      if k in t'.info {
        var x := S.UuidOf(tag, k);
        assert k == UserTag(tag, x);
      }
      if k in TagKeys(tag, after) {
        var x :| x in Uuids(after) && k == UserTag(tag, x);
      }
    }
    forall v | v in after
      ensures UserTag(tag, v.uuid) in t'.info && t'.info[UserTag(tag, v.uuid)].speed == v.speedLimit
    {
      DiffedLimits(t, tag, before, after, universe, v.uuid);
      if !Unmatched(v, before) {
        var u :| u in before && u.uuid == v.uuid && u.speedLimit == v.speedLimit;
      }
    }
  }

  /** A user the diff adds has no bucket, or is deleted first. */
  lemma AddedHaveNoBucket(t: V.Tables, tag: string, before: seq<UserInfo>, after: seq<UserInfo>, universe: iset<string>,
                          u: UserInfo)
    requires ListOver(before, universe) && ListOver(after, universe) && NoKeyClash(universe)
    requires t.info.Keys == TagKeys(tag, before) && R.Coherent(t)
    requires u in Added(DiffKeys(before), after)
    ensures UserTag(tag, u.uuid) !in t.buckets || UserTag(tag, u.uuid) in V.KeysOf(tag, Deleted(before, after))
  {
    hide DiffKey, R.Due;
    DiffExact(before, after, universe);
    if UserTag(tag, u.uuid) in t.buckets {
      KeyIn(tag, before, u.uuid);
      var w :| w in before && w.uuid == u.uuid;
      SameUser(after, u);
      assert w in Deleted(before, after);
      KeyInDeleted(tag, Deleted(before, after), u.uuid);
    }
  }

  /** The diff deletes every user whose rate changes, so no stale bucket survives. */
  lemma DiffLeavesNoStaleBucket(t: V.Tables, tag: string, before: seq<UserInfo>, after: seq<UserInfo>,
                                universe: iset<string>)
    requires ListOver(before, universe) && ListOver(after, universe) && NoKeyClash(universe)
    requires LimiterFollows(t, tag, before) && R.NoDynamic(t) && R.Coherent(t)
    ensures var t' := V.Update(t, tag, Added(DiffKeys(before), after), Deleted(before, after));
            R.NoDynamic(t') && R.Coherent(t')
  {
    hide DiffKey, R.Due, R.Coherent;
    var deleted, added := Deleted(before, after), Added(DiffKeys(before), after);
    DiffExact(before, after, universe);
    forall u | u in added
      ensures UserTag(tag, u.uuid) !in t.buckets || UserTag(tag, u.uuid) in V.KeysOf(tag, deleted)
    {
      AddedHaveNoBucket(t, tag, before, after, universe, u);
    }
    R.UpdateKeepsCoherenceIff(t, tag, added, deleted);
  }

  // ---------------------------------------------------------------------------
  // The core
  // ---------------------------------------------------------------------------

  lemma AddedUsers(core: S.Tables, tag: string, users: seq<UserInfo>)
    requires S.Served(core) && tag in core.inbounds
    ensures var core' := S.Step(core, S.AddUsers(tag, users, true));
            S.Served(core') && tag in core'.inbounds && S.UsersOf(core', tag) == S.UsersOf(core, tag) + ByUuid(users)
  {
    ServedIsKeyed(core);
    hide S.Step, S.Served;
    StepServes(core, S.AddUsers(tag, users, true));
    AddedShape(core, tag, users);
  }

  lemma AddedShape(core: S.Tables, tag: string, users: seq<UserInfo>)
    requires S.KeyedTables(core) && tag in core.inbounds
    ensures var core' := S.Step(core, S.AddUsers(tag, users, true));
            tag in core'.inbounds && S.UsersOf(core', tag) == S.UsersOf(core, tag) + ByUuid(users)
  {
    hide S.WithIndex, ByUuid;
    S.NextIsKeyed(core, tag, users, {});
  }

  lemma RemovedUsers(core: S.Tables, tag: string, gone: set<string>)
    requires S.Served(core) && tag in core.inbounds
    ensures var core' := S.Step(core, S.DelUsers(tag, gone, true));
            S.Served(core') && tag in core'.inbounds && S.UsersOf(core', tag) == S.UsersOf(core, tag) - gone
  {
    ServedIsKeyed(core);
    hide S.Step, S.Served;
    StepServes(core, S.DelUsers(tag, gone, true));
    RemovedShape(core, tag, gone);
  }

  lemma RemovedShape(core: S.Tables, tag: string, gone: set<string>)
    requires S.KeyedTables(core) && tag in core.inbounds
    ensures var core' := S.Step(core, S.DelUsers(tag, gone, true));
            tag in core'.inbounds && S.UsersOf(core', tag) == S.UsersOf(core, tag) - gone
  {
    hide S.WithIndex;
    S.NextIsKeyed(core, tag, [], gone);
  }

  /** The core's table for the tag after a diff whose calls succeed. */
  function DiffedUsers(users: S.Users, before: seq<UserInfo>, after: seq<UserInfo>): S.Users {
    (users - DeletedUuids(Deleted(before, after))) + ByUuid(Added(DiffKeys(before), after))
  }

  lemma DiffedUsersKeys(users: S.Users, before: seq<UserInfo>, after: seq<UserInfo>, universe: iset<string>)
    requires ListOver(before, universe) && ListOver(after, universe) && NoKeyClash(universe)
    requires users.Keys == Uuids(before)
    ensures DiffedUsers(users, before, after).Keys == Uuids(after)
  {
    hide DiffKey;
    ByUuidKeys(Added(DiffKeys(before), after));
    forall x
      ensures x in DiffedUsers(users, before, after) <==> x in Uuids(after)
    {
      AppliedAt(before, after, universe, x);
      AppliedKeys(before, after, x);
      assert x in DeletedUuids(Deleted(before, after)) <==> exists u :: u in Deleted(before, after) && u.uuid == x;
    }
  }

  // ---------------------------------------------------------------------------
  // One poll
  // ---------------------------------------------------------------------------

  /** The core after a reload whose calls succeed. */
  ghost function ReloadedCore(core: S.Tables, oldTag: string, tag: string, minBytes: int,
                              users: seq<UserInfo>): S.Tables
    requires S.KeyedTables(core)
  {
    S.StepKeyed(core, S.DelNode(oldTag, true));
    var core1 := S.Step(core, S.DelNode(oldTag, true));
    S.StepKeyed(core1, S.AddNode(tag, minBytes, true));
    S.Step(S.Step(core1, S.AddNode(tag, minBytes, true)), S.AddUsers(tag, users, true))
  }

  lemma ClearedCore(core: S.Tables, oldTag: string, tag: string, minBytes: int)
    requires S.Served(core) && (tag == oldTag || tag !in core.tagUsers)
    ensures S.KeyedTables(core) && S.KeyedTables(S.Step(core, S.DelNode(oldTag, true)))
    ensures var core2 := S.Step(S.Step(core, S.DelNode(oldTag, true)), S.AddNode(tag, minBytes, true));
            S.Served(core2) && tag in core2.inbounds && S.UsersOf(core2, tag) == map[]
  {
    ServedIsKeyed(core);
    var core1 := S.Step(core, S.DelNode(oldTag, true));
    StepServes(core, S.DelNode(oldTag, true));
    ServedIsKeyed(core1);
    StepServes(core1, S.AddNode(tag, minBytes, true));
  }

  lemma ReloadedCoreFollows(core: S.Tables, oldTag: string, tag: string, minBytes: int, users: seq<UserInfo>)
    requires S.Served(core) && (tag == oldTag || tag !in core.tagUsers)
    ensures S.KeyedTables(core)
    ensures var core' := ReloadedCore(core, oldTag, tag, minBytes, users);
            S.Served(core') && tag in core'.inbounds && S.UsersOf(core', tag) == ByUuid(users)
                && CoreFollows(core', tag, users)
  {
    ClearedCore(core, oldTag, tag, minBytes);
    hide S.Served, S.Step, S.KeyedTables, S.UsersOf, CoreFollows, ByUuid;
    AddedToNobody(S.Step(S.Step(core, S.DelNode(oldTag, true)), S.AddNode(tag, minBytes, true)), tag, users);
  }

  lemma AddedToNobody(core: S.Tables, tag: string, users: seq<UserInfo>)
    requires S.Served(core) && tag in core.inbounds && S.UsersOf(core, tag) == map[]
    ensures S.KeyedTables(core)
    ensures var core' := S.Step(core, S.AddUsers(tag, users, true));
            S.Served(core') && tag in core'.inbounds && S.UsersOf(core', tag) == ByUuid(users)
                && CoreFollows(core', tag, users)
  {
    ServedIsKeyed(core);
    EmptyUnion(ByUuid(users));
    hide S.Served, S.Step, S.KeyedTables, S.UsersOf, ByUuid;
    AddedUsers(core, tag, users);
    ByUuidKeys(users);
  }

  lemma EmptyUnion<K, T>(m: map<K, T>)
    ensures map[] + m == m
  {
  }

  lemma ReloadedNode(c: Node, p: Poll)
    requires S.KeyedTables(c.core) && p.node.Some? && !c.named && p.delNodeOk && p.certOk && p.addNodeOk && p.addUsersOk
    ensures var tag, users := p.node.value.tag, GetOr(p.users, c.users);
            Reload(c, p) == c.(users := users, tag := tag, registered := c.registered + {tag},
                               core := ReloadedCore(c.core, c.tag, tag, c.minBytes, users),
                               limiter := V.Created(c.nodeSpeed, tag, users, GetOr(p.alive, map[])))
  {
    hide S.Step, S.KeyedTables;
    CreatedWithAlive(c.nodeSpeed, p.node.value.tag, GetOr(p.users, c.users), GetOr(p.alive, map[]));
  }

  lemma CreatedWithAlive(nodeSpeed: int, tag: string, users: seq<UserInfo>, alive: map<int, int>)
    ensures V.Created(nodeSpeed, tag, users, alive).(alive := alive) == V.Created(nodeSpeed, tag, users, alive)
  {
  }

  /** A reload of an unnamed node whose calls succeed, under its own tag or one no other node of the core uses. */
  ghost predicate Restores(c: Node, p: Poll, universe: iset<string>) {
    && p.fetched && p.node.Some? && !c.named && p.delNodeOk && p.certOk && p.addNodeOk && p.addUsersOk
    && (p.node.value.tag == c.tag || p.node.value.tag !in c.core.tagUsers)
    && ListOver(GetOr(p.users, c.users), universe)
  }

  /** Such a reload puts limiter and core in step, however far from the list they were. */
  lemma ReloadSyncs(c: Node, p: Poll, universe: iset<string>)
    requires S.Served(c.core) && Restores(c, p, universe)
    ensures S.KeyedTables(c.core)
    ensures Synced(Reload(c, p), universe) && Reload(c, p).users == GetOr(p.users, c.users)
  {
    ServedIsKeyed(c.core);
    hide S.Served, V.Created, R.Coherent, R.NoDynamic, LimiterFollows, CoreFollows, Reload, ReloadedCore;
    var users, tag := GetOr(p.users, c.users), p.node.value.tag;
    ReloadedNode(c, p);
    ReloadedCoreFollows(c.core, c.tag, tag, c.minBytes, users);
    CreatedFollows(c.nodeSpeed, tag, users, GetOr(p.alive, map[]));
    NodeSpeedIsFixed(c.limiter, tag, [], {}, c.nodeSpeed, users, GetOr(p.alive, map[]));
  }

  /** A reload whose certificate or node creation fails leaves the old node removed and adds no users, for any tag,
      although list and limiter are already the new ones. */
  lemma FailedCreationAddsNobody(c: Node, p: Poll)
    requires S.KeyedTables(c.core) && p.fetched && p.node.Some? && p.delNodeOk
    requires (p.node.value.tls && !p.certOk) || !p.addNodeOk
    ensures var c' := PollNext(c, p);
            && c'.core.tagUsers == c.core.tagUsers - {c.tag} && c'.core.inbounds == c.core.inbounds - {c.tag}
            && c'.core.counters == c.core.counters - {c.tag}
            && c'.users == (if p.users.Some? then p.users.value else c.users)
            && (!c.named ==> c'.tag == p.node.value.tag && c'.tag in c'.registered)
  {
    hide V.Created, S.UidKeys;
  }

  /** A reload whose node removal fails has already dropped the tag's users and counters, and keeps inbound, limiter and
      tag. */
  lemma FailedRemovalDropsUsers(c: Node, p: Poll)
    requires S.KeyedTables(c.core) && p.fetched && p.node.Some? && !p.delNodeOk
    ensures var c' := PollNext(c, p);
            && c'.core.tagUsers == c.core.tagUsers - {c.tag} && c'.core.inbounds == c.core.inbounds
            && c'.core.counters == c.core.counters - {c.tag}
            && c'.limiter == c.limiter && c'.tag == c.tag && c'.registered == c.registered
  {
    hide S.UidKeys;
  }

  /** Only the reload of an unnamed node whose removal went through registers a tag, and no poll takes one away. */
  lemma RegisteredAfterPoll(c: Node, p: Poll)
    requires S.KeyedTables(c.core)
    ensures PollNext(c, p).registered ==
            if p.fetched && p.node.Some? && p.delNodeOk && !c.named then c.registered + {p.node.value.tag}
            else c.registered
  {
    hide S.Step, S.KeyedTables, Furnished, V.Created, V.Update, Deleted, Added;
  }

  /** A start makes a limiter and registers its tag exactly when all three answers came and somebody is listed;
      otherwise nothing but the list changes, which is then what came of it. */
  lemma StartGivesUpEarlyIff(c: Node, l: Launch)
    requires S.KeyedTables(c.core)
    ensures var c', tag := StartNext(c, l), if c.named then c.tag else l.node.tag;
            && (if l.nodeFetched && l.usersFetched && l.users != [] && l.aliveFetched then
                  c'.tag == tag && c'.registered == c.registered + {tag}
                else c' == c.(users := c'.users))
            && c'.users == if !l.nodeFetched then c.users else if l.usersFetched then l.users else []
  {
    hide S.Step, S.KeyedTables, Furnished, V.Created;
  }

  /** A start that fails there registers its limiter and leaves users and inbounds of the core alone. */
  lemma FailedStartAddsNobody(c: Node, l: Launch)
    requires S.KeyedTables(c.core) && !((l.node.tls ==> l.certOk) && l.addNodeOk)
    ensures var c' := StartNext(c, l);
            && c'.core.tagUsers == c.core.tagUsers && c'.core.inbounds == c.core.inbounds
            && c'.core.counters == c.core.counters && c'.core.uidMap == c.core.uidMap
            && (l.nodeFetched && l.usersFetched && l.users != [] && l.aliveFetched ==> c'.tag in c'.registered)
  {
    hide V.Created, S.UidKeys;
  }

  /** The poll does not end the process and takes no tag another node of the core uses. */
  predicate LeavesCoreSane(c: Node, p: Poll) {
    p.fetched && p.node.Some? ==>
      p.delNodeOk && (c.named || p.node.value.tag == c.tag || p.node.value.tag !in c.core.tagUsers)
  }

  /** Whatever else fails, every inbound goes on serving the sorted users of its tag. */
  lemma PollKeepsServed(c: Node, p: Poll)
    requires S.Served(c.core) && LeavesCoreSane(c, p)
    ensures S.KeyedTables(c.core) && S.Served(PollNext(c, p).core)
  {
    ServedIsKeyed(c.core);
    hide S.KeyedTables, S.Served, Reload, ApplyDiff;
    if p.fetched && p.node.Some? {
      ReloadKeepsServed(c, p);
    } else if p.fetched && p.users.Some? {
      var c1 := if p.alive.Some? then c.(limiter := c.limiter.(alive := p.alive.value)) else c;
      DiffKeepsServed(c1, p.users.value, p);
    }
  }

  lemma ReloadKeepsServed(c: Node, p: Poll)
    requires S.Served(c.core) && p.fetched && p.node.Some? && LeavesCoreSane(c, p)
    ensures S.KeyedTables(c.core) && S.Served(Reload(c, p).core)
  {
    ServedIsKeyed(c.core);
    hide S.Step, S.KeyedTables, S.Served, V.Created, Furnished;
    var tag := if c.named then c.tag else p.node.value.tag;
    ClearedServes(c.core, c.tag, tag);
    FurnishedServes(S.Step(c.core, S.DelNode(c.tag, true)), tag, c.minBytes, GetOr(p.users, c.users),
                    p.node.value.tls ==> p.certOk, p.addNodeOk, p.addUsersOk);
  }

  lemma DiffKeepsServed(c: Node, users: seq<UserInfo>, p: Poll)
    requires S.Served(c.core)
    ensures S.KeyedTables(c.core) && S.Served(ApplyDiff(c, users, p).core)
  {
    ServedIsKeyed(c.core);
    hide S.Step, S.KeyedTables, S.Served, V.Update, Deleted, Added;
    DiffServes(c.core, c.tag, DeletedUuids(Deleted(c.users, users)), Added(DiffKeys(c.users), users), p);
  }

  lemma ClearedServes(core: S.Tables, oldTag: string, tag: string)
    requires S.Served(core) && (tag == oldTag || tag !in core.tagUsers)
    ensures S.KeyedTables(core)
    ensures var core1 := S.Step(core, S.DelNode(oldTag, true)); S.Served(core1) && S.UsersOf(core1, tag) == map[]
  {
    ServedIsKeyed(core);
    StepServes(core, S.DelNode(oldTag, true));
  }

  lemma FurnishedServes(core: S.Tables, tag: string, minBytes: int, users: seq<UserInfo>,
                        certified: bool, addNodeOk: bool, addUsersOk: bool)
    requires S.Served(core) && S.UsersOf(core, tag) == map[]
    ensures S.KeyedTables(core) && S.Served(Furnished(core, tag, minBytes, users, certified, addNodeOk, addUsersOk))
  {
    ServedIsKeyed(core);
    hide S.Served, S.Step;
    StepServes(core, S.AddNode(tag, minBytes, addNodeOk));
    var core1 := S.Step(core, S.AddNode(tag, minBytes, addNodeOk));
    ServedIsKeyed(core1);
    StepServes(core1, S.AddUsers(tag, users, addUsersOk));
  }

  lemma DiffServes(core: S.Tables, tag: string, gone: set<string>, added: seq<UserInfo>, p: Poll)
    requires S.Served(core)
    ensures S.KeyedTables(core)
    ensures var core1 := S.Step(core, S.DelUsers(tag, gone, p.delUsersOk));
            && S.Served(core1) && S.KeyedTables(core1) && S.Served(S.Step(core, S.AddUsers(tag, added, p.addUsersOk)))
            && S.Served(S.Step(core1, S.AddUsers(tag, added, p.addUsersOk)))
  {
    ServedIsKeyed(core);
    hide S.Served, S.Step;
    StepServes(core, S.DelUsers(tag, gone, p.delUsersOk));
    StepServes(core, S.AddUsers(tag, added, p.addUsersOk));
    var core1 := S.Step(core, S.DelUsers(tag, gone, p.delUsersOk));
    ServedIsKeyed(core1);
    StepServes(core1, S.AddUsers(tag, added, p.addUsersOk));
  }

  /** A start that succeeds, under a tag no other node of the core uses, puts limiter and core in step with the first
      list. */
  lemma StartSyncs(c: Node, l: Launch, universe: iset<string>)
    requires S.Served(c.core) && ListOver(l.users, universe) && Succeeds(l)
    requires (if c.named then c.tag else l.node.tag) !in c.core.tagUsers
    ensures S.KeyedTables(c.core) && Synced(StartNext(c, l), universe) && StartNext(c, l).users == l.users
  {
    ServedIsKeyed(c.core);
    var tag := if c.named then c.tag else l.node.tag;
    NewInbound(c.core, tag, c.minBytes);
    CreatedFollows(c.nodeSpeed, tag, l.users, l.alive);
    NodeSpeedIsFixed(c.limiter, tag, [], {}, c.nodeSpeed, l.users, l.alive);
    hide S.Served, S.Step, S.KeyedTables, S.UsersOf, V.Created, R.Coherent, R.NoDynamic, LimiterFollows, CoreFollows;
    AddedToNobody(S.Step(c.core, S.AddNode(tag, c.minBytes, true)), tag, l.users);
  }

  lemma NewInbound(core: S.Tables, tag: string, minBytes: int)
    requires S.Served(core) && tag !in core.tagUsers
    ensures S.KeyedTables(core)
    ensures var core1 := S.Step(core, S.AddNode(tag, minBytes, true));
            S.Served(core1) && tag in core1.inbounds && S.UsersOf(core1, tag) == map[]
  {
    ServedIsKeyed(core);
    StepServes(core, S.AddNode(tag, minBytes, true));
  }

  lemma AliveIsFree(t: V.Tables, tag: string, users: seq<UserInfo>, alive: map<int, int>)
    ensures var t' := t.(alive := alive);
            && (LimiterFollows(t, tag, users) ==> LimiterFollows(t', tag, users))
            && (R.NoDynamic(t) ==> R.NoDynamic(t')) && (R.Coherent(t) ==> R.Coherent(t'))
            && t'.nodeSpeed == t.nodeSpeed
  {
  }

  /** The core after a diff whose calls succeed: a call with nobody to change is not made. */
  ghost function CoreWithout(core: S.Tables, tag: string, gone: set<UserInfo>): S.Tables
    requires S.KeyedTables(core)
  {
    if gone == {} then core else S.Step(core, S.DelUsers(tag, DeletedUuids(gone), true))
  }

  ghost function CoreWith(core: S.Tables, tag: string, users: seq<UserInfo>): S.Tables
    requires S.KeyedTables(core)
  {
    if users == [] then core else S.Step(core, S.AddUsers(tag, users, true))
  }

  ghost function DiffedCore(core: S.Tables, tag: string, before: seq<UserInfo>, after: seq<UserInfo>): S.Tables
    requires S.KeyedTables(core)
  {
    S.StepKeyed(core, S.DelUsers(tag, DeletedUuids(Deleted(before, after)), true));
    CoreWith(CoreWithout(core, tag, Deleted(before, after)), tag, Added(DiffKeys(before), after))
  }

  lemma DiffedNode(c: Node, users: seq<UserInfo>, p: Poll)
    requires S.KeyedTables(c.core) && c.tag in c.core.inbounds && p.delUsersOk && p.addUsersOk
    ensures ApplyDiff(c, users, p) == c.(core := DiffedCore(c.core, c.tag, c.users, users), users := users,
                                         limiter := V.Update(c.limiter, c.tag, Added(DiffKeys(c.users), users),
                                             Deleted(c.users, users)))
  {
    hide S.Step, S.KeyedTables, V.Update, Added, Deleted;
    S.StepKeyed(c.core, S.DelUsers(c.tag, DeletedUuids(Deleted(c.users, users)), true));
    IdleUpdate(c.limiter, c.tag);
  }

  lemma CoreWithoutUsers(core: S.Tables, tag: string, gone: set<UserInfo>)
    requires S.Served(core) && tag in core.inbounds
    ensures S.KeyedTables(core)
    ensures var core' := CoreWithout(core, tag, gone);
            S.Served(core') && tag in core'.inbounds
                && S.UsersOf(core', tag) == S.UsersOf(core, tag) - DeletedUuids(gone)
  {
    ServedIsKeyed(core);
    hide S.Served, S.Step;
    RemovedUsers(core, tag, DeletedUuids(gone));
  }

  lemma CoreWithUsers(core: S.Tables, tag: string, users: seq<UserInfo>)
    requires S.Served(core) && tag in core.inbounds
    ensures S.KeyedTables(core)
    ensures var core' := CoreWith(core, tag, users);
            S.Served(core') && tag in core'.inbounds && S.UsersOf(core', tag) == S.UsersOf(core, tag) + ByUuid(users)
  {
    ServedIsKeyed(core);
    hide S.Served, S.Step, S.KeyedTables, S.UsersOf;
    if users == [] {
      assert ByUuid(users) == map[];
      assert S.UsersOf(core, tag) + map[] == S.UsersOf(core, tag);
    } else {
      hide ByUuid;
      AddedUsers(core, tag, users);
    }
  }

  lemma DiffedCoreFollows(core: S.Tables, tag: string, before: seq<UserInfo>, after: seq<UserInfo>,
                          universe: iset<string>)
    requires S.Served(core) && tag in core.inbounds && CoreFollows(core, tag, before)
    requires ListOver(before, universe) && ListOver(after, universe) && NoKeyClash(universe)
    ensures S.KeyedTables(core)
    ensures var core' := DiffedCore(core, tag, before, after);
            S.Served(core') && tag in core'.inbounds
            && S.UsersOf(core', tag) == DiffedUsers(S.UsersOf(core, tag), before, after)
            && CoreFollows(core', tag, after)
  {
    ServedIsKeyed(core);
    hide S.Served, DiffKey, NoKeyClash, CoreWith, CoreWithout, Unmatched;
    DiffExact(before, after, universe);
    DiffedUsersKeys(S.UsersOf(core, tag), before, after, universe);
    CoreWithoutUsers(core, tag, Deleted(before, after));
    CoreWithUsers(CoreWithout(core, tag, Deleted(before, after)), tag, Added(DiffKeys(before), after));
  }

  lemma DiffSyncs(c: Node, users: seq<UserInfo>, p: Poll, universe: iset<string>)
    requires Synced(c, universe) && NoKeyClash(universe)
    requires ListOver(users, universe) && p.delUsersOk && p.addUsersOk
    ensures S.KeyedTables(c.core) && Synced(ApplyDiff(c, users, p), universe)
  {
    ServedIsKeyed(c.core);
    hide S.Served, V.Update, R.Coherent, R.NoDynamic, LimiterFollows, NoKeyClash, ApplyDiff, DiffedCore, Deleted, Added;
    DiffedNode(c, users, p);
    DiffedCoreFollows(c.core, c.tag, c.users, users, universe);
    UpdatedFollows(c.limiter, c.tag, c.users, users, universe);
    DiffLeavesNoStaleBucket(c.limiter, c.tag, c.users, users, universe);
    NodeSpeedIsFixed(c.limiter, c.tag, Added(DiffKeys(c.users), users), Deleted(c.users, users), c.nodeSpeed, users,
        map[]);
  }

  lemma NodeSpeedIsFixed(t: V.Tables, tag: string, added: seq<UserInfo>, deleted: set<UserInfo>,
                         nodeSpeed: int, users: seq<UserInfo>, alive: map<int, int>)
    ensures V.Update(t, tag, added, deleted).nodeSpeed == t.nodeSpeed
    ensures V.Created(nodeSpeed, tag, users, alive).nodeSpeed == nodeSpeed
  {
  }

  lemma IdleUpdate(t: V.Tables, tag: string)
    ensures V.Update(t, tag, [], {}) == t
  {
    assert t.info - {} == t.info && t.online - {} == t.online && t.buckets - {} == t.buckets;
    assert t.uids - {} == t.uids && t.alive - {} == t.alive;
  }

  /** The limiter a poll leaves, whatever the core does with the poll's calls. */
  lemma DiffLimiter(c: Node, users: seq<UserInfo>, p: Poll)
    requires S.KeyedTables(c.core)
    ensures var c' := ApplyDiff(c, users, p);
            && c'.tag == c.tag && c'.nodeSpeed == c.nodeSpeed
            && if DiffGoesThrough(c, users, p) then
                 && c'.users == users
                 && c'.limiter == V.Update(c.limiter, c.tag, Added(DiffKeys(c.users), users), Deleted(c.users, users))
               else c'.users == c.users && c'.limiter == c.limiter
  {
    hide S.Step, S.KeyedTables, V.Update, Added, Deleted;
    IdleUpdate(c.limiter, c.tag);
  }

  lemma DiffKeepsLimiter(c: Node, users: seq<UserInfo>, p: Poll, universe: iset<string>)
    requires S.KeyedTables(c.core) && LimiterSynced(c, universe) && NoKeyClash(universe) && ListOver(users, universe)
    ensures LimiterSynced(ApplyDiff(c, users, p), universe)
  {
    hide S.KeyedTables, V.Update, R.Coherent, R.NoDynamic, LimiterFollows, NoKeyClash, ApplyDiff, Deleted, Added;
    hide DiffGoesThrough;
    DiffLimiter(c, users, p);
    UpdatedFollows(c.limiter, c.tag, c.users, users, universe);
    DiffLeavesNoStaleBucket(c.limiter, c.tag, c.users, users, universe);
    NodeSpeedIsFixed(c.limiter, c.tag, Added(DiffKeys(c.users), users), Deleted(c.users, users), c.nodeSpeed, users,
                     map[]);
  }

  /** A reload that rebuilds the limiter: of an unnamed node, once the old node is gone. */
  predicate Rebuilds(c: Node, p: Poll) {
    !c.named && p.delNodeOk
  }

  lemma RebuiltLimiter(c: Node, p: Poll, universe: iset<string>)
    requires S.KeyedTables(c.core) && p.node.Some? && Rebuilds(c, p) && ListOver(GetOr(p.users, c.users), universe)
    ensures LimiterSynced(Reload(c, p), universe) && Reload(c, p).users == GetOr(p.users, c.users)
  {
    hide S.Step, S.KeyedTables, V.Created, Furnished, R.Coherent, R.NoDynamic, LimiterFollows;
    var users, tag := GetOr(p.users, c.users), p.node.value.tag;
    CreatedWithAlive(c.nodeSpeed, tag, users, GetOr(p.alive, map[]));
    CreatedFollows(c.nodeSpeed, tag, users, GetOr(p.alive, map[]));
    NodeSpeedIsFixed(c.limiter, tag, [], {}, c.nodeSpeed, users, GetOr(p.alive, map[]));
  }

  /** Any other reload keeps it. */
  lemma KeptLimiter(c: Node, p: Poll)
    requires S.KeyedTables(c.core) && p.node.Some? && !Rebuilds(c, p)
    ensures var c' := Reload(c, p);
            && (c'.limiter == c.limiter || exists alive :: c'.limiter == c.limiter.(alive := alive))
            && c'.tag == c.tag && c'.nodeSpeed == c.nodeSpeed && c'.users == GetOr(p.users, c.users)
  {
    hide S.Step, S.KeyedTables, Furnished;
    if p.delNodeOk && p.alive.Some? {
      assert Reload(c, p).limiter == c.limiter.(alive := p.alive.value);
    }
  }

  /** The poll rebuilds the limiter, or leaves uuids and speeds of the held list as they were. */
  ghost predicate LimiterKeepsUp(c: Node, p: Poll) {
    p.fetched && p.node.Some? && !Rebuilds(c, p) ==> Speeds(GetOr(p.users, c.users)) == Speeds(c.users)
  }

  /** Exactly when a poll, however all its calls end, leaves the limiter in step with the list held afterwards. */
  lemma PollKeepsLimiterIff(c: Node, p: Poll, universe: iset<string>)
    requires S.KeyedTables(c.core) && LimiterSynced(c, universe) && NoKeyClash(universe)
    requires p.users.Some? ==> ListOver(p.users.value, universe)
    ensures LimiterSynced(PollNext(c, p), universe) <==> LimiterKeepsUp(c, p)
  {
    hide S.KeyedTables, Reload, ApplyDiff, NoKeyClash, R.Coherent, R.NoDynamic, LimiterFollows, Speeds, Rebuilds;
    if p.fetched {
      if p.node.Some? {
        if Rebuilds(c, p) {
          RebuiltLimiter(c, p, universe);
        } else {
          var users := GetOr(p.users, c.users);
          KeptLimiter(c, p);
          FollowsIff(c.limiter, c.tag, c.users, users);
          SameLimits(c.limiter, Reload(c, p).limiter, c.tag, users);
        }
      } else {
        var c1 := if p.alive.Some? then c.(limiter := c.limiter.(alive := p.alive.value)) else c;
        if p.alive.Some? { AliveIsFree(c.limiter, c.tag, c.users, p.alive.value); }
        assert LimiterSynced(c1, universe);
        if p.users.Some? && p.users.value != [] {
          DiffKeepsLimiter(c1, p.users.value, p, universe);
        }
      }
    }
  }

  /** Every smooth poll leaves the limiter and the core in step with the controller's list. */
  lemma PollSyncs(c: Node, p: Poll, universe: iset<string>)
    requires Synced(c, universe) && Smooth(c, p, universe) && NoKeyClash(universe)
    ensures Synced(PollNext(c, p), universe)
    ensures PollNext(c, p).users == ListTaken(c.users, p)
  {
    hide Reload, ApplyDiff, NoKeyClash, S.Served, R.Coherent, R.NoDynamic, LimiterFollows;
    ServedIsKeyed(c.core);
    if p.fetched {
      if p.node.Some? {
        ReloadSyncs(c, p, universe);
      } else {
        if p.alive.Some? { AliveIsFree(c.limiter, c.tag, c.users, p.alive.value); }
        var c1 := if p.alive.Some? then c.(limiter := c.limiter.(alive := p.alive.value)) else c;
        assert Synced(c1, universe);
        if p.users.Some? && p.users.value != [] {
          DiffSyncs(c1, p.users.value, p, universe);
          DiffedNode(c1, p.users.value, p);
        }
      }
    }
  }

  /** The list a smooth poll leaves in the controller: an empty list is taken only on a reload. */
  function ListTaken(users: seq<UserInfo>, p: Poll): seq<UserInfo> {
    if !p.fetched || p.users.None? || (p.node.None? && p.users.value == []) then users else p.users.value
  }

  /** Both core calls the diff makes succeed. */
  predicate DiffGoesThrough(c: Node, users: seq<UserInfo>, p: Poll) {
    && (Deleted(c.users, users) == {} || (p.delUsersOk && c.tag in c.core.inbounds))
    && (Added(DiffKeys(c.users), users) == [] || (p.addUsersOk && c.tag in c.core.inbounds))
  }

  /** Exactly when a poll leaves the controller with the list the panel sent, however the calls it leads to end. */
  lemma HoldsSentListIff(c: Node, p: Poll)
    requires S.KeyedTables(c.core) && p.fetched && p.users.Some?
    ensures PollNext(c, p).users == p.users.value <==>
            p.node.Some? || c.users == p.users.value || (p.users.value != [] && DiffGoesThrough(c, p.users.value, p))
  {
    hide S.Step, S.KeyedTables, V.Update, V.Created, Deleted, Added;
  }

  /** The poll does not send an empty list for a node that did not change and has users. */
  predicate ListReaches(held: seq<UserInfo>, p: Poll) {
    p.node.Some? || p.users.None? || p.users.value != [] || held == []
  }

  /** When all calls succeed, exactly an empty list for an unchanged node that has users is not taken. */
  lemma SmoothHoldsSentListIff(c: Node, p: Poll, universe: iset<string>)
    requires Synced(c, universe) && Smooth(c, p, universe) && NoKeyClash(universe) && p.fetched && p.users.Some?
    ensures PollNext(c, p).users == p.users.value <==> ListReaches(c.users, p)
  {
    hide Synced, Smooth, NoKeyClash, PollNext;
    PollSyncs(c, p, universe);
  }

  // ---------------------------------------------------------------------------
  // The uid index
  // ---------------------------------------------------------------------------

  ghost predicate BarFreeList(users: seq<UserInfo>) {
    forall u :: u in users ==> NoBar(u.uuid)
  }

  /** Every poll, however its calls end, keeps the index exact over all tags. */
  lemma PollKeepsIndex(c: Node, p: Poll)
    requires S.KeyedTables(c.core) && S.Indexed(c.core) && BarFreeList(c.users)
    requires p.users.Some? ==> BarFreeList(p.users.value)
    ensures S.Indexed(PollNext(c, p).core) && BarFreeList(PollNext(c, p).users)
  {
    hide S.Step, S.KeyedTables, S.Indexed, NoBar, V.Update, V.Created, Deleted, Added;
    var users := GetOr(p.users, c.users);
    if p.fetched && p.node.Some? {
      ReloadKeepsIndex(c.core, c.tag, if c.named then c.tag else p.node.value.tag, c.minBytes, users, p);
    } else if p.fetched && p.users.Some? {
      DiffKeepsIndex(c.core, c.tag, c.users, users, p);
    }
  }

  lemma ReloadKeepsIndex(core: S.Tables, oldTag: string, tag: string, minBytes: int, users: seq<UserInfo>, p: Poll)
    requires S.KeyedTables(core) && S.Indexed(core) && BarFreeList(users)
    ensures var core1 := S.Step(core, S.DelNode(oldTag, p.delNodeOk));
            S.KeyedTables(core1) && S.Indexed(core1) &&
            var core2 := S.Step(core1, S.AddNode(tag, minBytes, p.addNodeOk));
            S.KeyedTables(core2) && S.Indexed(core2) && S.Indexed(S.Step(core2, S.AddUsers(tag, users, p.addUsersOk)))
  {
    hide S.Step, S.KeyedTables, S.Indexed, NoBar;
    StepIndexed(core, S.DelNode(oldTag, p.delNodeOk));
    var core1 := S.Step(core, S.DelNode(oldTag, p.delNodeOk));
    StepIndexed(core1, S.AddNode(tag, minBytes, p.addNodeOk));
    StepIndexed(S.Step(core1, S.AddNode(tag, minBytes, p.addNodeOk)), S.AddUsers(tag, users, p.addUsersOk));
  }

  lemma StepIndexed(core: S.Tables, op: S.Op)
    requires S.KeyedTables(core) && S.Indexed(core) && S.BarFree(op)
    ensures S.KeyedTables(S.Step(core, op)) && S.Indexed(S.Step(core, op))
  {
    S.StepKeyed(core, op);
    S.StepKeepsIndex(core, op);
  }

  lemma DiffKeepsIndex(core: S.Tables, tag: string, before: seq<UserInfo>, after: seq<UserInfo>, p: Poll)
    requires S.KeyedTables(core) && S.Indexed(core) && BarFreeList(before) && BarFreeList(after)
    ensures var added := Added(DiffKeys(before), after);
            var core1 := S.Step(core, S.DelUsers(tag, DeletedUuids(Deleted(before, after)), p.delUsersOk));
            && S.KeyedTables(core1) && S.Indexed(core1)
            && S.Indexed(S.Step(core, S.AddUsers(tag, added, p.addUsersOk)))
            && S.Indexed(S.Step(core1, S.AddUsers(tag, added, p.addUsersOk)))
  {
    hide S.Step, S.KeyedTables, S.Indexed, NoBar;
    DeletedAreOld(before, after);
    AddedAreNew(DiffKeys(before), after);
    var gone, added := DeletedUuids(Deleted(before, after)), Added(DiffKeys(before), after);
    StepIndexed(core, S.DelUsers(tag, gone, p.delUsersOk));
    StepIndexed(core, S.AddUsers(tag, added, p.addUsersOk));
    StepIndexed(S.Step(core, S.DelUsers(tag, gone, p.delUsersOk)), S.AddUsers(tag, added, p.addUsersOk));
  }

  // ---------------------------------------------------------------------------
  // Where the incremental path and a rebuild part
  // ---------------------------------------------------------------------------

  /** Limiter and core hold every field of every listed user, as a rebuild would. */
  ghost predicate Exact(c: Node) {
    && (forall u :: u in c.users ==>
        UserTag(c.tag, u.uuid) in c.limiter.info && c.limiter.info[UserTag(c.tag, u.uuid)] == V.LimitOf(u))
    && S.UsersOf(c.core, c.tag) == ByUuid(c.users)
  }

  /** Some user keeps uuid and speed but changes id or device limit. */
  ghost predicate HiddenChange(before: seq<UserInfo>, after: seq<UserInfo>) {
    exists u, v :: u in before && v in after && u.uuid == v.uuid && u.speedLimit == v.speedLimit && u != v
  }

  /** One listed user as limiter and core hold it after the diff: its own new entry when the diff
      added it, the old entry of the same uuid and speed otherwise. */
  ghost predicate HeldAfterDiff(info: map<string, V.UserLimit>, m: S.Users, tag: string, before: seq<UserInfo>,
                                v: UserInfo) {
    && UserTag(tag, v.uuid) in info && v.uuid in m
    && (Unmatched(v, before) ==> info[UserTag(tag, v.uuid)] == V.LimitOf(v) && m[v.uuid] == v)
    && (forall u :: u in before && u.uuid == v.uuid && u.speedLimit == v.speedLimit ==>
                      info[UserTag(tag, v.uuid)] == V.LimitOf(u) && m[v.uuid] == u)
  }

  function DiffedInfo(c: Node, users: seq<UserInfo>): map<string, V.UserLimit> {
    V.Update(c.limiter, c.tag, Added(DiffKeys(c.users), users), Deleted(c.users, users)).info
  }

  lemma DiffedUser(c: Node, users: seq<UserInfo>, universe: iset<string>, v: UserInfo)
    requires Synced(c, universe) && Exact(c) && NoKeyClash(universe)
    requires ListOver(users, universe) && v in users
    ensures HeldAfterDiff(DiffedInfo(c, users), DiffedUsers(ByUuid(c.users), c.users, users), c.tag, c.users, v)
  {
    hide S.Served, V.Update, R.Coherent, R.NoDynamic, DiffKey, NoKeyClash;
    var added := Added(DiffKeys(c.users), users);
    DiffExact(c.users, users, universe);
    DiffedLimits(c.limiter, c.tag, c.users, users, universe, v.uuid);
    SameUser(users, v);
    ByUuidExact(c.users);
    ByUuidExact(added);
    DiffedUsersKeys(ByUuid(c.users), c.users, users, universe);
    if Unmatched(v, c.users) {
      assert v in added;
    } else {
      assert v.uuid !in Uuids(added);
      assert v.uuid in ByUuid(c.users);
    }
  }

  lemma HeldExactlyIff(info: map<string, V.UserLimit>, m: S.Users, tag: string, before: seq<UserInfo>,
                       users: seq<UserInfo>)
    requires DistinctUuids(users) && m.Keys == Uuids(users)
    requires forall v :: v in users ==> HeldAfterDiff(info, m, tag, before, v)
    ensures (forall v :: v in users ==> UserTag(tag, v.uuid) in info && info[UserTag(tag, v.uuid)] == V.LimitOf(v))
            && m == ByUuid(users)
       <==> !HiddenChange(before, users)
  {
    ByUuidExact(users);
    hide ByUuid;
    if HiddenChange(before, users) {
      var u, v :| u in before && v in users && u.uuid == v.uuid && u.speedLimit == v.speedLimit && u != v;
      assert HeldAfterDiff(info, m, tag, before, v);
    } else {
      forall v | v in users
        ensures UserTag(tag, v.uuid) in info && info[UserTag(tag, v.uuid)] == V.LimitOf(v) && m[v.uuid] == v
      {
        assert HeldAfterDiff(info, m, tag, before, v);
      }
    }
  }

  /** Exactly when a diff poll reproduces the rebuild in every field: when it hides no change from the diff. */
  lemma DiffExactIff(c: Node, users: seq<UserInfo>, p: Poll, universe: iset<string>)
    requires Synced(c, universe) && Exact(c) && NoKeyClash(universe)
    requires ListOver(users, universe) && p.delUsersOk && p.addUsersOk
    ensures S.KeyedTables(c.core)
    ensures Exact(ApplyDiff(c, users, p)) <==> !HiddenChange(c.users, users)
  {
    ServedIsKeyed(c.core);
    hide S.Served, V.Update, R.Coherent, R.NoDynamic, NoKeyClash, ApplyDiff, DiffedCore, DiffedUsers, Deleted, Added;
    hide ByUuid;
    hide HeldAfterDiff, HiddenChange;
    DiffedNode(c, users, p);
    DiffedCoreFollows(c.core, c.tag, c.users, users, universe);
    DiffedUsersKeys(ByUuid(c.users), c.users, users, universe);
    forall v | v in users
      ensures HeldAfterDiff(DiffedInfo(c, users), DiffedUsers(ByUuid(c.users), c.users, users), c.tag, c.users, v)
      ensures UserTag(c.tag, v.uuid) in DiffedInfo(c, users)
    {
      DiffedUser(c, users, universe, v);
      HeldIn(DiffedInfo(c, users), DiffedUsers(ByUuid(c.users), c.users, users), c.tag, c.users, v);
    }
    HeldExactlyIff(DiffedInfo(c, users), DiffedUsers(ByUuid(c.users), c.users, users), c.tag, c.users, users);
  }

  lemma HeldIn(info: map<string, V.UserLimit>, m: S.Users, tag: string, before: seq<UserInfo>, v: UserInfo)
    requires HeldAfterDiff(info, m, tag, before, v)
    ensures UserTag(tag, v.uuid) in info
  {
  }

  lemma ReloadExact(c: Node, p: Poll, universe: iset<string>)
    requires S.Served(c.core) && Restores(c, p, universe)
    ensures S.KeyedTables(c.core) && Exact(Reload(c, p))
  {
    ServedIsKeyed(c.core);
    hide S.Served, V.Created, R.Coherent, R.NoDynamic, LimiterFollows, CoreFollows, Reload, ReloadedCore;
    var users, tag := GetOr(p.users, c.users), p.node.value.tag;
    ReloadedNode(c, p);
    ReloadedCoreFollows(c.core, c.tag, tag, c.minBytes, users);
    CreatedFollows(c.nodeSpeed, tag, users, GetOr(p.alive, map[]));
  }

  /** The poll applies a diff that hides a change. */
  ghost predicate HidesChange(held: seq<UserInfo>, p: Poll) {
    p.fetched && p.node.None? && p.users.Some? && p.users.value != [] && HiddenChange(held, p.users.value)
  }

  /** Exactly when a smooth poll leaves limiter and core with every field of the list it took. */
  lemma PollExactIff(c: Node, p: Poll, universe: iset<string>)
    requires Synced(c, universe) && Smooth(c, p, universe) && NoKeyClash(universe) && Exact(c)
    ensures S.KeyedTables(c.core)
    ensures Exact(PollNext(c, p)) <==> !HidesChange(c.users, p)
  {
    ServedIsKeyed(c.core);
    hide Reload, ApplyDiff, NoKeyClash, S.Served, R.Coherent, R.NoDynamic, LimiterFollows, HiddenChange, Deleted, Added;
    if p.fetched {
      if p.node.Some? {
        ReloadExact(c, p, universe);
      } else {
        var c1 := if p.alive.Some? then c.(limiter := c.limiter.(alive := p.alive.value)) else c;
        if p.alive.Some? { AliveIsFree(c.limiter, c.tag, c.users, p.alive.value); }
        assert Synced(c1, universe) && Exact(c1);
        if p.users.Some? && p.users.value != [] {
          DiffExactIff(c1, p.users.value, p, universe);
        }
      }
    }
  }

  /** Exactly when a diff poll, however its core calls end, leaves the core in step with the controller's list:
      unless the deletions went through and the additions then failed. */
  lemma CoreFollowsIff(c: Node, users: seq<UserInfo>, p: Poll, universe: iset<string>)
    requires Synced(c, universe) && NoKeyClash(universe) && ListOver(users, universe)
    ensures S.KeyedTables(c.core)
    ensures var c' := ApplyDiff(c, users, p);
            CoreFollows(c'.core, c'.tag, c'.users) <==>
            !(Deleted(c.users, users) != {} && p.delUsersOk && Added(DiffKeys(c.users), users) != [] && !p.addUsersOk)
  {
    ServedIsKeyed(c.core);
    hide S.Served, S.Step, V.Update, R.Coherent, R.NoDynamic, DiffKey, NoKeyClash;
    var deleted, added := Deleted(c.users, users), Added(DiffKeys(c.users), users);
    DiffExact(c.users, users, universe);
    if (deleted == {} || p.delUsersOk) && (added == [] || p.addUsersOk) {
      var q := p.(delUsersOk := true, addUsersOk := true);
      DiffSyncs(c, users, q, universe);
      assert ApplyDiff(c, users, p) == ApplyDiff(c, users, q);
    } else if deleted != {} && p.delUsersOk {
      RemovedUsers(c.core, c.tag, DeletedUuids(deleted));
      var u :| u in deleted;
      assert u.uuid in Uuids(c.users) && u.uuid in DeletedUuids(deleted);
    }
  }

  /** Exactly when reloading a named node leaves its limiter in step, however the reload's calls end:
      when no speed and no uuid changed. */
  lemma NamedReloadIff(c: Node, p: Poll, universe: iset<string>)
    requires S.KeyedTables(c.core) && LimiterSynced(c, universe) && c.named && p.fetched && p.node.Some?
    requires p.users.Some? ==> ListOver(p.users.value, universe)
    ensures var c' := PollNext(c, p);
            LimiterFollows(c'.limiter, c'.tag, c'.users) <==> Speeds(GetOr(p.users, c.users)) == Speeds(c.users)
  {
    hide S.KeyedTables, Reload, LimiterFollows, R.Coherent, R.NoDynamic, Speeds;
    KeptLimiter(c, p);
    FollowsIff(c.limiter, c.tag, c.users, GetOr(p.users, c.users));
    SameLimits(c.limiter, PollNext(c, p).limiter, c.tag, GetOr(p.users, c.users));
  }

  lemma SameLimits(t: V.Tables, t': V.Tables, tag: string, users: seq<UserInfo>)
    requires t' == t || exists alive :: t' == t.(alive := alive)
    ensures LimiterFollows(t', tag, users) <==> LimiterFollows(t, tag, users)
    ensures (R.NoDynamic(t') <==> R.NoDynamic(t)) && (R.Coherent(t') <==> R.Coherent(t)) && t'.nodeSpeed == t.nodeSpeed
  {
  }

  lemma FollowsBoth(t: V.Tables, tag: string, users: seq<UserInfo>, others: seq<UserInfo>)
    requires DistinctUuids(users) && DistinctUuids(others) && LimiterFollows(t, tag, users)
            && LimiterFollows(t, tag, others)
    ensures Speeds(others) == Speeds(users)
  {
    hide Speeds, LimiterFollows;
    forall x
      ensures x in Speeds(users) <==> x in Speeds(others)
      ensures x in Speeds(users) ==> Speeds(users)[x] == Speeds(others)[x]
    {
      FollowsAt(t, tag, users, x);
      FollowsAt(t, tag, others, x);
    }
  }

  lemma FollowsAt(t: V.Tables, tag: string, users: seq<UserInfo>, x: string)
    requires DistinctUuids(users) && LimiterFollows(t, tag, users)
    ensures x in Speeds(users) <==> UserTag(tag, x) in t.info
    ensures x in Speeds(users) ==> t.info[UserTag(tag, x)].speed == Speeds(users)[x]
  {
    SpeedsExact(users);
    hide Speeds;
    KeyIn(tag, users, x);
    if x in Uuids(users) {
      var u :| u in users && u.uuid == x;
    }
  }

  lemma FollowsIff(t: V.Tables, tag: string, users: seq<UserInfo>, others: seq<UserInfo>)
    requires DistinctUuids(users) && DistinctUuids(others) && LimiterFollows(t, tag, users)
    ensures LimiterFollows(t, tag, others) <==> Speeds(others) == Speeds(users)
  {
    if LimiterFollows(t, tag, others) {
      FollowsBoth(t, tag, users, others);
    } else if Speeds(others) == Speeds(users) {
      SpeedsExact(users);
      SpeedsExact(others);
      hide Speeds;
      forall u | u in others
        ensures UserTag(tag, u.uuid) in t.info && t.info[UserTag(tag, u.uuid)].speed == u.speedLimit
      {
        assert u.uuid in Uuids(others) && Uuids(others) == Uuids(users);
        var w :| w in users && w.uuid == u.uuid;
      }
      assert false;
    }
  }

  // ---------------------------------------------------------------------------
  // The device gate across a diff
  // ---------------------------------------------------------------------------

  /** Some user whom the list drops, or lists with another speed, has this id. */
  ghost predicate IdGoes(before: seq<UserInfo>, after: seq<UserInfo>, id: int) {
    exists w :: w in before && Unmatched(w, after) && w.id == id
  }

  /** Deleting a user takes the alive entry of its id along. */
  lemma AliveAfterDiff(t: V.Tables, tag: string, before: seq<UserInfo>, after: seq<UserInfo>, universe: iset<string>,
                       id: int)
    requires ListOver(before, universe) && ListOver(after, universe) && NoKeyClash(universe)
    ensures Lookup(V.Update(t, tag, Added(DiffKeys(before), after), Deleted(before, after)).alive, id, 0) ==
            if IdGoes(before, after, id) then 0 else Lookup(t.alive, id, 0)
  {
    DiffExact(before, after, universe);
    hide DiffKey, Unmatched, Deleted, Added;
    var gone := Deleted(before, after);
    assert IdGoes(before, after, id) <==> id in (set u | u in gone :: u.id);
  }

  /** Exactly which listed users are at their device limit after a diff that went through:
      those who were, or are now, unless the diff deletes a user of their id. */
  lemma GateAfterDiffIff(c: Node, users: seq<UserInfo>, p: Poll, universe: iset<string>, v: UserInfo)
    requires S.KeyedTables(c.core) && LimiterSynced(c, universe) && NoKeyClash(universe) && ListOver(users, universe)
    requires v in users && DiffGoesThrough(c, users, p)
    ensures var key := UserTag(c.tag, v.uuid);
            V.Saturated(ApplyDiff(c, users, p).limiter, key) <==>
            if Unmatched(v, c.users) then
              0 < v.deviceLimit <= Lookup(c.limiter.alive, v.id, 0) && !IdGoes(c.users, users, v.id)
            else V.Saturated(c.limiter, key) && !IdGoes(c.users, users, c.limiter.info[key].uid)
  {
    var key := UserTag(c.tag, v.uuid);
    DiffLimiter(c, users, p);
    DiffedLimits(c.limiter, c.tag, c.users, users, universe, v.uuid);
    hide S.KeyedTables, V.Update, R.Coherent, R.NoDynamic, NoKeyClash, ApplyDiff, Deleted, Added, DiffKeys;
    hide Unmatched, IdGoes, DiffGoesThrough;
    AliveAfterDiff(c.limiter, c.tag, c.users, users, universe, v.id);
    if !Unmatched(v, c.users) {
      AliveAfterDiff(c.limiter, c.tag, c.users, users, universe, c.limiter.info[key].uid);
    }
  }

  ghost predicate DistinctIds(users: seq<UserInfo>) {
    forall i, j :: 0 <= i < j < |users| ==> users[i].id != users[j].id
  }

  /** So a user at its device limit who keeps id and device limit stays there exactly when its speed does not change:
      a new speed opens its gate until the next alive list. */
  lemma GateStaysIff(c: Node, users: seq<UserInfo>, p: Poll, universe: iset<string>, u: UserInfo, v: UserInfo)
    requires S.KeyedTables(c.core) && LimiterSynced(c, universe) && NoKeyClash(universe) && ListOver(users, universe)
    requires DistinctIds(c.users) && DiffGoesThrough(c, users, p)
    requires u in c.users && v in users && u.uuid == v.uuid && u.id == v.id && u.deviceLimit == v.deviceLimit
    requires V.Saturated(c.limiter, UserTag(c.tag, u.uuid)) && c.limiter.info[UserTag(c.tag, u.uuid)] == V.LimitOf(u)
    ensures V.Saturated(ApplyDiff(c, users, p).limiter, UserTag(c.tag, v.uuid)) <==> u.speedLimit == v.speedLimit
  {
    GateAfterDiffIff(c, users, p, universe, v);
    hide S.KeyedTables, R.Coherent, R.NoDynamic, NoKeyClash, ApplyDiff, DiffGoesThrough, LimiterFollows;
    SameUser(c.users, u);
    SameUser(users, v);
    SameId(c.users, u);
    assert IdGoes(c.users, users, v.id) <==> Unmatched(u, users);
  }

  lemma SameId(users: seq<UserInfo>, u: UserInfo)
    requires DistinctIds(users) && u in users
    ensures forall w :: w in users && w.id == u.id ==> w == u
  {
  }

  // ---------------------------------------------------------------------------
  // The entries held
  // ---------------------------------------------------------------------------

  /** Limiter and core hold exactly these entries for the tag. */
  ghost predicate Holds(c: Node, held: S.Users) {
    && S.UsersOf(c.core, c.tag) == held
    && forall x :: x in held ==>
        UserTag(c.tag, x) in c.limiter.info && c.limiter.info[UserTag(c.tag, x)] == V.LimitOf(held[x])
  }

  /** The entries after a diff: a user's new entry when its uuid and speed were not listed before, else the one held. */
  ghost function HeldAfterList(held: S.Users, before: seq<UserInfo>, after: seq<UserInfo>): S.Users {
    map x | x in ByUuid(after) ::
      if Unmatched(ByUuid(after)[x], before) || x !in held then ByUuid(after)[x] else held[x]
  }

  /** The entries after a smooth poll: a reload takes every listed entry. */
  ghost function HeldNext(held: S.Users, users: seq<UserInfo>, p: Poll): S.Users {
    if !p.fetched then held
    else if p.node.Some? then ByUuid(GetOr(p.users, users))
    else if p.users.None? || p.users.value == [] then held
    else HeldAfterList(held, users, p.users.value)
  }

  lemma DiffedIsHeld(held: S.Users, before: seq<UserInfo>, after: seq<UserInfo>, universe: iset<string>)
    requires ListOver(before, universe) && ListOver(after, universe) && NoKeyClash(universe)
            && held.Keys == Uuids(before)
    ensures DiffedUsers(held, before, after) == HeldAfterList(held, before, after)
  {
    hide DiffKey, Added, Deleted, ByUuid, Unmatched, DiffedUsers, NoKeyClash;
    DiffedUsersKeys(held, before, after, universe);
    ByUuidKeys(after);
    forall x | x in ByUuid(after)
      ensures x in DiffedUsers(held, before, after)
              && DiffedUsers(held, before, after)[x] == HeldAfterList(held, before, after)[x]
    {
      HeldAt(held, before, after, universe, ByUuid(after)[x]);
    }
  }

  lemma HeldAt(held: S.Users, before: seq<UserInfo>, after: seq<UserInfo>, universe: iset<string>, v: UserInfo)
    requires ListOver(before, universe) && ListOver(after, universe) && NoKeyClash(universe)
            && held.Keys == Uuids(before)
    requires v in after
    ensures var m := DiffedUsers(held, before, after);
            v.uuid in m && m[v.uuid] == if Unmatched(v, before) || v.uuid !in held then v else held[v.uuid]
  {
    var added := Added(DiffKeys(before), after);
    DiffExact(before, after, universe);
    DiffedUsersKeys(held, before, after, universe);
    ByUuidExact(added);
    SameUser(after, v);
    hide DiffKey, Added, Deleted, ByUuid;
    if Unmatched(v, before) {
      assert v in added;
    } else {
      assert v.uuid !in Uuids(added);
    }
  }

  lemma DiffHolds(c: Node, users: seq<UserInfo>, p: Poll, universe: iset<string>, held: S.Users)
    requires Synced(c, universe) && NoKeyClash(universe) && Holds(c, held)
    requires ListOver(users, universe) && p.delUsersOk && p.addUsersOk
    ensures S.KeyedTables(c.core) && Holds(ApplyDiff(c, users, p), HeldAfterList(held, c.users, users))
  {
    ServedIsKeyed(c.core);
    hide S.Served, V.Update, R.Coherent, R.NoDynamic, NoKeyClash, ApplyDiff, DiffedCore, DiffedUsers, Deleted, Added;
    hide LimiterFollows, ByUuid, Unmatched;
    DiffedNode(c, users, p);
    DiffedCoreFollows(c.core, c.tag, c.users, users, universe);
    DiffedIsHeld(held, c.users, users, universe);
    ByUuidKeys(users);
    forall x | x in ByUuid(users)
      ensures UserTag(c.tag, x) in DiffedInfo(c, users)
      ensures DiffedInfo(c, users)[UserTag(c.tag, x)] == V.LimitOf(HeldAfterList(held, c.users, users)[x])
    {
      DiffedHeld(c, users, universe, held, x);
    }
  }

  lemma DiffedHeld(c: Node, users: seq<UserInfo>, universe: iset<string>, held: S.Users, x: string)
    requires LimiterSynced(c, universe) && NoKeyClash(universe) && Holds(c, held) && held.Keys == Uuids(c.users)
    requires ListOver(users, universe) && x in ByUuid(users)
    ensures UserTag(c.tag, x) in DiffedInfo(c, users)
    ensures DiffedInfo(c, users)[UserTag(c.tag, x)] == V.LimitOf(HeldAfterList(held, c.users, users)[x])
  {
    hide V.Update, R.Coherent, R.NoDynamic, NoKeyClash, Deleted, Added, ByUuid;
    ByUuidKeys(users);
    DiffedLimits(c.limiter, c.tag, c.users, users, universe, x);
  }

  lemma ReloadHolds(c: Node, p: Poll, universe: iset<string>)
    requires S.Served(c.core) && Restores(c, p, universe)
    ensures S.KeyedTables(c.core) && Holds(Reload(c, p), ByUuid(GetOr(p.users, c.users)))
  {
    ReloadExact(c, p, universe);
    ReloadSyncs(c, p, universe);
    hide S.Served, R.Coherent, R.NoDynamic, LimiterFollows, CoreFollows, Reload, ByUuid;
    ByUuidKeys(GetOr(p.users, c.users));
  }

  lemma PollHolds(c: Node, p: Poll, universe: iset<string>, held: S.Users)
    requires Synced(c, universe) && Smooth(c, p, universe) && NoKeyClash(universe) && Holds(c, held)
    ensures S.KeyedTables(c.core) && Holds(PollNext(c, p), HeldNext(held, c.users, p))
  {
    ServedIsKeyed(c.core);
    hide Reload, ApplyDiff, NoKeyClash, S.Served, R.Coherent, R.NoDynamic, LimiterFollows, HeldAfterList, ByUuid;
    if p.fetched {
      if p.node.Some? {
        ReloadHolds(c, p, universe);
      } else {
        var c1 := if p.alive.Some? then c.(limiter := c.limiter.(alive := p.alive.value)) else c;
        if p.alive.Some? { AliveIsFree(c.limiter, c.tag, c.users, p.alive.value); }
        assert Synced(c1, universe) && Holds(c1, held);
        if p.users.Some? && p.users.value != [] {
          DiffHolds(c1, p.users.value, p, universe, held);
        }
      }
    }
  }

  /** The entries held are the listed ones exactly when every field of every listed user is. */
  lemma HoldsExactIff(c: Node, held: S.Users, universe: iset<string>)
    requires Synced(c, universe) && Holds(c, held)
    ensures Exact(c) <==> held == ByUuid(c.users)
  {
    ByUuidExact(c.users);
    hide S.Served, R.Coherent, R.NoDynamic, ByUuid;
    if held == ByUuid(c.users) {
      forall u | u in c.users
        ensures c.limiter.info[UserTag(c.tag, u.uuid)] == V.LimitOf(u)
      {
        assert u.uuid in held && held[u.uuid] == u;
      }
    }
  }

  /** A reload of an unnamed node leaves exactly its own limiter registered when its tag did not change;
      otherwise the old tag stays registered with its old limiter. */
  lemma OnlyOwnTagRegisteredIff(c: Node, p: Poll)
    requires S.KeyedTables(c.core) && !c.named && c.registered == {c.tag} && p.fetched && p.node.Some? && p.delNodeOk
    ensures PollNext(c, p).registered == {PollNext(c, p).tag} <==> p.node.value.tag == c.tag
  {
    var c' := PollNext(c, p);
    assert c.tag in c'.registered && p.node.value.tag in c'.registered;
  }
}
