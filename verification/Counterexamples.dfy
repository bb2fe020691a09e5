/** Concrete nodes and polls on which the incremental path does less than one would expect. */
module Counterexamples {
  import opened Common
  import opened UserDiff
  import opened SortedUsers
  import opened Controller
  import opened NodeRuns
  import opened SyncRuns
  import V = Veil
  import R = LimiterRuns
  import S = SingCore

  ghost function Seed(named: bool, users: seq<UserInfo>): Node {
    Node(named, 0, 0, "t", users, V.Created(0, "t", [], map[]), {}, S.Tables(map[], map[], map[], map[], map[]))
  }

  /** The node tagged "t", just started with these users. */
  ghost function Started(named: bool, users: seq<UserInfo>): Node {
    Rebuilt(Seed(named, users))
  }

  const EVERYONE: iset<string> := iset{"a", "b"}

  lemma StartedIsFit(named: bool, users: seq<UserInfo>)
    requires ListOver(users, EVERYONE)
    ensures Synced(Started(named, users), EVERYONE) && Exact(Started(named, users)) && NoKeyClash(EVERYONE)
    ensures S.KeyedTables(Started(named, users).core)
  {
    EqualLengthsNeverClash(EVERYONE);
    hide Synced, Exact, Rebuilt, NoKeyClash, EqualLengths, S.KeyedTables;
    StartedIsSynced(Seed(named, users), EVERYONE);
    RebuiltIsExact(Seed(named, users));
    SyncedIsKeyed(Started(named, users), EVERYONE);
  }

  /** A poll that sends this list for an unchanged node, all calls succeeding. */
  function Listing(users: seq<UserInfo>): Poll {
    Poll(true, None, Some(users), None, true, true, true, true, true)
  }

  /** The panel lists nobody, and the one user stays known and served. */
  lemma EmptyListKeepsEveryone()
    ensures var c := Started(false, [UserInfo(1, "a", 5, 0)]);
            && S.KeyedTables(c.core) && PollNext(c, Listing([])) == c
            && ViewOf(c).speeds == map["t|a" := 5] && ViewOf(c).served == ["a"]
  {
    hide Started, Synced, Exact, ViewOf, S.KeyedTables;
    var u := UserInfo(1, "a", 5, 0);
    var c := Started(false, [u]);
    StartedIsFit(false, [u]);
    StartedUsers(false, [u]);
    ServedAlone(c, u);
    assert UserTag("t", "a") == "t|a";
    EmptyListIsIgnored(c);
  }

  lemma EmptyListIsIgnored(c: Node)
    requires S.KeyedTables(c.core)
    ensures PollNext(c, Listing([])) == c
  {
    hide S.KeyedTables;
  }

  lemma ServedAlone(c: Node, u: UserInfo)
    requires Synced(c, EVERYONE) && Exact(c) && c.users == [u]
    ensures ViewOf(c).speeds == map[UserTag(c.tag, u.uuid) := u.speedLimit] && ViewOf(c).served == [u.uuid]
  {
    ByUuidOne(u);
    CanonicalIsUnique([u], CanonicalList(S.KeyedUsers(c.core, c.tag)), S.KeyedUsers(c.core, c.tag));
    assert u in c.users && Uuids(c.users) == {u.uuid};
    assert c.limiter.info.Keys == {UserTag(c.tag, u.uuid)};
  }

  lemma ByUuidOne(u: UserInfo)
    ensures ByUuid([u]) == map[u.uuid := u] && Canonical([u], map[u.uuid := u])
  {
    assert [u][..0] == [];
  }

  /** A raised device limit alone reaches neither limiter nor core. */
  lemma DeviceLimitIsHidden()
    ensures var c := Started(false, [UserInfo(1, "a", 0, 1)]);
            S.KeyedTables(c.core) && !Exact(PollNext(c, Listing([UserInfo(1, "a", 0, 2)])))
  {
    hide Started, Synced, Exact, Smooth, NoKeyClash, S.KeyedTables, PollNext, HiddenChange;
    var u, v := UserInfo(1, "a", 0, 1), UserInfo(1, "a", 0, 2);
    var c := Started(false, [u]);
    StartedIsFit(false, [u]);
    StartedUsers(false, [u]);
    ListingIsSmooth(c, [v]);
    OneHidden(u, v);
    PollExactIff(c, Listing([v]), EVERYONE);
  }

  lemma OneHidden(u: UserInfo, v: UserInfo)
    requires u.uuid == v.uuid && u.speedLimit == v.speedLimit && u != v
    ensures HiddenChange([u], [v])
  {
    assert u in [u] && v in [v];
  }

  lemma ListingIsSmooth(c: Node, users: seq<UserInfo>)
    requires ListOver(users, EVERYONE)
    ensures Smooth(c, Listing(users), EVERYONE)
  {
  }

  lemma StartedUsers(named: bool, users: seq<UserInfo>)
    ensures var c := Started(named, users);
            c.users == users && c.tag == "t" && c.named == named && c.registered == {"t"}
  {
  }

  /** User "a" is replaced by "b", the deletion succeeds and the addition fails: the core serves nobody the list
      names. */
  lemma FailedAdditionPartsCore()
    ensures var c := Started(false, [UserInfo(1, "a", 0, 0)]);
            S.KeyedTables(c.core) &&
            var c' := PollNext(c, Listing([UserInfo(2, "b", 0, 0)]).(addUsersOk := false));
            !CoreFollows(c'.core, c'.tag, c'.users)
  {
    hide Started, Synced, Exact, NoKeyClash, S.KeyedTables, ApplyDiff, CoreFollows, Deleted, Added;
    var u, v := UserInfo(1, "a", 0, 0), UserInfo(2, "b", 0, 0);
    var c, p := Started(false, [u]), Listing([v]).(addUsersOk := false);
    StartedIsFit(false, [u]);
    StartedUsers(false, [u]);
    DiffExact([u], [v], EVERYONE);
    assert u in [u] && v in [v] && Unmatched(u, [v]) && Unmatched(v, [u]);
    hide Unmatched;
    CoreFollowsIff(c, [v], p, EVERYONE);
    DiffPoll(c, [v], p);
  }

  lemma DiffPoll(c: Node, users: seq<UserInfo>, p: Poll)
    requires S.KeyedTables(c.core) && users != [] && p == Listing(users).(addUsersOk := p.addUsersOk)
    ensures PollNext(c, p) == ApplyDiff(c, users, p)
  {
    hide S.KeyedTables, ApplyDiff;
  }

  /** A named node is reloaded with a new speed for its user: the limiter keeps the old one. */
  lemma NamedReloadKeepsSpeed()
    ensures var c := Started(true, [UserInfo(1, "a", 0, 0)]);
            S.KeyedTables(c.core) &&
            var c' := PollNext(c, Listing([UserInfo(1, "a", 7, 0)]).(node := Some(NodeInfo("t", false))));
            !LimiterFollows(c'.limiter, c'.tag, c'.users)
  {
    hide Started, Synced, LimiterSynced, LimiterFollows, S.KeyedTables;
    var u, v := UserInfo(1, "a", 0, 0), UserInfo(1, "a", 7, 0);
    var c, p := Started(true, [u]), Listing([v]).(node := Some(NodeInfo("t", false)));
    StartedIsFit(true, [u]);
    StartedUsers(true, [u]);
    assert u in [u] && v in [v];
    SpeedsExact([u]);
    SpeedsExact([v]);
    assert Speeds([u])["a"] == 0 && Speeds([v])["a"] == 7;
    assert PollNext(c, p).users == [v];
    LimiterPart(c, EVERYONE);
    NamedReloadIff(c, p, EVERYONE);
  }

  /** A reload under a new tag leaves the old tag's limiter registered. */
  lemma OldTagStaysRegistered()
    ensures var c := Started(false, [UserInfo(1, "a", 0, 0)]);
            S.KeyedTables(c.core) &&
            PollNext(c, Listing([UserInfo(1, "a", 0, 0)]).(node := Some(NodeInfo("n", false)))).registered == {"t", "n"}
  {
    var u := UserInfo(1, "a", 0, 0);
    StartedIsFit(false, [u]);
    StartedUsers(false, [u]);
  }

  /** A user at its device limit whose speed changes: while nothing changes a fresh address is rejected,
      after the poll that brings the new speed, with an alive list that still counts its device, it is admitted. */
  lemma NewSpeedOpensGate()
    ensures var c := Started(false, [UserInfo(1, "a", 5, 1)]);
            var alive := Some(map[1 := 1]);
            S.KeyedTables(c.core) &&
            var same := PollNext(c, Listing([UserInfo(1, "a", 5, 1)]).(alive := alive));
            var changed := PollNext(c, Listing([UserInfo(1, "a", 6, 1)]).(alive := alive));
            && V.Check(same.limiter, "t|a", "9.9.9.9", true, 0).1.Reject?
            && V.Check(changed.limiter, "t|a", "9.9.9.9", true, 0).1.Admit?
  {
    hide Started, Synced, Exact, NoKeyClash, S.KeyedTables, PollNext, Crowded, V.Check;
    var u, v := UserInfo(1, "a", 5, 1), UserInfo(1, "a", 6, 1);
    var c := Started(false, [u]);
    assert UserTag("t", "a") == "t|a";
    StartedIsFit(false, [u]);
    StartedUsers(false, [u]);
    NobodyOnline(u);
    CrowdedIsFit(c, u);
    GateFromPoll(c, u, u);
    GateFromPoll(c, u, v);
  }

  lemma NobodyOnline(u: UserInfo)
    ensures var t := Started(false, [u]).limiter; t.online == map[] && t.past == map[]
  {
  }

  /** The node once the alive list counts one device of user 1. */
  function Crowded(c: Node): Node {
    c.(limiter := c.limiter.(alive := map[1 := 1]))
  }

  lemma CrowdedIsFit(c: Node, u: UserInfo)
    requires Synced(c, EVERYONE) && Exact(c) && c.users == [u] && u.id == u.deviceLimit == 1
    ensures LimiterSynced(Crowded(c), EVERYONE) && Crowded(c).users == [u] && c.tag in c.core.inbounds
    ensures V.Saturated(Crowded(c).limiter, UserTag(c.tag, u.uuid))
    ensures Crowded(c).limiter.info[UserTag(c.tag, u.uuid)] == V.LimitOf(u)
  {
    AliveIsFree(c.limiter, c.tag, c.users, map[1 := 1]);
    assert u in c.users;
  }

  lemma GateFromPoll(c: Node, u: UserInfo, v: UserInfo)
    requires S.KeyedTables(c.core) && NoKeyClash(EVERYONE) && LimiterSynced(Crowded(c), EVERYONE) && c.users == [u]
    requires c.limiter.online == map[] && c.limiter.past == map[] && c.tag in c.core.inbounds
    requires V.Saturated(Crowded(c).limiter, UserTag(c.tag, u.uuid))
    requires Crowded(c).limiter.info[UserTag(c.tag, u.uuid)] == V.LimitOf(u)
    requires u.uuid == v.uuid && u.id == v.id && u.deviceLimit == v.deviceLimit && ListOver([v], EVERYONE)
    ensures var t := PollNext(c, Listing([v]).(alive := Some(map[1 := 1]))).limiter;
            V.Check(t, UserTag(c.tag, u.uuid), "9.9.9.9", true, 0).1.Reject? <==> u.speedLimit == v.speedLimit
  {
    var p, key := Listing([v]).(alive := Some(map[1 := 1])), UserTag(c.tag, u.uuid);
    var c' := ApplyDiff(Crowded(c), [v], p);
    CrowdedPoll(c, [v], p);
    DiffLimiter(Crowded(c), [v], p);
    assert u in [u] && v in [v];
    hide S.KeyedTables, LimiterFollows, NoKeyClash, PollNext, ApplyDiff, Deleted, Added, R.Coherent, R.NoDynamic;
    GateStaysIff(Crowded(c), [v], p, EVERYONE, u, v);
    DiffKeepsLimiter(Crowded(c), [v], p, EVERYONE);
    KnownAfter(c', v);
    hide V.Check;
    R.RejectedIff(c'.limiter, key, "9.9.9.9", true, 0);
  }

  lemma KnownAfter(c: Node, v: UserInfo)
    requires LimiterFollows(c.limiter, c.tag, c.users) && v in c.users
    ensures UserTag(c.tag, v.uuid) in c.limiter.info
  {
  }

  lemma CrowdedPoll(c: Node, users: seq<UserInfo>, p: Poll)
    requires S.KeyedTables(c.core) && users != [] && p == Listing(users).(alive := Some(map[1 := 1]))
    ensures PollNext(c, p) == ApplyDiff(Crowded(c), users, p)
  {
    hide S.KeyedTables, ApplyDiff;
  }
}
