/** The main results on synchronisation: whole runs of one node. */
module SyncRuns {
  import opened Common
  import opened UserDiff
  import opened SortedUsers
  import opened Controller
  import opened NodeRuns
  import V = Veil
  import R = LimiterRuns
  import S = SingCore

  datatype Event =
    | Polled(p: Poll)
    | Connect(key: string, ip: string, tcp: bool, now: int)
    | Reported(order: seq<(string, string)>)

  ghost function Step(c: Node, e: Event): Node
    requires S.KeyedTables(c.core)
  {
    match e
    case Polled(p) => PollNext(c, p)
    case Connect(key, ip, tcp, now) => c.(limiter := V.Check(c.limiter, key, ip, tcp, now).0)
    case Reported(order) => c.(limiter := V.Rotate(c.limiter, order))
  }

  lemma PollKeyed(c: Node, p: Poll)
    requires S.KeyedTables(c.core)
    ensures S.KeyedTables(PollNext(c, p).core)
  {
    hide S.Step, S.KeyedTables, V.Update, V.Created, Deleted, Added;
    var tag := if p.node.Some? && !c.named then p.node.value.tag else c.tag;
    var users := GetOr(p.users, c.users);
    S.StepKeyed(c.core, S.DelNode(c.tag, p.delNodeOk));
    var core1 := S.Step(c.core, S.DelNode(c.tag, p.delNodeOk));
    S.StepKeyed(core1, S.AddNode(tag, c.minBytes, p.addNodeOk));
    S.StepKeyed(S.Step(core1, S.AddNode(tag, c.minBytes, p.addNodeOk)), S.AddUsers(tag, users, p.addUsersOk));
    var gone, added := DeletedUuids(Deleted(c.users, users)), Added(DiffKeys(c.users), users);
    S.StepKeyed(c.core, S.DelUsers(c.tag, gone, p.delUsersOk));
    S.StepKeyed(c.core, S.AddUsers(c.tag, added, p.addUsersOk));
    S.StepKeyed(S.Step(c.core, S.DelUsers(c.tag, gone, p.delUsersOk)), S.AddUsers(c.tag, added, p.addUsersOk));
  }

  ghost function After(c: Node, es: seq<Event>): (c': Node)
    requires S.KeyedTables(c.core)
    ensures S.KeyedTables(c'.core)
  {
    if es == [] then c
    else
      var before := After(c, es[..|es| - 1]);
      if es[|es| - 1].Polled? then
        PollKeyed(before, es[|es| - 1].p);
        Step(before, es[|es| - 1])
      else Step(before, es[|es| - 1])
  }

  /** The list the polls of a smooth run leave in the controller. */
  function ListTakenAfter(users: seq<UserInfo>, es: seq<Event>): seq<UserInfo> {
    if es == [] then users
    else
      var before := ListTakenAfter(users, es[..|es| - 1]);
      if es[|es| - 1].Polled? then ListTaken(before, es[|es| - 1].p) else before
  }

  ghost predicate AllSmooth(c: Node, es: seq<Event>, universe: iset<string>)
    requires S.KeyedTables(c.core)
  {
    forall i :: 0 <= i < |es| && es[i].Polled? ==> Smooth(After(c, es[..i]), es[i].p, universe)
  }

  /** A connection or a report keeps limits and buckets in step. */
  lemma OtherEventsSync(c: Node, e: Event, universe: iset<string>)
    requires Synced(c, universe) && !e.Polled?
    ensures S.KeyedTables(c.core) && Synced(Step(c, e), universe) && Step(c, e).users == c.users
  {
    ServedIsKeyed(c.core);
    hide S.Served, V.Check, V.PastOf, R.Coherent, R.NoDynamic;
    match e
    case Connect(key, ip, tcp, now) => R.StepKeepsCoherence(c.limiter, R.Connect(key, ip, tcp, now));
    case Reported(order) => R.StepKeepsCoherence(c.limiter, R.Report(order));
  }

  /** In every smooth run the node stays in step with the last list it took. */
  lemma {:induction false} SyncedThroughout(c: Node, es: seq<Event>, universe: iset<string>)
    requires Synced(c, universe) && NoKeyClash(universe)
    requires S.KeyedTables(c.core) && AllSmooth(c, es, universe)
    ensures Synced(After(c, es), universe)
    ensures After(c, es).users == ListTakenAfter(c.users, es)
  {
    if es != [] {
      var n := |es| - 1;
      PrefixSmooth(c, es, universe);
      hide AllSmooth, Synced, Smooth, NoKeyClash, S.KeyedTables, Step, ListTaken;
      SyncedThroughout(c, es[..n], universe);
      StepSyncs(After(c, es[..n]), es[n], universe);
    }
  }

  lemma PrefixSmooth(c: Node, es: seq<Event>, universe: iset<string>)
    requires S.KeyedTables(c.core) && es != [] && AllSmooth(c, es, universe)
    ensures var n := |es| - 1;
            AllSmooth(c, es[..n], universe) && (es[n].Polled? ==> Smooth(After(c, es[..n]), es[n].p, universe))
  {
    hide After, Smooth, S.KeyedTables;
    var n := |es| - 1;
    forall i | 0 <= i < n && es[..n][i].Polled?
      ensures Smooth(After(c, es[..n][..i]), es[..n][i].p, universe)
    {
      assert es[..n][..i] == es[..i] && es[i].Polled?;
    }
  }

  lemma StepSyncs(c: Node, e: Event, universe: iset<string>)
    requires Synced(c, universe) && NoKeyClash(universe)
    requires e.Polled? ==> Smooth(c, e.p, universe)
    ensures S.KeyedTables(c.core) && Synced(Step(c, e), universe)
    ensures Step(c, e).users == if e.Polled? then ListTaken(c.users, e.p) else c.users
  {
    SyncedIsKeyed(c, universe);
    hide Synced, Smooth, NoKeyClash, PollNext, S.KeyedTables, Step, ListTaken;
    if e.Polled? {
      PollSyncs(c, e.p, universe);
      StepIsPoll(c, e);
    } else {
      OtherEventsSync(c, e, universe);
    }
  }

  lemma SyncedIsKeyed(c: Node, universe: iset<string>)
    requires Synced(c, universe)
    ensures S.KeyedTables(c.core)
  {
    ServedIsKeyed(c.core);
  }

  lemma StepIsPoll(c: Node, e: Event)
    requires S.KeyedTables(c.core) && e.Polled?
    ensures Step(c, e) == PollNext(c, e.p)
  {
  }

  // ---------------------------------------------------------------------------
  // Refinement of the rebuild
  // ---------------------------------------------------------------------------

  /** A node started afresh with this list: everything is built from it. */
  ghost function Rebuilt(c: Node): Node
  {
    var empty := S.Tables(map[], map[], map[c.tag := []], map[], map[c.tag := c.minBytes]);
    c.(limiter := V.Created(c.nodeSpeed, c.tag, c.users, c.limiter.alive), registered := {c.tag},
       core := S.Step(empty, S.AddUsers(c.tag, c.users, true)))
  }

  /** What users experience: who is known to the limiter at which speed, and whom the inbound serves, in order. */
  datatype View = View(speeds: map<string, int>, served: seq<string>)

  function UuidList(list: seq<UserInfo>): seq<string> {
    seq(|list|, i requires 0 <= i < |list| => list[i].uuid)
  }

  ghost function ViewOf(c: Node): View
  {
    View(map k | k in c.limiter.info :: c.limiter.info[k].speed,
         UuidList(Lookup(c.core.inbounds, c.tag, [])))
  }

  lemma StartedIsSynced(c: Node, universe: iset<string>)
    requires ListOver(c.users, universe)
    ensures Synced(Rebuilt(c), universe)
  {
    var empty := S.Tables(map[], map[], map[c.tag := []], map[], map[c.tag := c.minBytes]);
    hide R.Coherent, R.NoDynamic, V.Created, LimiterFollows, CoreFollows;
    S.ListEmptyIff(map[]);
    AddedToNobody(empty, c.tag, c.users);
    CreatedFollows(c.nodeSpeed, c.tag, c.users, c.limiter.alive);
    NodeSpeedIsFixed(c.limiter, c.tag, [], {}, c.nodeSpeed, c.users, c.limiter.alive);
  }

  lemma StartedIsIndexed(c: Node)
    requires BarFreeList(c.users)
    ensures S.Indexed(Rebuilt(c).core)
  {
    var empty := S.Tables(map[], map[], map[c.tag := []], map[], map[c.tag := c.minBytes]);
    S.StepKeepsIndex(empty, S.AddUsers(c.tag, c.users, true));
  }

  /** Sorted lists of tables with the same uuids name them in the same order. */
  lemma {:induction false} SameUuidsSameList(a: seq<UserInfo>, b: seq<UserInfo>, m: S.Users, n: S.Users)
    requires WellKeyed(m) && WellKeyed(n) && m.Keys == n.Keys && Canonical(a, m) && Canonical(b, n)
    ensures UuidList(a) == UuidList(b)
    decreases |a|
  {
    hide Canonical;
    EmptyIffEmpty(a, m);
    EmptyIffEmpty(b, n);
    if a != [] {
      hide UuidList;
      HeadsAgree(a, b, m, n);
      DropHead(a, m);
      DropHead(b, n);
      UuidsFrom(a);
      UuidsFrom(b);
      SameUuidsSameList(a[1..], b[1..], m - {a[0].uuid}, n - {b[0].uuid});
    }
  }

  lemma UuidsFrom(list: seq<UserInfo>)
    requires list != []
    ensures UuidList(list) == [list[0].uuid] + UuidList(list[1..])
  {
  }

  lemma HeadsAgree(a: seq<UserInfo>, b: seq<UserInfo>, m: S.Users, n: S.Users)
    requires WellKeyed(m) && WellKeyed(n) && m.Keys == n.Keys && Canonical(a, m) && Canonical(b, n) && a != []
            && b != []
    ensures a[0].uuid == b[0].uuid
  {
    assert a[0] in a && b[0] in b;
    assert n[a[0].uuid] in b && m[b[0].uuid] in a;
    var i :| 0 <= i < |b| && b[i] == n[a[0].uuid];
    var j :| 0 <= j < |a| && a[j] == m[b[0].uuid];
    LessIsTotal(a[0].uuid, b[0].uuid);
  }

  /** Two nodes in step with one list under one tag show users the same view. */
  lemma SyncedDeterminesView(c: Node, d: Node, universe: iset<string>)
    requires Synced(c, universe) && Synced(d, universe) && c.tag == d.tag && c.users == d.users
    ensures ViewOf(c) == ViewOf(d)
  {
    SameSpeeds(c.limiter, d.limiter, c.tag, c.users);
    ServedIsKeyed(c.core);
    ServedIsKeyed(d.core);
    SameUuidsSameList(c.core.inbounds[c.tag], d.core.inbounds[d.tag], S.KeyedUsers(c.core, c.tag),
        S.KeyedUsers(d.core, d.tag));
  }

  lemma SameSpeeds(t: V.Tables, t': V.Tables, tag: string, users: seq<UserInfo>)
    requires LimiterFollows(t, tag, users) && LimiterFollows(t', tag, users)
    ensures (map k | k in t.info :: t.info[k].speed) == (map k | k in t'.info :: t'.info[k].speed)
  {
    forall k | k in t.info
      ensures k in t'.info && t.info[k].speed == t'.info[k].speed
    {
      assert k in TagKeys(tag, users);
      var x :| x in Uuids(users) && k == UserTag(tag, x);
      var u :| u in users && u.uuid == x;
    }
  }

  /** The incremental path refines the rebuild: after any smooth run of polls, connections and reports,
      users see what a node started afresh with the list last taken would show them. */
  lemma RunRefinesRebuild(c: Node, es: seq<Event>, universe: iset<string>)
    requires Synced(c, universe) && NoKeyClash(universe)
    requires S.KeyedTables(c.core) && AllSmooth(c, es, universe)
    ensures ViewOf(After(c, es)) == ViewOf(Rebuilt(After(c, es)))
    ensures Rebuilt(After(c, es)).users == ListTakenAfter(c.users, es)
  {
    SyncedThroughout(c, es, universe);
    hide Synced;
    SyncedLists(After(c, es), universe);
    StartedIsSynced(After(c, es), universe);
    SyncedDeterminesView(After(c, es), Rebuilt(After(c, es)), universe);
  }

  lemma SyncedLists(c: Node, universe: iset<string>)
    requires Synced(c, universe)
    ensures ListOver(c.users, universe)
  {
  }

  // ---------------------------------------------------------------------------
  // The list the panel sent
  // ---------------------------------------------------------------------------

  predicate Sends(e: Event) {
    e.Polled? && e.p.fetched && e.p.users.Some?
  }

  /** The list the panel sent last, or the first one when it sent none since. */
  function LastSent(users: seq<UserInfo>, es: seq<Event>): seq<UserInfo> {
    if es == [] then users
    else if Sends(es[|es| - 1]) then es[|es| - 1].p.users.value
    else LastSent(users, es[..|es| - 1])
  }

  /** The last poll of the run that sent a list did not send an empty one for an unchanged node that had users. */
  predicate LastListReaches(users: seq<UserInfo>, es: seq<Event>) {
    if es == [] then true
    else if Sends(es[|es| - 1]) then ListReaches(ListTakenAfter(users, es[..|es| - 1]), es[|es| - 1].p)
    else LastListReaches(users, es[..|es| - 1])
  }

  lemma {:induction false} TakenIsSentIff(users: seq<UserInfo>, es: seq<Event>)
    ensures ListTakenAfter(users, es) == LastSent(users, es) <==> LastListReaches(users, es)
    ensures !LastListReaches(users, es) ==> LastSent(users, es) == [] && ListTakenAfter(users, es) != []
  {
    if es != [] { TakenIsSentIff(users, es[..|es| - 1]); }
  }

  /** Exactly when, after a smooth run, users see what a node started afresh with the list the panel sent last
      would show: unless that list was empty and came to an unchanged node with users. */
  lemma RunFollowsPanelIff(c: Node, es: seq<Event>, universe: iset<string>)
    requires Synced(c, universe) && NoKeyClash(universe)
    requires S.KeyedTables(c.core) && AllSmooth(c, es, universe)
    ensures ViewOf(After(c, es)) == ViewOf(Rebuilt(After(c, es).(users := LastSent(c.users, es)))) <==>
            LastListReaches(c.users, es)
  {
    SyncedThroughout(c, es, universe);
    TakenIsSentIff(c.users, es);
    var c' := After(c, es);
    if LastListReaches(c.users, es) {
      RunRefinesRebuild(c, es, universe);
      assert c'.(users := LastSent(c.users, es)) == c';
    } else {
      hide After, LastSent, LastListReaches, ListTakenAfter, AllSmooth, NoKeyClash;
      SomebodyKnown(c', universe);
      NobodyKnown(c'.(users := []));
    }
  }

  lemma SomebodyKnown(c: Node, universe: iset<string>)
    requires Synced(c, universe) && c.users != []
    ensures ViewOf(c).speeds != map[]
  {
    var u := c.users[0];
    assert u in c.users;
    assert UserTag(c.tag, u.uuid) in ViewOf(c).speeds;
  }

  lemma NobodyKnown(c: Node)
    requires c.users == []
    ensures ViewOf(Rebuilt(c)).speeds == map[]
  {
  }

  // ---------------------------------------------------------------------------
  // Every field
  // ---------------------------------------------------------------------------

  ghost predicate NothingHidden(users: seq<UserInfo>, es: seq<Event>) {
    forall i :: 0 <= i < |es| && es[i].Polled? ==> !HidesChange(ListTakenAfter(users, es[..i]), es[i].p)
  }

  lemma PrefixHidesNothing(users: seq<UserInfo>, es: seq<Event>)
    requires es != [] && NothingHidden(users, es)
    ensures var n := |es| - 1;
            NothingHidden(users, es[..n]) && (es[n].Polled? ==> !HidesChange(ListTakenAfter(users, es[..n]), es[n].p))
  {
    hide HidesChange, ListTakenAfter;
    var n := |es| - 1;
    forall i | 0 <= i < n && es[..n][i].Polled?
      ensures !HidesChange(ListTakenAfter(users, es[..n][..i]), es[..n][i].p)
    {
      assert es[..n][..i] == es[..i] && es[i].Polled?;
    }
  }

  /** In a smooth run whose diffs hide no change, limiter and core hold every field of every listed user. */
  lemma {:induction false} ExactThroughout(c: Node, es: seq<Event>, universe: iset<string>)
    requires Synced(c, universe) && NoKeyClash(universe) && Exact(c)
    requires S.KeyedTables(c.core) && AllSmooth(c, es, universe) && NothingHidden(c.users, es)
    ensures Exact(After(c, es))
  {
    if es != [] {
      var n := |es| - 1;
      PrefixSmooth(c, es, universe);
      PrefixHidesNothing(c.users, es);
      hide AllSmooth, NothingHidden, Synced, Smooth, NoKeyClash, S.KeyedTables, Step, ListTaken, Exact, HidesChange;
      ExactThroughout(c, es[..n], universe);
      SyncedThroughout(c, es[..n], universe);
      StepExact(After(c, es[..n]), es[n], universe);
    }
  }

  lemma StepExact(c: Node, e: Event, universe: iset<string>)
    requires Synced(c, universe) && NoKeyClash(universe) && Exact(c)
    requires e.Polled? ==> Smooth(c, e.p, universe) && !HidesChange(c.users, e.p)
    ensures S.KeyedTables(c.core) && Exact(Step(c, e))
  {
    SyncedIsKeyed(c, universe);
    if e.Polled? {
      hide Synced, Smooth, NoKeyClash, PollNext, S.KeyedTables, Step, Exact, HidesChange;
      PollExactIff(c, e.p, universe);
      StepIsPoll(c, e);
    } else {
      hide S.Served, V.Check, V.PastOf, R.Coherent, R.NoDynamic, LimiterFollows;
      match e
      case Connect(key, ip, tcp, now) => R.StepKeepsCoherence(c.limiter, R.Connect(key, ip, tcp, now));
      case Reported(order) => R.StepKeepsCoherence(c.limiter, R.Report(order));
    }
  }

  /** The entries held after a run, from its polls alone. */
  ghost function HeldAfter(held: S.Users, users: seq<UserInfo>, es: seq<Event>): S.Users {
    if es == [] then held
    else
      var n := |es| - 1;
      var before := HeldAfter(held, users, es[..n]);
      if es[n].Polled? then HeldNext(before, ListTakenAfter(users, es[..n]), es[n].p) else before
  }

  lemma {:induction false} HeldThroughout(c: Node, es: seq<Event>, universe: iset<string>, held: S.Users)
    requires Synced(c, universe) && NoKeyClash(universe) && Holds(c, held)
    requires S.KeyedTables(c.core) && AllSmooth(c, es, universe)
    ensures Holds(After(c, es), HeldAfter(held, c.users, es))
  {
    if es != [] {
      var n := |es| - 1;
      PrefixSmooth(c, es, universe);
      hide AllSmooth, Synced, Smooth, NoKeyClash, S.KeyedTables, Step, ListTaken, Holds, HeldNext;
      HeldThroughout(c, es[..n], universe, held);
      SyncedThroughout(c, es[..n], universe);
      StepHolds(After(c, es[..n]), es[n], universe, HeldAfter(held, c.users, es[..n]));
    }
  }

  lemma StepHolds(c: Node, e: Event, universe: iset<string>, held: S.Users)
    requires Synced(c, universe) && NoKeyClash(universe) && Holds(c, held)
    requires e.Polled? ==> Smooth(c, e.p, universe)
    ensures S.KeyedTables(c.core) && Holds(Step(c, e), if e.Polled? then HeldNext(held, c.users, e.p) else held)
  {
    SyncedIsKeyed(c, universe);
    if e.Polled? {
      hide Synced, Smooth, NoKeyClash, PollNext, S.KeyedTables, Step, Holds, HeldNext;
      PollHolds(c, e.p, universe, held);
      StepIsPoll(c, e);
    } else {
      hide S.Served, V.Check, V.PastOf, R.Coherent, R.NoDynamic, LimiterFollows;
      match e
      case Connect(key, ip, tcp, now) => R.StepKeepsCoherence(c.limiter, R.Connect(key, ip, tcp, now));
      case Reported(order) => R.StepKeepsCoherence(c.limiter, R.Report(order));
    }
  }

  /** Exactly when, after a smooth run, limiter and core hold every field of every listed user: when the entry last
      taken for each user is the one listed. A diff takes a user's entry when uuid and speed were not listed before,
      a reload takes every entry. */
  lemma RunExactIff(c: Node, es: seq<Event>, universe: iset<string>)
    requires Synced(c, universe) && NoKeyClash(universe) && Exact(c)
    requires S.KeyedTables(c.core) && AllSmooth(c, es, universe)
    ensures Exact(After(c, es)) <==> HeldAfter(ByUuid(c.users), c.users, es) == ByUuid(ListTakenAfter(c.users, es))
  {
    SyncedThroughout(c, es, universe);
    hide Synced, Exact, Holds, S.KeyedTables, After, HeldAfter, AllSmooth, NoKeyClash, ByUuid;
    ExactHolds(c, universe);
    HeldThroughout(c, es, universe, ByUuid(c.users));
    HoldsExactIff(After(c, es), HeldAfter(ByUuid(c.users), c.users, es), universe);
  }

  lemma ExactHolds(c: Node, universe: iset<string>)
    requires Synced(c, universe) && Exact(c)
    ensures Holds(c, ByUuid(c.users))
  {
    ByUuidKeys(c.users);
    hide S.Served, R.Coherent, R.NoDynamic, ByUuid;
  }

  lemma RebuiltIsExact(c: Node)
    requires DistinctUuids(c.users)
    ensures Exact(Rebuilt(c))
  {
    var empty := S.Tables(map[], map[], map[c.tag := []], map[], map[c.tag := c.minBytes]);
    hide R.Coherent, R.NoDynamic, V.Created, LimiterFollows, CoreFollows, S.Step, ByUuid;
    S.ListEmptyIff(map[]);
    AddedToNobody(empty, c.tag, c.users);
    CreatedFollows(c.nodeSpeed, c.tag, c.users, c.limiter.alive);
  }

  /** Then the incremental path is the rebuild in every field: limits, users and the inbound's list. */
  lemma RunIsRebuild(c: Node, es: seq<Event>, universe: iset<string>)
    requires Synced(c, universe) && NoKeyClash(universe) && Exact(c)
    requires S.KeyedTables(c.core) && AllSmooth(c, es, universe) && NothingHidden(c.users, es)
    ensures var c', r := After(c, es), Rebuilt(After(c, es));
            && c'.limiter.info == r.limiter.info
            && S.UsersOf(c'.core, c'.tag) == S.UsersOf(r.core, r.tag)
            && Lookup(c'.core.inbounds, c'.tag, []) == Lookup(r.core.inbounds, r.tag, [])
  {
    SyncedThroughout(c, es, universe);
    ExactThroughout(c, es, universe);
    var c' := After(c, es);
    hide After, AllSmooth, NothingHidden, NoKeyClash, Rebuilt;
    SyncedLists(c', universe);
    StartedIsSynced(c', universe);
    RebuiltIsExact(c');
    RebuiltKeepsList(c');
    ExactDetermines(c', Rebuilt(c'), universe);
  }

  lemma RebuiltKeepsList(c: Node)
    ensures Rebuilt(c).tag == c.tag && Rebuilt(c).users == c.users
  {
  }

  lemma ExactDetermines(c: Node, d: Node, universe: iset<string>)
    requires Synced(c, universe) && Synced(d, universe) && Exact(c) && Exact(d) && c.tag == d.tag && c.users == d.users
    ensures c.limiter.info == d.limiter.info
    ensures S.UsersOf(c.core, c.tag) == S.UsersOf(d.core, d.tag)
    ensures Lookup(c.core.inbounds, c.tag, []) == Lookup(d.core.inbounds, d.tag, [])
  {
    hide R.Coherent, R.NoDynamic;
    assert c.core.inbounds[c.tag] == CanonicalList(S.KeyedUsers(c.core, c.tag));
    assert d.core.inbounds[d.tag] == CanonicalList(S.KeyedUsers(d.core, d.tag));
    forall k | k in c.limiter.info
      ensures k in d.limiter.info && c.limiter.info[k] == d.limiter.info[k]
    {
      assert k in TagKeys(c.tag, c.users);
      var x :| x in Uuids(c.users) && k == UserTag(c.tag, x);
      var u :| u in c.users && u.uuid == x;
    }
  }

  // ---------------------------------------------------------------------------
  // The uid index over runs
  // ---------------------------------------------------------------------------

  /** In every run, smooth or not, over lists without bars, the index holds exactly the listed users of every tag. */
  lemma {:induction false} IndexedThroughout(c: Node, es: seq<Event>)
    requires S.KeyedTables(c.core) && S.Indexed(c.core) && BarFreeList(c.users)
    requires forall i :: 0 <= i < |es| && es[i].Polled? && es[i].p.users.Some? ==> BarFreeList(es[i].p.users.value)
    ensures S.Indexed(After(c, es).core) && BarFreeList(After(c, es).users)
  {
    if es != [] {
      hide S.Indexed, BarFreeList, S.KeyedTables, PollNext;
      var n := |es| - 1;
      IndexedThroughout(c, es[..n]);
      if es[n].Polled? { PollKeepsIndex(After(c, es[..n]), es[n].p); }
    }
  }

  /** So a node started from a list without bars has, after any such run, each user of each tag in the index
      under its id, and no other bar-free key. */
  lemma StartedStaysIndexed(c: Node, es: seq<Event>, tag: string, x: string)
    requires BarFreeList(c.users) && NoBar(x)
    requires forall i :: 0 <= i < |es| && es[i].Polled? && es[i].p.users.Some? ==> BarFreeList(es[i].p.users.value)
    ensures S.KeyedTables(Rebuilt(c).core)
    ensures var core := After(Rebuilt(c), es).core;
            && (UserTag(tag, x) in core.uidMap <==> S.Listed(core.tagUsers, tag, x))
            && (S.Listed(core.tagUsers, tag, x) ==> core.uidMap[UserTag(tag, x)] == core.tagUsers[tag][x].id)
  {
    StartedIsIndexed(c);
    RebuiltKeepsList(c);
    RebuiltIsKeyed(c);
    hide Rebuilt, S.KeyedTables, S.Indexed, BarFreeList, NoBar;
    IndexedThroughout(Rebuilt(c), es);
    S.IndexedIff(After(Rebuilt(c), es).core, tag, x);
  }

  lemma RebuiltIsKeyed(c: Node)
    ensures S.KeyedTables(Rebuilt(c).core)
  {
    S.StepKeyed(S.Tables(map[], map[], map[c.tag := []], map[], map[c.tag := c.minBytes]),
        S.AddUsers(c.tag, c.users, true));
  }

  // ---------------------------------------------------------------------------
  // The limiter alone
  // ---------------------------------------------------------------------------

  /** Lists are distinct and over the universe, and a poll that reloads without rebuilding the limiter changes no speed.
      The core may refuse anything. */
  ghost predicate AllKeptUp(c: Node, es: seq<Event>, universe: iset<string>)
    requires S.KeyedTables(c.core)
  {
    forall i :: 0 <= i < |es| && es[i].Polled? ==> KeepsUp(After(c, es[..i]), es[i].p, universe)
  }

  ghost predicate KeepsUp(c: Node, p: Poll, universe: iset<string>) {
    (p.users.Some? ==> ListOver(p.users.value, universe)) && LimiterKeepsUp(c, p)
  }

  lemma PrefixKeptUp(c: Node, es: seq<Event>, universe: iset<string>)
    requires S.KeyedTables(c.core) && es != [] && AllKeptUp(c, es, universe)
    ensures var n := |es| - 1;
            AllKeptUp(c, es[..n], universe) && (es[n].Polled? ==> KeepsUp(After(c, es[..n]), es[n].p, universe))
  {
    hide After, KeepsUp, S.KeyedTables;
    var n := |es| - 1;
    forall i | 0 <= i < n && es[..n][i].Polled?
      ensures KeepsUp(After(c, es[..n][..i]), es[..n][i].p, universe)
    {
      assert es[..n][..i] == es[..i] && es[i].Polled?;
    }
  }

  lemma StepKeepsLimiter(c: Node, e: Event, universe: iset<string>)
    requires S.KeyedTables(c.core) && LimiterSynced(c, universe) && NoKeyClash(universe)
    requires e.Polled? ==> KeepsUp(c, e.p, universe)
    ensures LimiterSynced(Step(c, e), universe)
  {
    if e.Polled? {
      hide S.KeyedTables, LimiterSynced, LimiterKeepsUp, NoKeyClash, PollNext, Step;
      PollKeepsLimiterIff(c, e.p, universe);
      StepIsPoll(c, e);
    } else {
      hide S.KeyedTables, V.Check, V.PastOf, R.Coherent, R.NoDynamic;
      match e
      case Connect(key, ip, tcp, now) => R.StepKeepsCoherence(c.limiter, R.Connect(key, ip, tcp, now));
      case Reported(order) => R.StepKeepsCoherence(c.limiter, R.Report(order));
    }
  }

  /** In every run of such polls, connections and reports, however the core's calls end,
      the limiter is in step with the list held and its buckets are coherent. */
  lemma {:induction false} LimiterThroughout(c: Node, es: seq<Event>, universe: iset<string>)
    requires S.KeyedTables(c.core) && LimiterSynced(c, universe) && NoKeyClash(universe) && AllKeptUp(c, es, universe)
    ensures LimiterSynced(After(c, es), universe)
  {
    if es != [] {
      var n := |es| - 1;
      PrefixKeptUp(c, es, universe);
      hide AllKeptUp, KeepsUp, LimiterSynced, NoKeyClash, S.KeyedTables, Step;
      LimiterThroughout(c, es[..n], universe);
      StepKeepsLimiter(After(c, es[..n]), es[n], universe);
    }
  }

  lemma SmoothKeepsUp(c: Node, es: seq<Event>, universe: iset<string>)
    requires S.KeyedTables(c.core) && AllSmooth(c, es, universe)
    ensures AllKeptUp(c, es, universe)
  {
    hide After, S.KeyedTables, ListOver, Speeds;
  }

  // ---------------------------------------------------------------------------
  // After a failure
  // ---------------------------------------------------------------------------

  ghost predicate AllSane(c: Node, es: seq<Event>, n: nat)
    requires S.KeyedTables(c.core) && n <= |es|
  {
    forall i :: 0 <= i < n && es[i].Polled? ==> LeavesCoreSane(After(c, es[..i]), es[i].p)
  }

  lemma {:induction false} ServedThroughout(c: Node, es: seq<Event>, n: nat)
    requires S.Served(c.core) && S.KeyedTables(c.core) && n <= |es| && AllSane(c, es, n)
    ensures S.Served(After(c, es[..n]).core)
  {
    if n > 0 {
      hide S.Served, S.KeyedTables, LeavesCoreSane, PollNext, V.Check, V.Rotate;
      ServedThroughout(c, es, n - 1);
      assert es[..n][..n - 1] == es[..n - 1];
      if es[n - 1].Polled? { PollKeepsServed(After(c, es[..n - 1]), es[n - 1].p); }
    } else {
      assert es[..0] == [];
    }
  }

  ghost predicate SmoothAfter(c: Node, es: seq<Event>, k: nat, universe: iset<string>)
    requires S.KeyedTables(c.core)
  {
    forall i :: k < i < |es| ==> SmoothAt(c, es, i, universe)
  }

  ghost predicate SmoothAt(c: Node, es: seq<Event>, i: nat, universe: iset<string>)
    requires S.KeyedTables(c.core) && i < |es|
  {
    es[i].Polled? ==> Smooth(After(c, es[..i]), es[i].p, universe)
  }

  /** Event `k` is a successful reload of an unnamed node, after polls that left the core sane. */
  ghost predicate RestoredAt(c: Node, es: seq<Event>, k: nat, universe: iset<string>)
    requires S.KeyedTables(c.core)
  {
    k < |es| && AllSane(c, es, k) && es[k].Polled? && Restores(After(c, es[..k]), es[k].p, universe)
  }

  lemma PrefixRestored(c: Node, es: seq<Event>, k: nat, universe: iset<string>)
    requires S.KeyedTables(c.core) && k < |es| - 1 && RestoredAt(c, es, k, universe)
    ensures RestoredAt(c, es[..|es| - 1], k, universe)
  {
    hide After, S.KeyedTables, LeavesCoreSane, Restores;
    var n := |es| - 1;
    assert es[..n][..k] == es[..k];
    forall i | 0 <= i < k && es[..n][i].Polled?
      ensures LeavesCoreSane(After(c, es[..n][..i]), es[..n][i].p)
    {
      assert es[..n][..i] == es[..i] && es[i].Polled?;
    }
  }

  lemma PrefixSmoothAfter(c: Node, es: seq<Event>, k: nat, universe: iset<string>)
    requires S.KeyedTables(c.core) && k < |es| - 1 && SmoothAfter(c, es, k, universe)
    ensures var n := |es| - 1;
            SmoothAfter(c, es[..n], k, universe) && (es[n].Polled? ==> Smooth(After(c, es[..n]), es[n].p, universe))
  {
    hide After, Smooth, S.KeyedTables;
    var n := |es| - 1;
    assert SmoothAt(c, es, n, universe);
    forall i | k < i < n
      ensures SmoothAt(c, es[..n], i, universe)
    {
      SmoothEarlier(c, es, i, universe);
      hide SmoothAt;
      assert SmoothAt(c, es, i, universe);
    }
  }

  lemma SmoothEarlier(c: Node, es: seq<Event>, i: nat, universe: iset<string>)
    requires S.KeyedTables(c.core) && i < |es| - 1
    ensures SmoothAt(c, es[..|es| - 1], i, universe) == SmoothAt(c, es, i, universe)
  {
    hide After, Smooth, S.KeyedTables;
    assert es[..|es| - 1][..i] == es[..i];
  }

  /** What failed before the last successful reload of an unnamed node does not matter: from there on,
      while polls are smooth, limiter and core are in step, whatever state the run began in and whichever calls
      failed. */
  lemma {:induction false} RestoredThroughout(c: Node, es: seq<Event>, k: nat, universe: iset<string>)
    requires S.Served(c.core) && S.KeyedTables(c.core) && NoKeyClash(universe)
    requires RestoredAt(c, es, k, universe) && SmoothAfter(c, es, k, universe)
    ensures Synced(After(c, es), universe)
  {
    var n := |es| - 1;
    if k == n {
      hide S.KeyedTables, S.Served, Reload, LeavesCoreSane, Synced, SmoothAfter;
      ServedThroughout(c, es, k);
      ReloadSyncs(After(c, es[..k]), es[k].p, universe);
    } else {
      PrefixRestored(c, es, k, universe);
      PrefixSmoothAfter(c, es, k, universe);
      hide S.KeyedTables, S.Served, Synced, Smooth, RestoredAt, SmoothAfter, NoKeyClash, Step;
      RestoredThroughout(c, es[..n], k, universe);
      StepSyncs(After(c, es[..n]), es[n], universe);
    }
  }

  // ---------------------------------------------------------------------------
  // The rate a connection gets
  // ---------------------------------------------------------------------------

  /** At any point of a run without dynamic limits, however the core's calls end: nobody outside the list held
      is admitted, and an admitted user's bucket carries, at eight bits a byte, the smaller positive limit of the node's
      and the one in that list, or is absent when neither limits. */
  lemma AdmittedAtListedRate(c: Node, es: seq<Event>, universe: iset<string>, x: string, ip: string, tcp: bool,
                             now: int)
    requires S.KeyedTables(c.core) && LimiterSynced(c, universe) && NoKeyClash(universe) && AllKeptUp(c, es, universe)
    ensures var c' := After(c, es);
            var verdict := V.Check(c'.limiter, UserTag(c'.tag, x), ip, tcp, now).1;
            && (x !in Uuids(c'.users) ==> verdict.Reject?)
            && (verdict.Admit? ==>
                  exists u :: u in c'.users && u.uuid == x && R.CarriesLimit(verdict.bucket, c.nodeSpeed, u.speedLimit))
  {
    LimiterThroughout(c, es, universe);
    var c' := After(c, es);
    NodeSpeedOverRun(c, es);
    hide R.CarriesLimit, S.KeyedTables, R.NoDynamic, R.Coherent, After, AllKeptUp, NoKeyClash;
    KeyIn(c'.tag, c'.users, x);
    R.RejectedIff(c'.limiter, UserTag(c'.tag, x), ip, tcp, now);
    if V.Check(c'.limiter, UserTag(c'.tag, x), ip, tcp, now).1.Admit? {
      hide V.Check;
      R.GrantedRate(c'.limiter, UserTag(c'.tag, x), ip, tcp, now);
      var u :| u in c'.users && u.uuid == x;
    }
  }

  /** In a smooth run that list is the one last taken. */
  lemma AdmittedAtTakenRate(c: Node, es: seq<Event>, universe: iset<string>, x: string, ip: string, tcp: bool, now: int)
    requires Synced(c, universe) && NoKeyClash(universe)
    requires S.KeyedTables(c.core) && AllSmooth(c, es, universe)
    ensures var c' := After(c, es);
            var users := ListTakenAfter(c.users, es);
            var verdict := V.Check(c'.limiter, UserTag(c'.tag, x), ip, tcp, now).1;
            && (x !in Uuids(users) ==> verdict.Reject?)
            && (verdict.Admit? ==>
                  exists u :: u in users && u.uuid == x && R.CarriesLimit(verdict.bucket, c.nodeSpeed, u.speedLimit))
  {
    LimiterPart(c, universe);
    SmoothKeepsUp(c, es, universe);
    SyncedThroughout(c, es, universe);
    hide Synced, LimiterSynced, S.KeyedTables, After, ListTakenAfter, AllSmooth, AllKeptUp, NoKeyClash, R.CarriesLimit;
    hide V.Check;
    AdmittedAtListedRate(c, es, universe, x, ip, tcp, now);
  }

  lemma {:induction false} NodeSpeedOverRun(c: Node, es: seq<Event>)
    requires S.KeyedTables(c.core)
    ensures After(c, es).nodeSpeed == c.nodeSpeed
  {
    if es != [] {
      NodeSpeedOverRun(c, es[..|es| - 1]);
      NodeSpeedStep(After(c, es[..|es| - 1]), es[|es| - 1]);
    }
  }

  lemma NodeSpeedStep(c: Node, e: Event)
    requires S.KeyedTables(c.core)
    ensures Step(c, e).nodeSpeed == c.nodeSpeed
  {
    hide S.Step, S.KeyedTables, V.Check, V.Update, V.Created;
  }
}
