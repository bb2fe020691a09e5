/** Properties of the limiter over whole runs of connections, reports and user updates. */
module LimiterRuns {
  import opened Common
  import opened Veil

  datatype Event =
    | Connect(key: string, ip: string, tcp: bool, now: int)
    | Report(order: seq<(string, string)>)
    | Sync(tag: string, added: seq<UserInfo>, deleted: set<UserInfo>)
    | SetAlive(alive: map<int, int>)
    | Throttled(key: string, limit: int, expire: int)

  function Step(t: Tables, e: Event): Tables {
    match e
    case Connect(key, ip, tcp, now) => Check(t, key, ip, tcp, now).0
    case Report(order) => Rotate(t, order)
    case Sync(tag, added, deleted) => Update(t, tag, added, deleted)
    case SetAlive(alive) => t.(alive := alive)
    case Throttled(key, limit, expire) => Throttle(t, key, limit, expire)
  }

  /** The tables after all of `es`. */
  function After(t: Tables, es: seq<Event>): Tables {
    if es == [] then t else Step(After(t, es[..|es| - 1]), es[|es| - 1])
  }

  /** The tables event `i` finds. */
  function Before(t: Tables, es: seq<Event>, i: nat): Tables
    requires i <= |es|
  {
    After(t, es[..i])
  }

  lemma BeforeNext(t: Tables, es: seq<Event>, i: nat)
    requires i < |es|
    ensures Before(t, es, i + 1) == Step(Before(t, es, i), es[i])
  {
    assert es[..i + 1][..i] == es[..i];
  }

  predicate Admitted(t: Tables, es: seq<Event>, i: nat)
    requires i < |es| && es[i].Connect?
  {
    Check(Before(t, es, i), es[i].key, es[i].ip, es[i].tcp, es[i].now).1.Admit?
  }

  /** A TCP connection from this address. */
  predicate Tries(e: Event, ip: string) {
    e.Connect? && e.tcp && Normal(e.ip) == ip
  }

  /** Every report walks the online table it finds, in some order. */
  ghost predicate Feasible(t: Tables, es: seq<Event>) {
    forall i :: 0 <= i < |es| && es[i].Report? ==> Enumerates(es[i].order, Before(t, es, i).online)
  }

  ghost predicate OnlineAnywhere(t: Tables, ip: string) {
    exists k :: k in t.online && ip in t.online[k]
  }

  ghost predicate Known(t: Tables, ip: string) {
    ip in t.past || OnlineAnywhere(t, ip)
  }

  lemma ExpireEffect(t: Tables, key: string, now: int)
    requires key in t.info
    ensures Expire(t, key, now) == t.(info := Expire(t, key, now).info)
    ensures forall k :: k in Expire(t, key, now).info ==>
            k in t.info && Expire(t, key, now).info[k].uid == t.info[k].uid
    ensures !Expired(t.info[key], now) ==> Expire(t, key, now) == t
  {
  }

  lemma GrantEffect(t: Tables, key: string, rate: int)
    ensures Grant(t, key, rate).1.Admit?
    ensures Grant(t, key, rate).0 == t
            || (key !in t.buckets && rate > 0 && Grant(t, key, rate).0 == t.(buckets := t.buckets[key := rate]))
  {
  }

  lemma RecordEffect(t: Tables, info: map<string, UserLimit>, key: string, ip: string, uid: int)
    ensures Record(t.(info := info), key, ip, uid) == Record(t, key, ip, uid).(info := info)
    ensures Record(t, key, ip, uid) ==
            t.(online := Record(t, key, ip, uid).online, past := Record(t, key, ip, uid).past)
  {
  }

  /** The tables of an admitted connection, before and after its bucket is looked up. */
  lemma AdmittedEffect(t: Tables, key: string, ip: string, tcp: bool, now: int) returns (mid: Tables)
    requires Check(t, key, ip, tcp, now).1.Admit?
    ensures key in t.info
    ensures mid == (if tcp then Record(t, key, Normal(ip), t.info[key].uid) else t).(info := Expire(t, key, now).info)
    ensures Check(t, key, ip, tcp, now) == Grant(mid, key, Rate(t.nodeSpeed, UserSpeed(t.info[key], now)))
  {
    hide Expire, Record, Grant, Normal, Rate, UserSpeed, Fresh, Saturated;
    ExpireEffect(t, key, now);
    RecordEffect(t, Expire(t, key, now).info, key, Normal(ip), t.info[key].uid);
    mid := if tcp then Record(Expire(t, key, now), key, Normal(ip), t.info[key].uid) else Expire(t, key, now);
  }

  lemma RejectedEffect(t: Tables, key: string, ip: string, tcp: bool, now: int)
    requires Check(t, key, ip, tcp, now).1.Reject?
    ensures Check(t, key, ip, tcp, now).0 == if key in t.info then Expire(t, key, now) else t
  {
    hide Expire, Record, Normal, Rate, UserSpeed, Fresh, Saturated;
  }

  lemma EffectOnAddresses(t: Tables, key: string, ip: string, tcp: bool, now: int)
    ensures var (t', v) := Check(t, key, ip, tcp, now);
            && (v.Admit? ==> key in t.info)
            && (v.Reject? || !tcp ==> t'.online == t.online && t'.past == t.past)
            && (v.Admit? && tcp ==> t'.online == Record(t, key, Normal(ip), t.info[key].uid).online
                                    && t'.past == Record(t, key, Normal(ip), t.info[key].uid).past)
  {
    hide Check, Expire, Grant, Record;
    if Check(t, key, ip, tcp, now).1.Admit? {
      var mid := AdmittedEffect(t, key, ip, tcp, now);
      GrantEffect(mid, key, Rate(t.nodeSpeed, UserSpeed(t.info[key], now)));
    } else {
      RejectedEffect(t, key, ip, tcp, now);
      if key in t.info { ExpireEffect(t, key, now); }
    }
  }

  lemma EffectOnLimits(t: Tables, key: string, ip: string, tcp: bool, now: int)
    ensures var (t', v) := Check(t, key, ip, tcp, now);
            && t'.nodeSpeed == t.nodeSpeed && t'.uids == t.uids && t'.alive == t.alive
            && (forall k :: k in t'.info ==> k in t.info && t'.info[k].uid == t.info[k].uid)
            && (!(key in t.info && Expired(t.info[key], now)) ==> t'.info == t.info)
            && (t'.buckets == t.buckets
                || (key in t.info && key !in t.buckets && Rate(t.nodeSpeed, UserSpeed(t.info[key], now)) > 0
                    && t'.buckets == t.buckets[key := Rate(t.nodeSpeed, UserSpeed(t.info[key], now))]))
  {
    hide Check, Expire, Grant, Record, Rate, UserSpeed;
    if key in t.info { ExpireEffect(t, key, now); }
    if Check(t, key, ip, tcp, now).1.Admit? {
      var mid := AdmittedEffect(t, key, ip, tcp, now);
      RecordEffect(t, t.info, key, Normal(ip), t.info[key].uid);
      GrantEffect(mid, key, Rate(t.nodeSpeed, UserSpeed(t.info[key], now)));
    } else {
      RejectedEffect(t, key, ip, tcp, now);
    }
  }

  // ---------------------------------------------------------------------------
  // Rejections
  // ---------------------------------------------------------------------------

  /** Exactly which connections are turned away: those of unknown users, and over TCP those from a new address of a user
      whose device limit is positive and reached by the panel's count. */
  lemma RejectedIff(t: Tables, key: string, ip: string, tcp: bool, now: int)
    ensures Check(t, key, ip, tcp, now).1.Reject?
       <==> key !in t.info || (tcp && Saturated(t, key) && Fresh(t, key, Normal(ip)))
    ensures key in t.info ==>
              (Saturated(t, key) <==>
                  var u := t.info[key]; u.device > 0 && u.uid in t.alive && t.alive[u.uid] >= u.device)
    ensures Fresh(t, key, Normal(ip)) <==>
            (key in t.online ==> Normal(ip) !in t.online[key]) && Normal(ip) !in t.past
  {
  }

  /** A mapped IPv6 spelling is the same device as the IPv4 address in it. */
  lemma MappedSpelling(t: Tables, key: string, ip: string, tcp: bool, now: int)
    requires !("::ffff:" <= ip)
    ensures Normal("::ffff:" + ip) == ip && Normal(ip) == ip
    ensures Check(t, key, "::ffff:" + ip, tcp, now) == Check(t, key, ip, tcp, now)
  {
    assert ("::ffff:" + ip)[7..] == ip;
    hide Normal, Expire, Record, Grant, Saturated, Fresh;
  }

  /** A rejected connection leaves every table as it was, unless it also met an expired dynamic limit. */
  lemma RejectionIsNoOpIff(t: Tables, key: string, ip: string, tcp: bool, now: int)
    requires Check(t, key, ip, tcp, now).1.Reject?
    ensures Check(t, key, ip, tcp, now).0 == t <==>
            (key in t.info ==> t.info[key].expire == 0 || now <= t.info[key].expire)
  {
    if key in t.info && Expired(t.info[key], now) {
      var t' := Expire(t, key, now);
      assert key in t'.info ==> t'.info[key].expire == 0;
      assert t'.info != t.info;
    }
  }

  lemma InfoAfterCheck(t: Tables, key: string, ip: string, tcp: bool, now: int)
    requires key in t.info
    ensures Check(t, key, ip, tcp, now).0.info == Expire(t, key, now).info
  {
    hide Check, Expire, Record, Grant;
    if Check(t, key, ip, tcp, now).1.Admit? {
      var mid := AdmittedEffect(t, key, ip, tcp, now);
      RecordEffect(t, t.info, key, Normal(ip), t.info[key].uid);
      GrantEffect(mid, key, Rate(t.nodeSpeed, UserSpeed(t.info[key], now)));
    } else {
      RejectedEffect(t, key, ip, tcp, now);
    }
  }

  /** A connection removes a user exactly when it meets an expired dynamic limit on a user without a base limit. */
  lemma ConnectionDropsUserIff(t: Tables, key: string, ip: string, tcp: bool, now: int)
    requires key in t.info
    ensures key !in Check(t, key, ip, tcp, now).0.info <==>
            t.info[key].expire != 0 && t.info[key].expire < now && t.info[key].speed == 0
  {
    InfoAfterCheck(t, key, ip, tcp, now);
    hide Check;
  }

  /** A dynamic limit that expired gives way to the base limit, with this connection and for good; until then, and for
      every other user, limits stay as they are. */
  lemma ExpiryRestoresBase(t: Tables, key: string, ip: string, tcp: bool, now: int)
    requires key in t.info && t.info[key].speed > 0
    ensures var (t', v) := Check(t, key, ip, tcp, now);
            var expired := t.info[key].expire != 0 && t.info[key].expire < now;
            && t'.info == t.info[key := if expired then t.info[key].(dynamicSpeed := 0, expire := 0) else t.info[key]]
            && (expired && v.Admit? && key !in t.buckets ==> CarriesLimit(v.bucket, t.nodeSpeed, t.info[key].speed))
  {
    InfoAfterCheck(t, key, ip, tcp, now);
    if Expired(t.info[key], now) && Check(t, key, ip, tcp, now).1.Admit? {
      var rate := Rate(t.nodeSpeed, t.info[key].speed);
      assert CarriesLimit(if rate > 0 then Some(rate) else None, t.nodeSpeed, t.info[key].speed);
      hide Check, Record, Rate, CarriesLimit;
      var mid := AdmittedEffect(t, key, ip, tcp, now);
      RecordEffect(t, t.info, key, Normal(ip), t.info[key].uid);
    } else {
      hide Check;
    }
  }

  lemma {:induction false} StoreUidsExact(uids: map<string, int>, users: seq<UserInfo>, i: nat)
    requires i < |users| && LastOfUuid(users, i)
    ensures users[i].uuid in StoreUids(uids, users) && StoreUids(uids, users)[users[i].uuid] == users[i].id
  {
    var n := |users| - 1;
    if i < n {
      assert forall j :: 0 <= j < n ==> users[..n][j] == users[j];
      StoreUidsExact(uids, users[..n], i);
    }
  }

  lemma {:induction false} StoreLimitsLast(info: map<string, UserLimit>, tag: string, users: seq<UserInfo>, i: nat)
    requires i < |users| && LastOfUuid(users, i)
    ensures UserTag(tag, users[i].uuid) in StoreLimits(info, tag, users)
    ensures StoreLimits(info, tag, users)[UserTag(tag, users[i].uuid)] == LimitOf(users[i])
  {
    var n := |users| - 1;
    if i < n {
      assert forall j :: 0 <= j < n ==> users[..n][j] == users[j];
      StoreLimitsLast(info, tag, users[..n], i);
      SameTagInjective(tag, users[n].uuid, users[i].uuid);
    }
  }

  /** Added users are known under their id, speed and device limit, without a dynamic limit; the last entry of a uuid
      counts. */
  lemma AddedAreKnown(t: Tables, tag: string, added: seq<UserInfo>, deleted: set<UserInfo>, i: nat)
    requires i < |added| && LastOfUuid(added, i)
    ensures var t', u := Update(t, tag, added, deleted), added[i];
            && tag + "|" + u.uuid in t'.info && u.uuid in t'.uids && t'.uids[u.uuid] == u.id
            && t'.info[tag + "|" + u.uuid] == UserLimit(u.id, u.speedLimit, u.deviceLimit, 0, 0)
  {
    var kept := Dropped(t, tag, deleted);
    StoreLimitsLast(kept.info, tag, added, i);
    StoreUidsExact(kept.uids, added, i);
    hide StoreLimits, StoreUids, Dropped;
  }

  lemma KeyOfOther(tag: string, gone: set<UserInfo>, u: UserInfo)
    ensures UserTag(tag, u.uuid) in KeysOf(tag, gone) <==> exists w :: w in gone && w.uuid == u.uuid
  {
    if UserTag(tag, u.uuid) in KeysOf(tag, gone) {
      var w :| w in gone && UserTag(tag, w.uuid) == UserTag(tag, u.uuid);
      SameTagInjective(tag, w.uuid, u.uuid);
    }
  }

  lemma UpdateAt(t: Tables, tag: string, added: seq<UserInfo>, deleted: set<UserInfo>, u: UserInfo)
    requires u.uuid !in Uuids(added)
    ensures var t', kept := Update(t, tag, added, deleted), Dropped(t, tag, deleted);
            var key := UserTag(tag, u.uuid);
            && (key in t'.info <==> key in kept.info) && (key in kept.info ==> t'.info[key] == kept.info[key])
            && (u.uuid in t'.uids <==> u.uuid in kept.uids)
            && Lookup(t'.uids, u.uuid, 0) == Lookup(kept.uids, u.uuid, 0)
            && t' == kept.(info := t'.info, uids := t'.uids)
  {
    var kept := Dropped(t, tag, deleted);
    StoreLimitsKeys(kept.info, tag, added);
    StoreUidsKeys(kept.uids, added);
    KeyOfOther(tag, (set w | w in added), u);
    hide StoreLimits, StoreUids, Dropped, KeysOf;
  }

  /** Deleted users who are not added again leave nothing behind. */
  lemma DeletedLeaveNothing(t: Tables, tag: string, added: seq<UserInfo>, deleted: set<UserInfo>, u: UserInfo)
    requires u in deleted && u.uuid !in Uuids(added)
    ensures var t', key := Update(t, tag, added, deleted), tag + "|" + u.uuid;
            key !in t'.info && key !in t'.online && key !in t'.buckets && u.uuid !in t'.uids && u.id !in t'.alive
  {
    UpdateAt(t, tag, added, deleted, u);
    KeyOfOther(tag, deleted, u);
    hide Update, KeysOf;
  }

  /** Whoever is neither deleted nor added keeps everything. */
  lemma OthersKeepAll(t: Tables, tag: string, added: seq<UserInfo>, deleted: set<UserInfo>, u: UserInfo)
    requires u.uuid !in Uuids(added) && forall w :: w in deleted ==> w.uuid != u.uuid && w.id != u.id
    ensures var t', key := Update(t, tag, added, deleted), tag + "|" + u.uuid;
            && (key in t'.info <==> key in t.info) && (key in t.info ==> t'.info[key] == t.info[key])
            && Online(t', key) == Online(t, key) && t'.past == t.past
            && (key in t'.buckets <==> key in t.buckets) && (key in t.buckets ==> t'.buckets[key] == t.buckets[key])
            && Lookup(t'.uids, u.uuid, 0) == Lookup(t.uids, u.uuid, 0)
            && Lookup(t'.alive, u.id, 0) == Lookup(t.alive, u.id, 0)
  {
    UpdateAt(t, tag, added, deleted, u);
    KeyOfOther(tag, deleted, u);
    hide Update, KeysOf;
  }

  lemma {:induction false} StoreUidsKeys(uids: map<string, int>, users: seq<UserInfo>)
    ensures StoreUids(uids, users).Keys == uids.Keys + Uuids(users)
    ensures forall x :: x in uids && x !in Uuids(users) ==> StoreUids(uids, users)[x] == uids[x]
  {
    if users != [] {
      var n := |users| - 1;
      StoreUidsKeys(uids, users[..n]);
      assert users == users[..n] + [users[n]];
      assert Uuids(users) == Uuids(users[..n]) + {users[n].uuid};
    }
  }

  /** A user limited only dynamically is gone once the limit expired, although the connection is admitted. */
  lemma ExpiryDropsUser()
    ensures var t := Tables(0, map[], map[], map[], map["t|a" := UserLimit(1, 0, 0, 5, 10)], map[], map[]);
            Check(t, "t|a", "1.2.3.4", true, 11).1 == Admit(None)
                && Check(t, "t|a", "1.2.3.4", true, 11).0.info == map[]
  {
    var t := Tables(0, map[], map[], map[], map["t|a" := UserLimit(1, 0, 0, 5, 10)], map[], map[]);
    ConnectionDropsUserIff(t, "t|a", "1.2.3.4", true, 11);
    EffectOnLimits(t, "t|a", "1.2.3.4", true, 11);
  }

  // ---------------------------------------------------------------------------
  // The two generations of addresses
  // ---------------------------------------------------------------------------

  ghost predicate NoEmptyEntry(t: Tables) {
    forall k :: k in t.online ==> t.online[k] != map[]
  }

  lemma StepKeepsEntries(t: Tables, e: Event)
    requires NoEmptyEntry(t)
    ensures NoEmptyEntry(Step(t, e))
  {
    hide Check, Normal, StoreLimits, StoreUids;
    if e.Connect? {
      EffectOnAddresses(t, e.key, e.ip, e.tcp, e.now);
    }
  }

  lemma {:induction false} OnlineEntriesNeverEmpty(t: Tables, es: seq<Event>)
    requires NoEmptyEntry(t)
    ensures NoEmptyEntry(After(t, es))
  {
    if es != [] {
      hide Step, NoEmptyEntry;
      OnlineEntriesNeverEmpty(t, es[..|es| - 1]);
      StepKeepsEntries(After(t, es[..|es| - 1]), es[|es| - 1]);
    }
  }

  /** What one event can do to the set of known addresses. */
  lemma KnownGrowsOnlyByAdmission(t: Tables, e: Event, ip: string)
    requires !Known(t, ip) && (e.Report? ==> Enumerates(e.order, t.online))
    requires Tries(e, ip) ==> Check(t, e.key, e.ip, e.tcp, e.now).1.Reject?
    ensures !Known(Step(t, e), ip)
  {
    hide Check, Normal, StoreLimits, StoreUids;
    match e
    case Report(order) =>
      PastKeys(t.online, order);
      assert forall p :: p in order ==> IsOnline(t.online, p);
    case Connect(key, raw, tcp, now) =>
      EffectOnAddresses(t, key, raw, tcp, now);
    case Sync(tag, added, deleted) =>
    case SetAlive(_) =>
    case Throttled(_, _, _) =>
  }

  /** The first `n` events find the user saturated whenever it tries the address, and admit it for nobody else. */
  ghost predicate Gated(t: Tables, es: seq<Event>, key: string, ip: string, n: nat)
    requires n <= |es|
  {
    forall i :: 0 <= i < n && Tries(es[i], ip) ==>
        if es[i].key == key then Saturated(Before(t, es, i), key) else !Admitted(t, es, i)
  }

  lemma {:induction false} StaysUnknown(t: Tables, es: seq<Event>, key: string, ip: string, n: nat)
    requires n <= |es| && Feasible(t, es) && !Known(t, ip) && Gated(t, es, key, ip, n)
    ensures !Known(Before(t, es, n), ip)
  {
    if n > 0 {
      hide Check, Known, After, Before, Step, Saturated, Tries, Enumerates;
      StaysUnknown(t, es, key, ip, n - 1);
      BeforeNext(t, es, n - 1);
      GateStep(Before(t, es, n - 1), es[n - 1], key, ip);
    } else {
      assert es[..0] == [];
    }
  }

  /** While a user stays saturated no fresh address gets in, however many reports rotate the generations:
      an address unknown at the start and never admitted for another user is rejected every time. */
  lemma SaturatedGate(t: Tables, es: seq<Event>, key: string, ip: string, n: nat)
    requires n <= |es| && Feasible(t, es) && !Known(t, ip) && Gated(t, es, key, ip, n)
    ensures !Known(Before(t, es, n), ip)
    ensures forall i :: 0 <= i < n && Tries(es[i], ip) ==> !Admitted(t, es, i)
  {
    hide Check, Known, After, Before, Step, Saturated, Enumerates;
    StaysUnknown(t, es, key, ip, n);
    forall i | 0 <= i < n && Tries(es[i], ip)
      ensures !Admitted(t, es, i)
    {
      StaysUnknown(t, es, key, ip, i);
      GateStep(Before(t, es, i), es[i], key, ip);
    }
  }

  lemma GateStep(t: Tables, e: Event, key: string, ip: string)
    requires !Known(t, ip) && (e.Report? ==> Enumerates(e.order, t.online))
    requires Tries(e, ip) ==> if e.key == key then Saturated(t, key) else Check(t, e.key, e.ip, e.tcp, e.now).1.Reject?
    ensures !Known(Step(t, e), ip)
    ensures Tries(e, ip) ==> Check(t, e.key, e.ip, e.tcp, e.now).1.Reject?
  {
    hide Check, Step, Normal;
    if Tries(e, ip) && e.key == key {
      assert Fresh(t, key, ip);
      RejectedIff(t, key, e.ip, true, e.now);
    }
    KnownGrowsOnlyByAdmission(t, e, ip);
  }

  /** An address silent through one whole period between two reports is in neither generation after the second. */
  lemma SilentDeviceIsForgotten(t: Tables, es: seq<Event>, i: nat, j: nat, ip: string)
    requires Feasible(t, es) && i < j < |es| && es[i].Report? && es[j].Report?
    requires forall k :: i < k < j ==> !Tries(es[k], ip)
    ensures !Known(Before(t, es, j + 1), ip)
    ensures forall key, raw, now {:trigger Check(Before(t, es, j + 1), key, raw, true, now)} ::
              Normal(raw) == ip && Saturated(Before(t, es, j + 1), key) ==>
              Check(Before(t, es, j + 1), key, raw, true, now).1.Reject?
  {
    BeforeNext(t, es, i);
    for n := i + 1 to j
      invariant !OnlineAnywhere(Before(t, es, n), ip)
    {
      hide After;
      BeforeNext(t, es, n);
      SilentStep(Before(t, es, n), es[n], ip);
    }
    BeforeNext(t, es, j);
    var s := Before(t, es, j);
    PastKeys(s.online, es[j].order);
    assert forall p :: p in es[j].order ==> IsOnline(s.online, p);
    assert !Known(Before(t, es, j + 1), ip);
  }

  lemma SilentStep(t: Tables, e: Event, ip: string)
    requires !OnlineAnywhere(t, ip) && !Tries(e, ip)
    ensures !OnlineAnywhere(Step(t, e), ip)
  {
    hide Check, Normal, StoreLimits, StoreUids, PastOf;
    if e.Connect? {
      EffectOnAddresses(t, e.key, e.ip, e.tcp, e.now);
    }
  }

  /** A report carries every online address over to the generation it starts. */
  lemma ReportRemembers(t: Tables, order: seq<(string, string)>, ip: string)
    requires Enumerates(order, t.online)
    ensures ip in Rotate(t, order).past <==> OnlineAnywhere(t, ip)
    ensures Rotate(t, order).online == map[]
  {
    PastKeys(t.online, order);
    if OnlineAnywhere(t, ip) {
      var k :| k in t.online && ip in t.online[k];
      assert IsOnline(t.online, (k, ip)) && (k, ip) in order;
    }
    if ip in Rotate(t, order).past {
      var p :| p in order && p.1 == ip;
      assert IsOnline(t.online, p);
    }
  }

  /** The user tried the address after the last report among the first `n` events, or was online there
      from the start and no report came yet. */
  predicate TriedSinceReport(es: seq<Event>, key: string, ip: string, n: nat)
    requires n <= |es|
  {
    if n == 0 then true
    else if es[n - 1].Report? then false
    else (Tries(es[n - 1], ip) && es[n - 1].key == key) || TriedSinceReport(es, key, ip, n - 1)
  }

  /** The user tries the address at least once between two reports, before anyone else does; it is never deleted,
      and known whenever it tries. */
  ghost predicate Regular(t: Tables, es: seq<Event>, key: string, ip: string, n: nat)
    requires n <= |es|
  {
    forall i :: 0 <= i < n ==> RegularAt(t, es, key, ip, i)
  }

  ghost predicate RegularAt(t: Tables, es: seq<Event>, key: string, ip: string, i: nat)
    requires i < |es|
  {
    && (es[i].Report? ==> TriedSinceReport(es, key, ip, i))
    && (Tries(es[i], ip) ==>
          if es[i].key == key then key in Before(t, es, i).info else TriedSinceReport(es, key, ip, i))
    && (es[i].Sync? ==> key !in KeysOf(es[i].tag, es[i].deleted))
  }

  lemma RegularStep(t: Tables, e: Event, key: string, ip: string, tried: bool)
    requires ip in t.past || IsOnline(t.online, (key, ip))
    requires tried ==> IsOnline(t.online, (key, ip))
    requires e.Report? ==> Enumerates(e.order, t.online) && tried
    requires Tries(e, ip) ==> if e.key == key then key in t.info else tried
    requires e.Sync? ==> key !in KeysOf(e.tag, e.deleted)
    ensures Tries(e, ip) && e.key == key ==> Check(t, e.key, e.ip, e.tcp, e.now).1.Admit?
    ensures (if e.Report? then false else (Tries(e, ip) && e.key == key) || tried) ==>
              IsOnline(Step(t, e).online, (key, ip))
    ensures ip in Step(t, e).past || IsOnline(Step(t, e).online, (key, ip))
  {
    hide Check, Normal, StoreLimits, StoreUids, PastOf;
    match e
    case Report(order) =>
      assert OnlineAnywhere(t, ip);
      ReportRemembers(t, order, ip);
    case Connect(k, raw, tcp, now) =>
      RejectedIff(t, k, raw, tcp, now);
      EffectOnAddresses(t, k, raw, tcp, now);
    case Sync(tag, added, deleted) =>
    case SetAlive(_) =>
    case Throttled(_, _, _) =>
  }

  lemma {:induction false} RegularStaysKnown(t: Tables, es: seq<Event>, key: string, ip: string, n: nat)
    requires n <= |es| && Feasible(t, es) && IsOnline(t.online, (key, ip)) && Regular(t, es, key, ip, n)
    ensures TriedSinceReport(es, key, ip, n) ==> IsOnline(Before(t, es, n).online, (key, ip))
    ensures ip in Before(t, es, n).past || IsOnline(Before(t, es, n).online, (key, ip))
  {
    if n > 0 {
      RegularStaysKnown(t, es, key, ip, n - 1);
      BeforeNext(t, es, n - 1);
      assert RegularAt(t, es, key, ip, n - 1);
      hide After, Before, Step, Tries, Enumerates, IsOnline, Regular, KeysOf;
      RegularStep(Before(t, es, n - 1), es[n - 1], key, ip, TriedSinceReport(es, key, ip, n - 1));
    } else {
      assert es[..0] == [];
    }
  }

  /** A device that is online and connects at least once in every period keeps its place: it is admitted at every
      attempt, however many devices the panel counts and however many reports rotate the generations. */
  lemma RegularDeviceIsAdmitted(t: Tables, es: seq<Event>, key: string, ip: string, n: nat)
    requires n <= |es| && Feasible(t, es) && IsOnline(t.online, (key, ip)) && Regular(t, es, key, ip, n)
    ensures forall i :: 0 <= i < n && Tries(es[i], ip) && es[i].key == key ==> Admitted(t, es, i)
  {
    forall i | 0 <= i < n && Tries(es[i], ip) && es[i].key == key
      ensures Admitted(t, es, i)
    {
      RegularStaysKnown(t, es, key, ip, i);
      assert RegularAt(t, es, key, ip, i);
      hide After, Before, Step, Enumerates, IsOnline, Regular, KeysOf, Check;
      RegularStep(Before(t, es, i), es[i], key, ip, TriedSinceReport(es, key, ip, i));
    }
  }

  /** An address two users share has one place in the generation last reported. When the first of them returns after the
      report, the other, at its device limit, gets in again exactly when the place is not under the first one's uid. */
  lemma SharedAddressIff(t: Tables, order: seq<(string, string)>, a: string, b: string, ip: string,
                         now: int, later: int)
    requires Enumerates(order, t.online) && IsOnline(t.online, (a, ip)) && IsOnline(t.online, (b, ip)) && a != b
    requires a in t.info && Saturated(t, b) && Normal(ip) == ip
    ensures var r := Rotate(t, order);
            && ip in r.past && Check(r, a, ip, true, now).1.Admit?
            && (Check(Check(r, a, ip, true, now).0, b, ip, true, later).1.Admit? <==> r.past[ip] != t.info[a].uid)
  {
    assert OnlineAnywhere(t, ip);
    ReportRemembers(t, order, ip);
    var r := Rotate(t, order);
    var s := Check(r, a, ip, true, now).0;
    RejectedIff(r, a, ip, true, now);
    EffectOnAddresses(r, a, ip, true, now);
    OthersKeepLimits(r, a, b, ip, true, now);
    hide Check, PastOf;
    RejectedIff(s, b, ip, true, later);
  }

  lemma OthersKeepLimits(t: Tables, key: string, other: string, ip: string, tcp: bool, now: int)
    requires other != key
    ensures Saturated(Check(t, key, ip, tcp, now).0, other) == Saturated(t, other)
  {
    EffectOnLimits(t, key, ip, tcp, now);
    if key in t.info { InfoAfterCheck(t, key, ip, tcp, now); }
    hide Check;
  }

  /** Two users online at one address, each with one device and counted once: whoever returns first after the report
      shuts the other out if the walk met it last. */
  lemma SharedAddressLosesPlace()
    ensures var t := Tables(0, map["t|a" := map["1.2.3.4" := 1], "t|b" := map["1.2.3.4" := 2]], map[], map[],
                            map["t|a" := UserLimit(1, 0, 1, 0, 0), "t|b" := UserLimit(2, 0, 1, 0, 0)], map[],
                            map[1 := 1, 2 := 1]);
            var r := Rotate(t, [("t|b", "1.2.3.4"), ("t|a", "1.2.3.4")]);
            && Enumerates([("t|b", "1.2.3.4"), ("t|a", "1.2.3.4")], t.online)
            && Check(r, "t|a", "1.2.3.4", true, 0).1.Admit?
            && Check(Check(r, "t|a", "1.2.3.4", true, 0).0, "t|b", "1.2.3.4", true, 0).1.Reject?
  {
    var t := Tables(0, map["t|a" := map["1.2.3.4" := 1], "t|b" := map["1.2.3.4" := 2]], map[], map[],
                    map["t|a" := UserLimit(1, 0, 1, 0, 0), "t|b" := UserLimit(2, 0, 1, 0, 0)], map[],
                    map[1 := 1, 2 := 1]);
    var order := [("t|b", "1.2.3.4"), ("t|a", "1.2.3.4")];
    assert order[0] in order && order[1] in order;
    assert Enumerates(order, t.online);
    assert PastOf(t.online, order)["1.2.3.4"] == 1;
    assert "1.2.3.4"[0] == '1';
    SharedAddressIff(t, order, "t|a", "t|b", "1.2.3.4", 0, 0);
  }

  /** Some connection of the run was admitted over TCP as this (user key, address) pair. */
  ghost predicate AdmittedAs(t: Tables, es: seq<Event>, p: (string, string)) {
    exists i :: 0 <= i < |es| && AdmittedAt(t, es, p, i)
  }

  ghost predicate AdmittedAt(t: Tables, es: seq<Event>, p: (string, string), i: nat)
    requires i < |es|
  {
    Tries(es[i], p.1) && es[i].key == p.0 && Admitted(t, es, i)
  }

  lemma AdmittedAsNext(t: Tables, es: seq<Event>, p: (string, string))
    requires es != []
    ensures AdmittedAs(t, es, p) <==> AdmittedAs(t, es[..|es| - 1], p) || AdmittedAt(t, es, p, |es| - 1)
  {
    hide AdmittedAt;
    var n := |es| - 1;
    forall i | 0 <= i < n
      ensures AdmittedAt(t, es, p, i) == AdmittedAt(t, es[..n], p, i)
    {
      AdmittedEarlier(t, es, p, i);
    }
    if AdmittedAs(t, es[..n], p) {
      var i :| 0 <= i < |es[..n]| && AdmittedAt(t, es[..n], p, i);
      assert AdmittedAt(t, es, p, i);
    }
    if AdmittedAs(t, es, p) {
      var i :| 0 <= i < |es| && AdmittedAt(t, es, p, i);
      assert i < n ==> AdmittedAt(t, es[..n], p, i);
    }
  }

  lemma AdmittedEarlier(t: Tables, es: seq<Event>, p: (string, string), i: nat)
    requires i < |es| - 1
    ensures AdmittedAt(t, es, p, i) == AdmittedAt(t, es[..|es| - 1], p, i)
  {
    hide Check;
    assert es[..|es| - 1][..i] == es[..i];
  }

  lemma StepOnline(t: Tables, e: Event, p: (string, string))
    requires !e.Report? && (e.Sync? ==> e.deleted == {})
    ensures IsOnline(Step(t, e).online, p) <==>
            IsOnline(t.online, p) ||
            (Tries(e, p.1) && e.key == p.0 && Check(t, e.key, e.ip, e.tcp, e.now).1.Admit?)
  {
    hide Check, Normal, StoreLimits, StoreUids;
    if e.Connect? {
      EffectOnAddresses(t, e.key, e.ip, e.tcp, e.now);
    }
  }

  /** Since an empty table, with nobody deleted, exactly the pairs admitted over TCP are online. */
  lemma {:induction false} OnlineIsWhatWasAdmitted(t: Tables, es: seq<Event>, p: (string, string))
    requires t.online == map[]
    requires forall i :: 0 <= i < |es| ==> !es[i].Report? && (es[i].Sync? ==> es[i].deleted == {})
    ensures IsOnline(After(t, es).online, p) <==> AdmittedAs(t, es, p)
  {
    if es != [] {
      hide Check, IsOnline;
      var n := |es| - 1;
      OnlineIsWhatWasAdmitted(t, es[..n], p);
      AdmittedAsNext(t, es, p);
      StepOnline(After(t, es[..n]), es[n], p);
    } else {
      assert !IsOnline(t.online, p);
    }
  }

  /** The period's first connection admitted as this pair. */
  ghost predicate FirstAdmission(t: Tables, es: seq<Event>, p: (string, string), i: nat) {
    i < |es| && AdmittedAt(t, es, p, i) && forall j :: 0 <= j < i ==> !AdmittedAt(t, es, p, j)
  }

  /** This is the uid the pair's user had when the pair was first admitted. */
  ghost predicate UidAtFirst(t: Tables, es: seq<Event>, p: (string, string), uid: int) {
    exists i :: FirstAdmission(t, es, p, i) && p.0 in Before(t, es, i).info && uid == Before(t, es, i).info[p.0].uid
  }

  lemma StepKeepsUid(t: Tables, e: Event, p: (string, string))
    requires !e.Report? && (e.Sync? ==> e.deleted == {})
    ensures IsOnline(t.online, p) ==> UidOf(Step(t, e).online, p) == UidOf(t.online, p)
    ensures !IsOnline(t.online, p) && IsOnline(Step(t, e).online, p) ==>
            p.0 in t.info && UidOf(Step(t, e).online, p) == t.info[p.0].uid
  {
    hide Check, Normal, StoreLimits, StoreUids;
    if e.Connect? {
      EffectOnAddresses(t, e.key, e.ip, e.tcp, e.now);
    }
  }

  lemma FirstStaysFirst(t: Tables, es: seq<Event>, p: (string, string), i: nat)
    requires es != [] && FirstAdmission(t, es[..|es| - 1], p, i)
    ensures FirstAdmission(t, es, p, i) && Before(t, es, i) == Before(t, es[..|es| - 1], i)
  {
    hide AdmittedAt;
    assert es[..|es| - 1][..i] == es[..i];
    forall j | 0 <= j <= i
      ensures AdmittedAt(t, es, p, j) == AdmittedAt(t, es[..|es| - 1], p, j)
    {
      AdmittedEarlier(t, es, p, j);
    }
  }

  /** An online pair carries the uid its user had when the pair was first admitted. */
  lemma {:induction false} UidOfFirstAdmission(t: Tables, es: seq<Event>, p: (string, string)) returns (i: nat)
    requires t.online == map[]
    requires forall i :: 0 <= i < |es| ==> !es[i].Report? && (es[i].Sync? ==> es[i].deleted == {})
    requires IsOnline(After(t, es).online, p)
    ensures FirstAdmission(t, es, p, i)
    ensures p.0 in Before(t, es, i).info && UidOf(After(t, es).online, p) == Before(t, es, i).info[p.0].uid
  {
    hide Step, AdmittedAt, IsOnline, UidOf;
    if es == [] {
      NobodyOnline(t, p);
      assert false;
    } else {
      var n := |es| - 1;
      var s := After(t, es[..n]);
      StepKeepsUid(s, es[n], p);
      if IsOnline(s.online, p) {
        i := UidOfFirstAdmission(t, es[..n], p);
        FirstStaysFirst(t, es, p, i);
      } else {
        i := n;
        OnlineIsWhatWasAdmitted(t, es, p);
        OnlineIsWhatWasAdmitted(t, es[..n], p);
        AdmittedAsNext(t, es, p);
        forall j | 0 <= j < n
          ensures !AdmittedAt(t, es, p, j)
        {
          AdmittedEarlier(t, es, p, j);
        }
      }
    }
  }

  lemma NobodyOnline(t: Tables, p: (string, string))
    requires t.online == map[]
    ensures !IsOnline(t.online, p)
  {
  }

  /** The report that ends such a period lists each admitted pair once and nothing else,
      under the uid its user had at the pair's first admission, and leaves the online table empty. */
  lemma OnlineReportIsExact(t: Tables, es: seq<Event>, order: seq<(string, string)>)
    requires t.online == map[]
    requires forall i :: 0 <= i < |es| ==> !es[i].Report? && (es[i].Sync? ==> es[i].deleted == {})
    requires Enumerates(order, After(t, es).online)
    ensures forall p :: AdmittedAs(t, es, p) <==> multiset(order)[p] == 1
    ensures forall p :: multiset(order)[p] <= 1
    ensures |ListOf(After(t, es).online, order)| == |order|
    ensures forall k :: 0 <= k < |order| ==> ListOf(After(t, es).online, order)[k].ip == order[k].1
    ensures forall k :: 0 <= k < |order| ==> UidAtFirst(t, es, order[k], ListOf(After(t, es).online, order)[k].uid)
    ensures (forall i :: 0 <= i < |es| ==> !es[i].Sync?) ==>
              forall k :: 0 <= k < |order| ==>
                  order[k].0 in t.info && ListOf(After(t, es).online, order)[k].uid == t.info[order[k].0].uid
    ensures Rotate(After(t, es), order).online == map[]
  {
    forall p
      ensures AdmittedAs(t, es, p) <==> multiset(order)[p] == 1
      ensures multiset(order)[p] <= 1
    {
      OnlineIsWhatWasAdmitted(t, es, p);
      OccursOnce(order, p);
    }
    ReportedUids(t, es, order);
  }

  lemma ReportedUids(t: Tables, es: seq<Event>, order: seq<(string, string)>)
    requires t.online == map[]
    requires forall i :: 0 <= i < |es| ==> !es[i].Report? && (es[i].Sync? ==> es[i].deleted == {})
    requires Enumerates(order, After(t, es).online)
    ensures forall k :: 0 <= k < |order| ==> UidAtFirst(t, es, order[k], ListOf(After(t, es).online, order)[k].uid)
    ensures (forall i :: 0 <= i < |es| ==> !es[i].Sync?) ==>
              forall k :: 0 <= k < |order| ==>
                  order[k].0 in t.info && ListOf(After(t, es).online, order)[k].uid == t.info[order[k].0].uid
  {
    var s := After(t, es);
    if forall i :: 0 <= i < |es| ==> !es[i].Sync? {
      RecordedUids(t, es);
      forall k | 0 <= k < |order|
        ensures order[k].0 in t.info && ListOf(s.online, order)[k].uid == t.info[order[k].0].uid
      {
        assert order[k] in order;
      }
    }
    forall k | 0 <= k < |order|
      ensures UidAtFirst(t, es, order[k], ListOf(s.online, order)[k].uid)
    {
      hide FirstAdmission, After, Before, IsOnline;
      assert order[k] in order;
      var i := UidOfFirstAdmission(t, es, order[k]);
    }
  }

  lemma {:induction false} OccursOnce<T(!new)>(xs: seq<T>, x: T)
    requires Distinct(xs)
    ensures multiset(xs)[x] == if x in xs then 1 else 0
  {
    if xs != [] {
      var n := |xs| - 1;
      OccursOnce(xs[..n], x);
      assert xs == xs[..n] + [xs[n]];
    }
  }

  lemma {:induction false} RecordedUids(t: Tables, es: seq<Event>)
    requires t.online == map[] && forall i :: 0 <= i < |es| ==> !es[i].Report? && !es[i].Sync?
    ensures UidsFrom(t, After(t, es))
  {
    if es != [] {
      hide Step, UidsFrom;
      var n := |es| - 1;
      RecordedUids(t, es[..n]);
      assert !es[n].Sync? && !es[n].Report?;
      UidsStep(t, After(t, es[..n]), es[n]);
    }
  }

  /** Users still known have the uid they started with, and so has every recorded address. */
  ghost predicate UidsFrom(t: Tables, t': Tables) {
    && (forall k :: k in t'.info ==> k in t.info && t'.info[k].uid == t.info[k].uid)
    && (forall k, a :: k in t'.online && a in t'.online[k] ==> k in t.info && t'.online[k][a] == t.info[k].uid)
  }

  lemma UidsStep(t: Tables, s: Tables, e: Event)
    requires UidsFrom(t, s) && !e.Report? && !e.Sync?
    ensures UidsFrom(t, Step(s, e))
  {
    hide Check, Normal;
    if e.Connect? {
      EffectOnAddresses(s, e.key, e.ip, e.tcp, e.now);
      EffectOnLimits(s, e.key, e.ip, e.tcp, e.now);
    }
  }

  // ---------------------------------------------------------------------------
  // Rate buckets
  // ---------------------------------------------------------------------------

  /** The rate a user's own limit and the node's limit call for; no bucket when it is not positive. */
  function Due(nodeSpeed: int, speed: int): int {
    Rate(nodeSpeed, DetermineSpeedLimit(speed, 0))
  }

  ghost predicate NoDynamic(t: Tables) {
    forall k :: k in t.info ==> t.info[k].expire == 0 && t.info[k].dynamicSpeed == 0
  }

  ghost predicate Coherent(t: Tables) {
    forall k :: k in t.buckets ==> k in t.info && t.buckets[k] == Due(t.nodeSpeed, t.info[k].speed) > 0
  }

  /** Of two limits in megabits a second the smaller one that limits at all; zero does not limit. */
  function SmallerLimit(a: int, b: int): int {
    if a == 0 then b else if b == 0 || a <= b then a else b
  }

  /** A connection under these limits in megabits: no bucket exactly when neither is positive or the node's is negative,
      else eight times its bytes a second are the bits of the smaller positive limit. */
  ghost predicate CarriesLimit(bucket: Option<int>, nodeLimit: int, userLimit: int) {
    if nodeLimit < 0 || (nodeLimit == 0 && userLimit <= 0) then bucket.None?
    else
      && bucket.Some?
      && bucket.value * 8 == 1000000 * if userLimit < 0 then nodeLimit else SmallerLimit(nodeLimit, userLimit)
  }

  /** Event `i` is a connection of this user that is admitted with a bucket. */
  ghost predicate Throttles(t: Tables, es: seq<Event>, key: string, i: nat)
    requires i < |es|
  {
    es[i].Connect? && es[i].key == key && GivenTo(t, es, i).Admit? && GivenTo(t, es, i).bucket.Some?
  }

  function GivenTo(t: Tables, es: seq<Event>, i: nat): Verdict
    requires i < |es| && es[i].Connect?
  {
    Check(Before(t, es, i), es[i].key, es[i].ip, es[i].tcp, es[i].now).1
  }

  lemma BucketStep(t: Tables, e: Event, key: string)
    requires e.Sync? ==> key !in KeysOf(e.tag, e.deleted)
    ensures key in t.buckets ==> key in Step(t, e).buckets && Step(t, e).buckets[key] == t.buckets[key]
    ensures e.Connect? && e.key == key ==>
              var (t', v) := Check(t, e.key, e.ip, e.tcp, e.now);
              v.Admit? && v.bucket.Some? ==> key in t'.buckets && v.bucket == Some(t'.buckets[key])
  {
    hide Check, Normal, StoreLimits, StoreUids, PastOf, Rate;
    if e.Connect? {
      EffectOnLimits(t, e.key, e.ip, e.tcp, e.now);
      if Check(t, e.key, e.ip, e.tcp, e.now).1.Admit? {
        var mid := AdmittedEffect(t, e.key, e.ip, e.tcp, e.now);
      }
    }
  }

  lemma {:induction false} BucketStays(t: Tables, es: seq<Event>, key: string, i: nat, j: nat)
    requires i < j <= |es| && Throttles(t, es, key, i)
    requires forall k :: i < k < j && es[k].Sync? ==> key !in KeysOf(es[k].tag, es[k].deleted)
    ensures key in Before(t, es, j).buckets && GivenTo(t, es, i).bucket == Some(Before(t, es, j).buckets[key])
  {
    hide After, Check, KeysOf;
    if j > i + 1 { BucketStays(t, es, key, i, j - 1); }
    BeforeNext(t, es, j - 1);
    hide Before;
    BucketStep(Before(t, es, j - 1), es[j - 1], key);
  }

  /** All connections of a user share one bucket: over any run, until the user is deleted, whoever is admitted with a
      bucket is given the one the first was given. */
  lemma OneBucketPerUser(t: Tables, es: seq<Event>, key: string, i: nat, j: nat)
    requires i < j < |es| && Throttles(t, es, key, i) && Throttles(t, es, key, j)
    requires forall k :: i < k < j && es[k].Sync? ==> key !in KeysOf(es[k].tag, es[k].deleted)
    ensures GivenTo(t, es, i) == GivenTo(t, es, j)
  {
    BucketStays(t, es, key, i, j);
    BucketStays(t, es, key, j, j + 1);
    hide Check;
    BeforeNext(t, es, j);
    BucketStep(Before(t, es, j), es[j], key);
  }

  lemma DueCarriesLimit(nodeLimit: int, userLimit: int)
    ensures CarriesLimit(if Due(nodeLimit, userLimit) > 0 then Some(Due(nodeLimit, userLimit)) else None,
                         nodeLimit, userLimit)
  {
  }

  /** With coherent buckets an admitted connection gets exactly the rate that node and user limits call for. */
  lemma GrantedRate(t: Tables, key: string, ip: string, tcp: bool, now: int)
    requires NoDynamic(t) && Coherent(t) && Check(t, key, ip, tcp, now).1.Admit?
    ensures CarriesLimit(Check(t, key, ip, tcp, now).1.bucket, t.nodeSpeed, t.info[key].speed)
  {
    DueCarriesLimit(t.nodeSpeed, t.info[key].speed);
    hide CarriesLimit;
  }

  lemma StepKeepsCoherence(t: Tables, e: Event)
    requires NoDynamic(t) && Coherent(t) && !e.Sync? && !e.Throttled?
    ensures NoDynamic(Step(t, e)) && Coherent(Step(t, e)) && Step(t, e).info == t.info
            && Step(t, e).nodeSpeed == t.nodeSpeed
  {
    hide Check, DetermineSpeedLimit, PastOf;
    if e.Connect? {
      EffectOnLimits(t, e.key, e.ip, e.tcp, e.now);
    }
  }

  /** A dynamic limit governs a user's next connection exactly when the user has no bucket of another rate:
      a bucket already made is never replaced. */
  lemma ThrottleTakesEffectIff(t: Tables, key: string, limit: int, expire: int, ip: string, tcp: bool, now: int)
    requires key in t.info && !(expire != 0 && expire < now)
    requires Check(Throttle(t, key, limit, expire), key, ip, tcp, now).1.Admit?
    ensures var rate := Rate(t.nodeSpeed, DetermineSpeedLimit(t.info[key].speed, limit));
            Check(Throttle(t, key, limit, expire), key, ip, tcp, now).1.bucket ==
                (if rate > 0 then Some(rate) else None)
            <==> (rate > 0 && key in t.buckets ==> t.buckets[key] == rate)
    ensures t.nodeSpeed >= 0 && t.info[key].speed >= 0 && limit >= 0 && key !in t.buckets ==>
              CarriesLimit(Check(Throttle(t, key, limit, expire), key, ip, tcp, now).1.bucket, t.nodeSpeed,
                           SmallerLimit(t.info[key].speed, limit))
  {
    assert t.nodeSpeed >= 0 && t.info[key].speed >= 0 && limit >= 0 ==>
        var rate := Rate(t.nodeSpeed, DetermineSpeedLimit(t.info[key].speed, limit));
        CarriesLimit(if rate > 0 then Some(rate) else None, t.nodeSpeed, SmallerLimit(t.info[key].speed, limit));
    hide CarriesLimit;
    hide Check, DetermineSpeedLimit, Record;
    var t' := Throttle(t, key, limit, expire);
    var mid := AdmittedEffect(t', key, ip, tcp, now);
    RecordEffect(t', t'.info, key, Normal(ip), t'.info[key].uid);
  }

  /** Some stored bucket survives the update although its user's rate changes. */
  ghost predicate LeavesStaleBucket(t: Tables, tag: string, added: seq<UserInfo>, deleted: set<UserInfo>) {
    exists u :: u in added && UserTag(tag, u.uuid) in t.buckets && UserTag(tag, u.uuid) !in KeysOf(tag, deleted)
                && Due(t.nodeSpeed, u.speedLimit) != t.buckets[UserTag(tag, u.uuid)]
  }

  /** Exactly when a user update keeps the buckets coherent. */
  lemma UpdateKeepsCoherenceIff(t: Tables, tag: string, added: seq<UserInfo>, deleted: set<UserInfo>)
    requires NoDynamic(t) && Coherent(t) && DistinctUuids(added)
    ensures NoDynamic(Update(t, tag, added, deleted))
    ensures Coherent(Update(t, tag, added, deleted)) <==> !LeavesStaleBucket(t, tag, added, deleted)
  {
    var kept := Dropped(t, tag, deleted);
    var t' := Update(t, tag, added, deleted);
    StoreLimitsKeys(kept.info, tag, added);
    forall u | u in added
      ensures UserTag(tag, u.uuid) in t'.info && t'.info[UserTag(tag, u.uuid)] == LimitOf(u)
    {
      StoreLimitsExact(kept.info, tag, added, u);
    }
    forall k | k in t'.info
      ensures t'.info[k].expire == 0 && t'.info[k].dynamicSpeed == 0
    {
    }
    if !LeavesStaleBucket(t, tag, added, deleted) {
      forall k | k in t'.buckets
        ensures k in t'.info && t'.buckets[k] == Due(t'.nodeSpeed, t'.info[k].speed) > 0
      {
        if k in KeysOf(tag, set u | u in added) {
          var u :| u in (set w | w in added) && UserTag(tag, u.uuid) == k;
          assert u in added;
        }
      }
    }
  }
}
