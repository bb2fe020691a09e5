/** The per-node limiter: user limits, online addresses in two generations, rate buckets. */
module Veil {
  import opened Common

  datatype UserLimit = UserLimit(uid: int, speed: int, device: int, dynamicSpeed: int, expire: int)

  datatype OnlineUser = OnlineUser(uid: int, ip: string)

  /** A bucket stands for its rate in bytes a second. */
  datatype Verdict = Reject | Admit(bucket: Option<int>)

  datatype Tables = Tables(
    nodeSpeed: int,
    online: map<string, map<string, int>>,  // user key -> address -> uid, this generation
    past: map<string, int>,                 // address -> uid, the generation last reported
    uids: map<string, int>,                 // uuid -> uid
    info: map<string, UserLimit>,           // user key -> limits
    buckets: map<string, int>,              // user key -> bucket
    alive: map<int, int>)                   // uid -> devices the panel counts as alive

  /** The smaller non-zero limit. */
  function DetermineSpeedLimit(limit1: int, limit2: int): (limit: int)
    ensures limit1 >= 0 && limit2 >= 0 ==>
              && (limit == 0 <==> limit1 == 0 && limit2 == 0)
              && (limit == limit1 || limit == limit2)
              && (limit1 > 0 ==> limit <= limit1) && (limit2 > 0 ==> limit <= limit2)
  {
    if limit1 == 0 || limit2 == 0 then
      if limit1 > limit2 then limit1 else if limit1 < limit2 then limit2 else 0
    else
      if limit1 > limit2 then limit2 else limit1
  }

  const MAPPED_PREFIX := "::ffff:"

  /** An IPv4 address written as a mapped IPv6 address loses the prefix. */
  function Normal(ip: string): string {
    if MAPPED_PREFIX <= ip then ip[|MAPPED_PREFIX|..] else ip
  }

  // ---------------------------------------------------------------------------
  // Admission of a connection
  // ---------------------------------------------------------------------------

  function Online(t: Tables, key: string): map<string, int> {
    Lookup(t.online, key, map[])
  }

  predicate Expired(u: UserLimit, now: int) {
    u.expire != 0 && u.expire < now
  }

  function UserSpeed(u: UserLimit, now: int): int {
    if Expired(u, now) then u.speed else DetermineSpeedLimit(u.speed, u.dynamicSpeed)
  }

  function Rate(nodeSpeed: int, userSpeed: int): int {
    DetermineSpeedLimit(nodeSpeed, userSpeed) * 125000
  }

  /** The panel already counts as many devices as the user may have. */
  predicate Saturated(t: Tables, key: string) {
    key in t.info && 0 < t.info[key].device <= Lookup(t.alive, t.info[key].uid, 0)
  }

  /** Neither online for this user now nor anyone's address in the last report. */
  predicate Fresh(t: Tables, key: string, ip: string) {
    ip !in Online(t, key) && ip !in t.past
  }

  /** An expired dynamic limit is cleared, or takes a user without a base limit with it. */
  function Expire(t: Tables, key: string, now: int): Tables
    requires key in t.info
  {
    var u := t.info[key];
    if !Expired(u, now) then t
    else if u.speed != 0 then t.(info := t.info[key := u.(dynamicSpeed := 0, expire := 0)])
    else t.(info := t.info - {key})
  }

  function Record(t: Tables, key: string, ip: string, uid: int): Tables {
    if ip in Online(t, key) then t
    else t.(online := t.online[key := Online(t, key)[ip := uid]],
            past := if ip in t.past && t.past[ip] == uid then t.past - {ip} else t.past)
  }

  function Grant(t: Tables, key: string, rate: int): (Tables, Verdict) {
    if rate <= 0 then (t, Admit(None))
    else if key in t.buckets then (t, Admit(Some(t.buckets[key])))
    else (t.(buckets := t.buckets[key := rate]), Admit(Some(rate)))
  }

  function Check(t: Tables, key: string, rawIp: string, tcp: bool, now: int): (Tables, Verdict) {
    if key !in t.info then (t, Reject)
    else
      var u := t.info[key];
      var expired := Expire(t, key, now);
      if tcp && Saturated(t, key) && Fresh(t, key, Normal(rawIp)) then (expired, Reject)
      else
        Grant(if tcp then Record(expired, key, Normal(rawIp), u.uid) else expired,
              key, Rate(t.nodeSpeed, UserSpeed(u, now)))
  }

  // ---------------------------------------------------------------------------
  // Rotation of the two generations
  // ---------------------------------------------------------------------------

  function UidOf(online: map<string, map<string, int>>, p: (string, string)): int {
    Lookup(Lookup(online, p.0, map[]), p.1, 0)
  }

  predicate IsOnline(online: map<string, map<string, int>>, p: (string, string)) {
    p.0 in online && p.1 in online[p.0]
  }

  /** One order in which a walk over both levels of the online table may meet its entries. */
  ghost predicate Enumerates(order: seq<(string, string)>, online: map<string, map<string, int>>) {
    && (forall p :: p in order <==> IsOnline(online, p))
    && Distinct(order)
  }

  function PastOf(online: map<string, map<string, int>>, order: seq<(string, string)>): map<string, int> {
    if order == [] then map[]
    else
      var p := order[|order| - 1];
      PastOf(online, order[..|order| - 1])[p.1 := UidOf(online, p)]
  }

  function ListOf(online: map<string, map<string, int>>, order: seq<(string, string)>): seq<OnlineUser> {
    seq(|order|, i requires 0 <= i < |order| => OnlineUser(UidOf(online, order[i]), order[i].1))
  }

  function Rotate(t: Tables, order: seq<(string, string)>): Tables {
    t.(past := PastOf(t.online, order), online := map[])
  }

  lemma {:induction false} PastKeys(online: map<string, map<string, int>>, order: seq<(string, string)>)
    ensures PastOf(online, order).Keys == set p | p in order :: p.1
  {
    if order != [] {
      var n := |order| - 1;
      PastKeys(online, order[..n]);
      assert order == order[..n] + [order[n]];
    }
  }

  // ---------------------------------------------------------------------------
  // Users coming and going
  // ---------------------------------------------------------------------------

  function LimitOf(u: UserInfo): UserLimit {
    UserLimit(u.id, u.speedLimit, u.deviceLimit, 0, 0)
  }

  function StoreLimits(info: map<string, UserLimit>, tag: string, users: seq<UserInfo>): map<string, UserLimit> {
    if users == [] then info
    else
      var u := users[|users| - 1];
      StoreLimits(info, tag, users[..|users| - 1])[UserTag(tag, u.uuid) := LimitOf(u)]
  }

  function StoreUids(uids: map<string, int>, users: seq<UserInfo>): map<string, int> {
    if users == [] then uids
    else
      var u := users[|users| - 1];
      StoreUids(uids, users[..|users| - 1])[u.uuid := u.id]
  }

  function Created(nodeSpeed: int, tag: string, users: seq<UserInfo>, alive: map<int, int>): Tables {
    Tables(nodeSpeed, map[], map[], StoreUids(map[], users), StoreLimits(map[], tag, users), map[], alive)
  }

  function KeysOf(tag: string, users: set<UserInfo>): set<string> {
    set u | u in users :: UserTag(tag, u.uuid)
  }

  function Without(t: Tables, keys: set<string>, uuids: set<string>, ids: set<int>): Tables {
    t.(info := t.info - keys, online := t.online - keys, buckets := t.buckets - keys,
       uids := t.uids - uuids, alive := t.alive - ids)
  }

  function Dropped(t: Tables, tag: string, gone: set<UserInfo>): Tables {
    Without(t, KeysOf(tag, gone), set u | u in gone :: u.uuid, set u | u in gone :: u.id)
  }

  function Update(t: Tables, tag: string, added: seq<UserInfo>, deleted: set<UserInfo>): Tables {
    var kept := Dropped(t, tag, deleted);
    kept.(info := StoreLimits(kept.info, tag, added), uids := StoreUids(kept.uids, added))
  }

  /** The loop over the deleted users, one step a user. */
  function DropUsers(t: Tables, tag: string, users: seq<UserInfo>): Tables {
    if users == [] then t
    else
      var u := users[|users| - 1];
      Without(DropUsers(t, tag, users[..|users| - 1]), {UserTag(tag, u.uuid)}, {u.uuid}, {u.id})
  }

  lemma WithoutTwice(t: Tables, keys: set<string>, uuids: set<string>, ids: set<int>,
                     keys': set<string>, uuids': set<string>, ids': set<int>)
    ensures Without(Without(t, keys, uuids, ids), keys', uuids', ids') ==
            Without(t, keys + keys', uuids + uuids', ids + ids')
  {
    assert t.info - keys - keys' == t.info - (keys + keys');
    assert t.online - keys - keys' == t.online - (keys + keys');
    assert t.buckets - keys - keys' == t.buckets - (keys + keys');
    assert t.uids - uuids - uuids' == t.uids - (uuids + uuids');
    assert t.alive - ids - ids' == t.alive - (ids + ids');
  }

  lemma {:induction false} DropUsersIsSetwise(t: Tables, tag: string, users: seq<UserInfo>)
    ensures DropUsers(t, tag, users) == Dropped(t, tag, set u | u in users)
  {
    if users != [] {
      hide Without, KeysOf;
      var n := |users| - 1;
      var u, prior := users[n], set w | w in users[..n];
      DropUsersIsSetwise(t, tag, users[..n]);
      assert (set w | w in users) == prior + {u} by { assert users == users[..n] + [u]; }
      hide DropUsers;
      DroppedNext(t, tag, prior, u);
    } else {
      NobodyDropped(t, tag);
    }
  }

  lemma NobodyDropped(t: Tables, tag: string)
    ensures Dropped(t, tag, {}) == t
  {
  }

  lemma DroppedNext(t: Tables, tag: string, gone: set<UserInfo>, u: UserInfo)
    ensures Without(Dropped(t, tag, gone), {UserTag(tag, u.uuid)}, {u.uuid}, {u.id}) == Dropped(t, tag, gone + {u})
  {
    hide Without;
    WithoutTwice(t, KeysOf(tag, gone), set w | w in gone :: w.uuid, set w | w in gone :: w.id,
                 {UserTag(tag, u.uuid)}, {u.uuid}, {u.id});
    assert KeysOf(tag, gone + {u}) == KeysOf(tag, gone) + {UserTag(tag, u.uuid)};
    assert (set w | w in gone + {u} :: w.uuid) == (set w | w in gone :: w.uuid) + {u.uuid};
    assert (set w | w in gone + {u} :: w.id) == (set w | w in gone :: w.id) + {u.id};
  }

  function Throttle(t: Tables, key: string, limit: int, expire: int): Tables {
    if key in t.info then t.(info := t.info[key := t.info[key].(dynamicSpeed := limit, expire := expire)]) else t
  }

  lemma {:induction false} StoreLimitsKeys(info: map<string, UserLimit>, tag: string, users: seq<UserInfo>)
    ensures StoreLimits(info, tag, users).Keys == info.Keys + KeysOf(tag, set u | u in users)
    ensures forall k :: k in info && k !in KeysOf(tag, set u | u in users) ==>
            StoreLimits(info, tag, users)[k] == info[k]
    ensures forall k :: k in StoreLimits(info, tag, users) && k in KeysOf(tag, set u | u in users) ==>
                          exists u :: u in users && UserTag(tag, u.uuid) == k
                              && StoreLimits(info, tag, users)[k] == LimitOf(u)
  {
    if users != [] {
      var n := |users| - 1;
      StoreLimitsKeys(info, tag, users[..n]);
      assert users == users[..n] + [users[n]];
      assert (set u | u in users) == (set u | u in users[..n]) + {users[n]};
      assert KeysOf(tag, set u | u in users) == KeysOf(tag, set u | u in users[..n]) + {UserTag(tag, users[n].uuid)};
    }
  }

  /** With distinct uuids each stored user has exactly its own limits. */
  lemma StoreLimitsExact(info: map<string, UserLimit>, tag: string, users: seq<UserInfo>, u: UserInfo)
    requires DistinctUuids(users) && u in users
    ensures UserTag(tag, u.uuid) in StoreLimits(info, tag, users)
    ensures StoreLimits(info, tag, users)[UserTag(tag, u.uuid)] == LimitOf(u)
  {
    StoreLimitsKeys(info, tag, users);
    var k := UserTag(tag, u.uuid);
    assert u in (set w | w in users);
    assert k in KeysOf(tag, set w | w in users);
    var v :| v in users && UserTag(tag, v.uuid) == k && StoreLimits(info, tag, users)[k] == LimitOf(v);
    SameTagInjective(tag, u.uuid, v.uuid);
    assert u == v by {
      var i :| 0 <= i < |users| && users[i] == u;
      var j :| 0 <= j < |users| && users[j] == v;
      assert i == j;
    }
  }

  // ---------------------------------------------------------------------------
  // The object
  // ---------------------------------------------------------------------------

  class Limiter {
    var speedLimit: int
    var userOnlineIP: map<string, map<string, int>>
    var oldUserOnline: map<string, int>
    var uuidToUID: map<string, int>
    var userLimitInfo: map<string, UserLimit>
    var speedLimiter: map<string, int>
    var aliveList: map<int, int>

    ghost function State(): Tables
      reads this
    {
      Tables(speedLimit, userOnlineIP, oldUserOnline, uuidToUID, userLimitInfo, speedLimiter, aliveList)
    }

    constructor (nodeSpeed: int, tag: string, users: seq<UserInfo>, alive: map<int, int>)
      ensures State() == Created(nodeSpeed, tag, users, alive)
    {
      speedLimit := nodeSpeed;
      userOnlineIP, oldUserOnline, speedLimiter := map[], map[], map[];
      aliveList := alive;
      var uids: map<string, int>, info: map<string, UserLimit> := map[], map[];
      for i := 0 to |users|
        invariant uids == StoreUids(map[], users[..i])
        invariant info == StoreLimits(map[], tag, users[..i])
      {
        assert users[..i + 1][..i] == users[..i];
        uids := uids[users[i].uuid := users[i].id];
        info := info[UserTag(tag, users[i].uuid) := LimitOf(users[i])];
      }
      assert users[..|users|] == users;
      uuidToUID, userLimitInfo := uids, info;
    }

    method UpdateUser(tag: string, added: seq<UserInfo>, deleted: seq<UserInfo>)
      modifies this
      ensures State() == Update(old(State()), tag, added, set u | u in deleted)
    {
      ghost var was := State();
      for i := 0 to |deleted|
        invariant State() == DropUsers(was, tag, deleted[..i])
      {
        assert deleted[..i + 1][..i] == deleted[..i];
        var key := UserTag(tag, deleted[i].uuid);
        userLimitInfo := userLimitInfo - {key};
        userOnlineIP := userOnlineIP - {key};
        speedLimiter := speedLimiter - {key};
        uuidToUID := uuidToUID - {deleted[i].uuid};
        aliveList := aliveList - {deleted[i].id};
      }
      assert deleted[..|deleted|] == deleted;
      DropUsersIsSetwise(was, tag, deleted);
      ghost var mid := State();
      for i := 0 to |added|
        invariant State() == mid.(info := StoreLimits(mid.info, tag, added[..i]),
                uids := StoreUids(mid.uids, added[..i]))
      {
        assert added[..i + 1][..i] == added[..i];
        userLimitInfo := userLimitInfo[UserTag(tag, added[i].uuid) := LimitOf(added[i])];
        uuidToUID := uuidToUID[added[i].uuid := added[i].id];
      }
      assert added[..|added|] == added;
    }

    method UpdateDynamicSpeedLimit(tag: string, uuid: string, limit: int, expire: int) returns (found: bool)
      modifies this
      ensures State() == Throttle(old(State()), UserTag(tag, uuid), limit, expire)
      ensures found == (UserTag(tag, uuid) in old(userLimitInfo))
    {
      var key := UserTag(tag, uuid);
      found := key in userLimitInfo;
      if found {
        userLimitInfo := userLimitInfo[key := userLimitInfo[key].(dynamicSpeed := limit, expire := expire)];
      }
    }

    /** Stores the address first and takes it back on rejection: a rejection leaves no trace. */
    method RecordOnline(taguuid: string, ip: string, u: UserLimit) returns (rejected: bool)
      modifies this
      ensures rejected == (0 < u.device <= Lookup(aliveList, u.uid, 0) && Fresh(old(State()), taguuid, ip))
      ensures State() == if rejected then old(State()) else Record(old(State()), taguuid, ip, u.uid)
    {
      var aliveIp := Lookup(aliveList, u.uid, 0);
      if taguuid in userOnlineIP {
        var ipMap := userOnlineIP[taguuid];
        if ip in ipMap {
          return false;
        }
        userOnlineIP := userOnlineIP[taguuid := ipMap[ip := u.uid]];
        if ip in oldUserOnline {
          if oldUserOnline[ip] == u.uid {
            oldUserOnline := oldUserOnline - {ip};
          }
        } else if u.device > 0 {
          if u.device <= aliveIp {
            userOnlineIP := userOnlineIP[taguuid := userOnlineIP[taguuid] - {ip}];
            assert userOnlineIP[taguuid] == ipMap;
            assert userOnlineIP == old(userOnlineIP);
            return true;
          }
        }
      } else {
        userOnlineIP := userOnlineIP[taguuid := map[ip := u.uid]];
        if ip in oldUserOnline {
          if oldUserOnline[ip] == u.uid {
            oldUserOnline := oldUserOnline - {ip};
          }
        } else if u.device > 0 {
          if u.device <= aliveIp {
            userOnlineIP := userOnlineIP - {taguuid};
            assert userOnlineIP == old(userOnlineIP);
            return true;
          }
        }
      }
      return false;
    }

    method CheckLimit(taguuid: string, rawIp: string, noSSUDP: bool, now: int) returns (verdict: Verdict)
      modifies this
      ensures (State(), verdict) == Check(old(State()), taguuid, rawIp, noSSUDP, now)
    {
      hide DetermineSpeedLimit, Normal;
      var ip := Normal(rawIp);
      if taguuid !in userLimitInfo {
        return Reject;
      }
      var u := userLimitInfo[taguuid];
      var userLimit := 0;
      if u.expire < now && u.expire != 0 {
        if u.speed != 0 {
          userLimit := u.speed;
          userLimitInfo := userLimitInfo[taguuid := u.(dynamicSpeed := 0, expire := 0)];
        } else {
          userLimitInfo := userLimitInfo - {taguuid};
        }
      } else {
        userLimit := DetermineSpeedLimit(u.speed, u.dynamicSpeed);
      }
      ghost var expired := State();
      assert expired == Expire(old(State()), taguuid, now);
      if noSSUDP {
        var rejected := RecordOnline(taguuid, ip, u);
        if rejected {
          return Reject;
        }
      }
      var limit := DetermineSpeedLimit(speedLimit, userLimit) * 1000000 / 8;
      if limit > 0 {
        if taguuid in speedLimiter {
          return Admit(Some(speedLimiter[taguuid]));
        }
        speedLimiter := speedLimiter[taguuid := limit];
        return Admit(Some(limit));
      }
      return Admit(None);
    }

    /** Reports every online pair once, in walk order, and starts a new generation. */
    method GetOnlineDevice() returns (report: seq<OnlineUser>, ghost order: seq<(string, string)>)
      modifies this
      ensures Enumerates(order, old(userOnlineIP))
      ensures State() == Rotate(old(State()), order)
      ensures report == ListOf(old(userOnlineIP), order)
    {
      ghost var was := userOnlineIP;
      report, order := [], [];
      oldUserOnline := map[];
      assert ListOf(was, []) == [];
      while userOnlineIP != map[]
        invariant State() == old(State()).(past := PastOf(was, order), online := userOnlineIP)
        invariant userOnlineIP.Keys <= was.Keys && forall k :: k in userOnlineIP ==> userOnlineIP[k] == was[k]
        invariant report == ListOf(was, order)
        invariant forall p :: p in order <==> IsOnline(was, p) && p.0 !in userOnlineIP
        invariant Distinct(order)
        decreases |userOnlineIP|
      {
        hide PastOf, ListOf;
        var taguuid :| taguuid in userOnlineIP;
        ghost var walked;
        oldUserOnline, report, walked := ReportUser(taguuid, userOnlineIP[taguuid], oldUserOnline, report, was, order);
        order := order + walked;
        assert (userOnlineIP - {taguuid}).Keys == userOnlineIP.Keys - {taguuid};
        userOnlineIP := userOnlineIP - {taguuid};
      }
    }

    /** The inner walk over one user's addresses. */
    static method ReportUser(taguuid: string, ipMap: map<string, int>, past: map<string, int>, report: seq<OnlineUser>,
                             ghost online: map<string, map<string, int>>, ghost order: seq<(string, string)>)
      returns (past': map<string, int>, report': seq<OnlineUser>, ghost walked: seq<(string, string)>)
      requires taguuid in online && online[taguuid] == ipMap && past == PastOf(online, order)
              && report == ListOf(online, order)
      requires Distinct(order) && forall p :: p in order ==> p.0 != taguuid
      ensures past' == PastOf(online, order + walked) && report' == ListOf(online, order + walked)
      ensures forall p :: p in walked <==> p.0 == taguuid && p.1 in online[taguuid]
      ensures Distinct(order + walked)
    {
      var ips := ipMap;
      past', report', walked := past, report, [];
      assert order + walked == order;
      while ips != map[]
        invariant ips.Keys <= online[taguuid].Keys && forall a :: a in ips ==> ips[a] == online[taguuid][a]
        invariant past' == PastOf(online, order + walked) && report' == ListOf(online, order + walked)
        invariant forall p :: p in walked <==> p.0 == taguuid && p.1 in online[taguuid] && p.1 !in ips
        invariant Distinct(order + walked)
        decreases |ips|
      {
        var ip :| ip in ips;
        var uid := ips[ip];
        past' := past'[ip := uid];
        report' := report' + [OnlineUser(uid, ip)];
        ghost var p := (taguuid, ip);
        Extend(online, order + walked, p);
        assert order + (walked + [p]) == (order + walked) + [p];
        walked := walked + [p];
        assert (ips - {ip}).Keys == ips.Keys - {ip};
        ips := ips - {ip};
      }
    }
  }

  lemma Extend(online: map<string, map<string, int>>, order: seq<(string, string)>, p: (string, string))
    ensures PastOf(online, order + [p]) == PastOf(online, order)[p.1 := UidOf(online, p)]
    ensures ListOf(online, order + [p]) == ListOf(online, order) + [OnlineUser(UidOf(online, p), p.1)]
  {
    assert (order + [p])[..|order|] == order;
  }
}
