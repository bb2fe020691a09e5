/** The diff of two panel user lists. */
module UserDiff {
  import opened Common

  /** Users are compared by this rendering of (uuid, speed limit): no separator, nothing else. */
  function DiffKey(user: UserInfo): string {
    KeyOf(user.uuid, user.speedLimit)
  }

  function KeyOf(uuid: string, speedLimit: int): string {
    uuid + Itoa(speedLimit)
  }

  function DiffKeys(users: seq<UserInfo>): set<string> {
    set u | u in users :: DiffKey(u)
  }

  /** The last entry listed under each key. */
  function Latest(users: seq<UserInfo>): map<string, UserInfo> {
    if users == [] then map[]
    else Latest(users[..|users| - 1])[DiffKey(users[|users| - 1]) := users[|users| - 1]]
  }

  /** What is left of `after` once each key in `known` has absorbed one entry. */
  function Added(known: set<string>, after: seq<UserInfo>): seq<UserInfo> {
    if after == [] then []
    else if DiffKey(after[0]) in known then Added(known - {DiffKey(after[0])}, after[1..])
    else [after[0]] + Added(known, after[1..])
  }

  function Deleted(before: seq<UserInfo>, after: seq<UserInfo>): set<UserInfo> {
    set k | k in Latest(before) && k !in DiffKeys(after) :: Latest(before)[k]
  }

  /** Every index in `m` is the last position of its key in `users`. */
  ghost predicate Points(m: map<string, nat>, users: seq<UserInfo>) {
    forall k :: k in m ==> m[k] < |users| && k in Latest(users) && Latest(users)[k] == users[m[k]]
  }

  lemma {:induction false} LatestKeys(users: seq<UserInfo>)
    ensures Latest(users).Keys == DiffKeys(users)
    ensures forall k :: k in Latest(users) ==> DiffKey(Latest(users)[k]) == k
  {
    hide DiffKey;
    if users != [] {
      LatestKeys(users[..|users| - 1]);
      assert users == users[..|users| - 1] + [users[|users| - 1]];
    }
  }

  method IndexUsers(users: seq<UserInfo>) returns (m: map<string, nat>)
    ensures m.Keys == Latest(users).Keys && Points(m, users)
  {
    hide DiffKey;
    m := map[];
    for i := 0 to |users|
      invariant m.Keys == Latest(users[..i]).Keys && Points(m, users[..i])
    {
      m := m[DiffKey(users[i]) := i];
      assert users[..i + 1][..i] == users[..i];
    }
    assert users[..|users|] == users;
  }

  lemma PointsAt(m: map<string, nat>, users: seq<UserInfo>, key: string)
    requires Points(m, users) && key in m
    ensures m[key] < |users| && key in Latest(users) && users[m[key]] == Latest(users)[key]
  {
    hide Latest;
  }

  /** A walk over `m` has met `keys` and has still to meet `todo`. */
  ghost predicate Walking(m: map<string, nat>, todo: map<string, nat>, keys: seq<string>) {
    && todo.Keys <= m.Keys && (forall k :: k in todo ==> todo[k] == m[k])
    && Distinct(keys) && forall k :: k in keys <==> k in m && k !in todo
  }

  lemma WalkNext(m: map<string, nat>, todo: map<string, nat>, keys: seq<string>, key: string)
    requires Walking(m, todo, keys) && key in todo
    ensures Walking(m, todo - {key}, keys + [key]) && key in m && todo[key] == m[key]
    ensures |todo - {key}| < |todo|
  {
    assert (todo - {key}).Keys == todo.Keys - {key};
  }

  /** The entries met under these keys. */
  ghost predicate Entries(users: seq<UserInfo>, keys: seq<string>, left: seq<UserInfo>) {
    |keys| == |left| && forall i :: 0 <= i < |keys| ==> keys[i] in Latest(users) && left[i] == Latest(users)[keys[i]]
  }

  lemma EntriesNext(users: seq<UserInfo>, keys: seq<string>, left: seq<UserInfo>, key: string, u: UserInfo)
    requires Entries(users, keys, left) && key in Latest(users) && u == Latest(users)[key]
    ensures Entries(users, keys + [key], left + [u])
  {
    hide Latest;
  }

  /** Appends the users the map still points at, in map order, which is not determined. */
  method Leftovers(users: seq<UserInfo>, m: map<string, nat>) returns (left: seq<UserInfo>)
    requires Points(m, users)
    ensures (set u | u in left) == (set k | k in m :: Latest(users)[k])
    ensures forall i, j :: 0 <= i < j < |left| ==> left[i] != left[j]
  {
    left := [];
    ghost var keys: seq<string> := [];
    var todo := m;
    while todo != map[]
      invariant Walking(m, todo, keys) && Entries(users, keys, left)
      decreases |todo|
    {
      hide Points, Walking, Entries, Latest;
      var key :| key in todo;
      WalkNext(m, todo, keys, key);
      PointsAt(m, users, key);
      EntriesNext(users, keys, left, key, users[todo[key]]);
      left := left + [users[todo[key]]];
      keys := keys + [key];
      todo := todo - {key};
    }
    LeftByKeys(users, m, keys, left);
  }

  lemma LeftByKeys(users: seq<UserInfo>, m: map<string, nat>, keys: seq<string>, left: seq<UserInfo>)
    requires Points(m, users) && Walking(m, map[], keys) && Entries(users, keys, left)
    ensures (set u | u in left) == (set k | k in m :: Latest(users)[k])
    ensures forall i, j :: 0 <= i < j < |left| ==> left[i] != left[j]
  {
    hide DiffKey, Latest;
    LatestKeys(users);
    forall i, j | 0 <= i < j < |left|
      ensures left[i] != left[j]
    {
      assert DiffKey(left[i]) == keys[i] && DiffKey(left[j]) == keys[j];
    }
    forall k | k in m
      ensures Latest(users)[k] in left
    {
      assert k in keys;
      var i :| 0 <= i < |keys| && keys[i] == k;
      assert left[i] == Latest(users)[k];
    }
  }

  /** The deletions come out in map order; their set is determined. */
  method CompareUserList(before: seq<UserInfo>, after: seq<UserInfo>)
    returns (deleted: seq<UserInfo>, added: seq<UserInfo>)
    ensures added == Added(DiffKeys(before), after)
    ensures (set u | u in deleted) == Deleted(before, after)
    ensures forall i, j :: 0 <= i < j < |deleted| ==> deleted[i] != deleted[j]
  {
    hide DiffKey, DiffKeys, Latest, Added, Deleted, Points;
    var oldMap := IndexUsers(before);
    LatestKeys(before);
    NoKeys(after);
    added := [];
    for i := 0 to |after|
      invariant oldMap.Keys == DiffKeys(before) - DiffKeys(after[..i]) && Points(oldMap, before)
      invariant added + Added(oldMap.Keys, after[i..]) == Added(DiffKeys(before), after)
    {
      var key := DiffKey(after[i]);
      KeysNext(after, i);
      AddedNext(oldMap.Keys, after, i);
      PointsWithout(oldMap, before, key);
      if key !in oldMap {
        added := added + [after[i]];
      } else {
        oldMap := oldMap - {key};
      }
    }
    AddedDone(oldMap.Keys, after);
    deleted := Leftovers(before, oldMap);
    LeftoversAreDeleted(before, after, oldMap);
  }

  lemma NoKeys(users: seq<UserInfo>)
    ensures DiffKeys(users[..0]) == {} && users[0..] == users
  {
  }

  lemma KeysNext(users: seq<UserInfo>, i: nat)
    requires i < |users|
    ensures DiffKeys(users[..i + 1]) == DiffKeys(users[..i]) + {DiffKey(users[i])}
  {
    hide DiffKey;
    assert users[..i + 1] == users[..i] + [users[i]];
  }

  lemma AddedNext(known: set<string>, after: seq<UserInfo>, i: nat)
    requires i < |after|
    ensures Added(known, after[i..]) ==
            if DiffKey(after[i]) in known then Added(known - {DiffKey(after[i])}, after[i + 1..])
            else [after[i]] + Added(known, after[i + 1..])
  {
    hide DiffKey;
    assert after[i..][1..] == after[i + 1..];
  }

  lemma AddedDone(known: set<string>, after: seq<UserInfo>)
    ensures Added(known, after[|after|..]) == [] && after[..|after|] == after
  {
  }

  lemma PointsWithout(m: map<string, nat>, users: seq<UserInfo>, key: string)
    requires Points(m, users)
    ensures Points(m - {key}, users) && (m - {key}).Keys == m.Keys - {key}
  {
    hide Latest;
  }

  lemma LeftoversAreDeleted(before: seq<UserInfo>, after: seq<UserInfo>, left: map<string, nat>)
    requires left.Keys == DiffKeys(before) - DiffKeys(after) && Points(left, before)
    ensures (set k | k in left :: Latest(before)[k]) == Deleted(before, after)
  {
    LatestKeys(before);
    hide DiffKey, DiffKeys, Latest;
  }

  // ---------------------------------------------------------------------------
  // What applying the diff achieves
  // ---------------------------------------------------------------------------

  function Speeds(users: seq<UserInfo>): map<string, int> {
    map x | x in ByUuid(users) :: ByUuid(users)[x].speedLimit
  }

  /** The (uuid, speed) table after removing the deleted users and then storing the added ones. */
  function Applied(before: seq<UserInfo>, after: seq<UserInfo>): map<string, int> {
    (Speeds(before) - (set u | u in Deleted(before, after) :: u.uuid)) + Speeds(Added(DiffKeys(before), after))
  }

  ghost predicate ListOver(users: seq<UserInfo>, universe: iset<string>) {
    DistinctUuids(users) && forall u :: u in users ==> u.uuid in universe
  }

  /** No two uuids can be told apart only by where the decimal speed starts. */
  ghost predicate NoKeyClash(universe: iset<string>) {
    forall x, y, a, b :: x in universe && y in universe && KeyOf(x, a) == KeyOf(y, b) ==> x == y
  }

  ghost predicate EqualLengths(universe: iset<string>) {
    forall x, y :: x in universe && y in universe ==> |x| == |y|
  }

  lemma EqualLengthsNeverClash(universe: iset<string>)
    requires EqualLengths(universe)
    ensures NoKeyClash(universe)
  {
    forall x, y, a, b | x in universe && y in universe && KeyOf(x, a) == KeyOf(y, b)
      ensures x == y
    {
      assert KeyOf(x, a)[..|x|] == x && KeyOf(y, b)[..|y|] == y;
    }
  }

  ghost predicate Unmatched(user: UserInfo, others: seq<UserInfo>) {
    forall w :: w in others ==> !(w.uuid == user.uuid && w.speedLimit == user.speedLimit)
  }

  ghost predicate DistinctKeys(users: seq<UserInfo>) {
    forall i, j :: 0 <= i < j < |users| ==> DiffKey(users[i]) != DiffKey(users[j])
  }

  lemma {:induction false} AddedIsFilter(known: set<string>, after: seq<UserInfo>, v: UserInfo)
    requires DistinctKeys(after)
    ensures v in Added(known, after) <==> v in after && DiffKey(v) !in known
  {
    hide DiffKey;
    if after != [] {
      var k, rest := DiffKey(after[0]), after[1..];
      assert after == [after[0]] + rest;
      assert v in rest ==> DiffKey(v) != k;
      AddedIsFilter(if k in known then known - {k} else known, rest, v);
    }
  }

  lemma {:induction false} AddedDistinct(known: set<string>, after: seq<UserInfo>)
    requires DistinctUuids(after)
    ensures DistinctUuids(Added(known, after))
    ensures forall v :: v in Added(known, after) ==> v in after
  {
    hide DiffKey;
    if after != [] {
      var k, rest := DiffKey(after[0]), after[1..];
      AddedDistinct(if k in known then known - {k} else known, rest);
      assert forall v :: v in rest ==> v.uuid != after[0].uuid;
    }
  }

  lemma {:induction false} AddedAreNew(known: set<string>, after: seq<UserInfo>)
    ensures forall v :: v in Added(known, after) ==> v in after
  {
    hide DiffKey;
    if after != [] {
      AddedAreNew(known - {DiffKey(after[0])}, after[1..]);
      AddedAreNew(known, after[1..]);
    }
  }

  lemma {:induction false} LatestAreListed(users: seq<UserInfo>)
    ensures forall k :: k in Latest(users) ==> Latest(users)[k] in users
  {
    hide DiffKey;
    if users != [] { LatestAreListed(users[..|users| - 1]); }
  }

  lemma DeletedAreOld(before: seq<UserInfo>, after: seq<UserInfo>)
    ensures forall u :: u in Deleted(before, after) ==> u in before
  {
    LatestAreListed(before);
  }

  lemma {:induction false} LatestExact(users: seq<UserInfo>, u: UserInfo)
    requires DistinctKeys(users) && u in users
    ensures DiffKey(u) in Latest(users) && Latest(users)[DiffKey(u)] == u
  {
    hide DiffKey;
    var n := |users| - 1;
    if u != users[n] {
      assert u in users[..n];
      LatestExact(users[..n], u);
      var i :| 0 <= i < n && users[i] == u;
      assert DiffKey(users[i]) != DiffKey(users[n]);
    }
  }

  lemma KeysSeparate(users: seq<UserInfo>, others: seq<UserInfo>, universe: iset<string>)
    requires ListOver(users, universe) && ListOver(others, universe) && NoKeyClash(universe)
    ensures DistinctKeys(users)
    ensures forall u :: u in users ==> (DiffKey(u) !in DiffKeys(others) <==> Unmatched(u, others))
  {
    forall u, w | u in users && w in others
      ensures DiffKey(u) == DiffKey(w) <==> u.uuid == w.uuid && u.speedLimit == w.speedLimit
    {
      if DiffKey(u) == DiffKey(w) {
        assert u.uuid == w.uuid;
        assert DiffKey(u)[|u.uuid|..] == Itoa(u.speedLimit) && DiffKey(w)[|w.uuid|..] == Itoa(w.speedLimit);
        ItoaInjective(u.speedLimit, w.speedLimit);
      }
    }
  }

  /** Over a clash-free universe the diff is the two set differences on (uuid, speed). */
  lemma DiffExact(before: seq<UserInfo>, after: seq<UserInfo>, universe: iset<string>)
    requires ListOver(before, universe) && ListOver(after, universe) && NoKeyClash(universe)
    ensures forall u :: u in Deleted(before, after) <==> u in before && Unmatched(u, after)
    ensures forall v :: v in Added(DiffKeys(before), after) <==> v in after && Unmatched(v, before)
    ensures DistinctUuids(Added(DiffKeys(before), after))
  {
    KeysSeparate(before, after, universe);
    KeysSeparate(after, before, universe);
    AddedDistinct(DiffKeys(before), after);
    LatestKeys(before);
    forall v
      ensures v in Added(DiffKeys(before), after) <==> v in after && Unmatched(v, before)
    {
      AddedIsFilter(DiffKeys(before), after, v);
    }
    forall u
      ensures u in Deleted(before, after) <==> u in before && Unmatched(u, after)
    {
      if u in Deleted(before, after) {
        var k :| k in Latest(before) && k !in DiffKeys(after) && Latest(before)[k] == u;
        var w :| w in before && DiffKey(w) == k;
        LatestExact(before, w);
      }
      if u in before && Unmatched(u, after) {
        LatestExact(before, u);
      }
    }
  }

  lemma SpeedsExact(users: seq<UserInfo>)
    requires DistinctUuids(users)
    ensures Speeds(users).Keys == Uuids(users)
    ensures forall u :: u in users ==> Speeds(users)[u.uuid] == u.speedLimit
  {
    ByUuidExact(users);
  }

  lemma AppliedAt(before: seq<UserInfo>, after: seq<UserInfo>, universe: iset<string>, x: string)
    requires ListOver(before, universe) && ListOver(after, universe) && NoKeyClash(universe)
    ensures x in Applied(before, after) <==> x in Uuids(after)
    ensures forall v :: v in after && v.uuid == x ==>
            x in Applied(before, after) && Applied(before, after)[x] == v.speedLimit
  {
    hide DiffKey, Deleted, Added, Speeds, NoKeyClash, DiffKeys;
    DiffExact(before, after, universe);
    var added := Added(DiffKeys(before), after);
    SpeedsExact(before);
    SpeedsExact(added);
    if x in Uuids(after) {
      var v :| v in after && v.uuid == x;
      SameUser(after, v);
      if Unmatched(v, before) {
        assert v in added;
      } else {
        var u :| u in before && u.uuid == x && u.speedLimit == v.speedLimit;
        SameUser(before, u);
        assert x !in Uuids(added);
        assert forall w :: w in Deleted(before, after) ==> w.uuid != x;
      }
    } else {
      assert x !in Uuids(added);
      if x in Uuids(before) {
        var u :| u in before && u.uuid == x;
        assert u in Deleted(before, after) by { assert forall w :: w in after ==> w.uuid in Uuids(after); }
      }
    }
  }

  lemma SameUser(users: seq<UserInfo>, v: UserInfo)
    requires DistinctUuids(users) && v in users
    ensures forall w :: w in users && w.uuid == v.uuid ==> w == v
  {
  }

  lemma AppliedWhenClashFree(before: seq<UserInfo>, after: seq<UserInfo>, universe: iset<string>)
    requires ListOver(before, universe) && ListOver(after, universe) && NoKeyClash(universe)
    ensures Applied(before, after) == Speeds(after)
  {
    hide DiffKey, Applied;
    SpeedsExact(after);
    forall x
      ensures x in Applied(before, after) <==> x in Speeds(after)
      ensures x in Speeds(after) ==> x in Applied(before, after) && Applied(before, after)[x] == Speeds(after)[x]
    {
      AppliedAt(before, after, universe, x);
    }
  }

  /** Exactly when every diff over a universe of uuids brings the old table to the new one. */
  lemma DiffCorrectIff(universe: iset<string>)
    ensures (forall before, after :: ListOver(before, universe) && ListOver(after, universe) ==>
            Applied(before, after) == Speeds(after))
       <==> NoKeyClash(universe)
  {
    if NoKeyClash(universe) {
      forall before, after | ListOver(before, universe) && ListOver(after, universe)
        ensures Applied(before, after) == Speeds(after)
      {
        AppliedWhenClashFree(before, after, universe);
      }
    } else {
      var x, y, a, b :| x in universe && y in universe && KeyOf(x, a) == KeyOf(y, b) && x != y;
      var u, v := UserInfo(1, x, a, 0), UserInfo(2, y, b, 0);
      ClashingPair(u, v);
      assert ListOver([u], universe) && ListOver([v], universe);
    }
  }

  // ---------------------------------------------------------------------------
  // One diff
  // ---------------------------------------------------------------------------

  ghost predicate FirstOfKey(users: seq<UserInfo>, i: nat)
    requires i < |users|
  {
    forall j :: 0 <= j < i ==> DiffKey(users[j]) != DiffKey(users[i])
  }

  ghost predicate LastOfKey(users: seq<UserInfo>, i: nat)
    requires i < |users|
  {
    forall j :: i < j < |users| ==> DiffKey(users[j]) != DiffKey(users[i])
  }

  /** No new entry is taken for another user's old one, and every old user who is gone is seen to be gone:
      its key is not listed again and no later old entry hides it. */
  ghost predicate DiffFits(before: seq<UserInfo>, after: seq<UserInfo>) {
    && (forall i :: 0 <= i < |after| && DiffKey(after[i]) in DiffKeys(before) && FirstOfKey(after, i) ==>
        !Unmatched(after[i], before))
    && (forall i :: 0 <= i < |before| && before[i].uuid !in Uuids(after) ==>
          DiffKey(before[i]) !in DiffKeys(after) && LastOfKey(before, i))
  }

  lemma {:induction false} AddedIndex(known: set<string>, after: seq<UserInfo>, i: nat)
    requires DistinctUuids(after) && i < |after|
    ensures after[i] in Added(known, after) <==> !(DiffKey(after[i]) in known && FirstOfKey(after, i))
  {
    hide DiffKey;
    var k, rest := DiffKey(after[0]), after[1..];
    AddedDistinct(known, after);
    if i == 0 {
      AddedAreNew(known - {k}, rest);
    } else {
      AddedIndex(if k in known then known - {k} else known, rest, i - 1);
      assert rest[i - 1] == after[i];
      FirstOfRest(after, i);
    }
  }

  lemma FirstOfRest(users: seq<UserInfo>, i: nat)
    requires 0 < i < |users|
    ensures FirstOfKey(users, i) <==> DiffKey(users[0]) != DiffKey(users[i]) && FirstOfKey(users[1..], i - 1)
  {
    hide DiffKey;
    assert forall j :: 0 <= j < i - 1 ==> users[1..][j] == users[j + 1];
    if DiffKey(users[0]) != DiffKey(users[i]) && FirstOfKey(users[1..], i - 1) {
      forall j | 0 <= j < i
        ensures DiffKey(users[j]) != DiffKey(users[i])
      {
        if j > 0 { assert users[1..][j - 1] == users[j]; }
      }
    }
  }

  lemma {:induction false} LatestIndex(users: seq<UserInfo>, i: nat)
    requires DistinctUuids(users) && i < |users|
    ensures DiffKey(users[i]) in Latest(users)
            && (Latest(users)[DiffKey(users[i])] == users[i] <==> LastOfKey(users, i))
  {
    hide DiffKey;
    var n := |users| - 1;
    LatestAreListed(users[..n]);
    if i < n {
      LatestIndex(users[..n], i);
      LastOfPrefix(users, i);
      hide LastOfKey;
    }
  }

  lemma LastOfPrefix(users: seq<UserInfo>, i: nat)
    requires i < |users| - 1
    ensures LastOfKey(users, i) <==>
            DiffKey(users[|users| - 1]) != DiffKey(users[i]) && LastOfKey(users[..|users| - 1], i)
  {
    hide DiffKey;
    var n := |users| - 1;
    assert forall j :: 0 <= j < n ==> users[..n][j] == users[j];
  }

  lemma DeletedIndex(before: seq<UserInfo>, after: seq<UserInfo>, i: nat)
    requires DistinctUuids(before) && i < |before|
    ensures before[i] in Deleted(before, after) <==> DiffKey(before[i]) !in DiffKeys(after) && LastOfKey(before, i)
  {
    LatestIndex(before, i);
    LatestKeys(before);
    hide DiffKey, Latest, LastOfKey;
  }

  lemma AppliedKeys(before: seq<UserInfo>, after: seq<UserInfo>, x: string)
    ensures x in Applied(before, after) <==>
            x in Uuids(Added(DiffKeys(before), after))
                || (x in Uuids(before) && !exists u :: u in Deleted(before, after) && u.uuid == x)
  {
    hide DiffKey;
    ByUuidKeys(before);
    ByUuidKeys(Added(DiffKeys(before), after));
  }

  lemma AppliedSpeed(before: seq<UserInfo>, after: seq<UserInfo>, u: UserInfo)
    requires DistinctUuids(before) && DistinctUuids(Added(DiffKeys(before), after)) && u.uuid in Applied(before, after)
    ensures u in Added(DiffKeys(before), after) ==> Applied(before, after)[u.uuid] == u.speedLimit
    ensures u in before && u.uuid !in Uuids(Added(DiffKeys(before), after)) ==>
            Applied(before, after)[u.uuid] == u.speedLimit
  {
    hide DiffKey, Added, Deleted, Speeds;
    SpeedsExact(before);
    SpeedsExact(Added(DiffKeys(before), after));
  }

  /** A listed user has its new speed after the diff, unless its entry is taken for another user's. */
  lemma ListedIff(before: seq<UserInfo>, after: seq<UserInfo>, i: nat)
    requires DistinctUuids(before) && DistinctUuids(after) && i < |after|
    ensures (after[i].uuid in Applied(before, after)
            && Applied(before, after)[after[i].uuid] == after[i].speedLimit) <==>
            (DiffKey(after[i]) in DiffKeys(before) && FirstOfKey(after, i) ==> !Unmatched(after[i], before))
  {
    var v, added, gone := after[i], Added(DiffKeys(before), after), Deleted(before, after);
    AddedIndex(DiffKeys(before), after, i);
    AddedDistinct(DiffKeys(before), after);
    DeletedAreOld(before, after);
    KeptKey(before, after);
    AppliedKeys(before, after, v.uuid);
    SameUser(after, v);
    hide DiffKey, Added, Deleted, Applied, FirstOfKey, DiffKeys;
    assert v !in added ==> v.uuid !in Uuids(added);
    if v.uuid in Applied(before, after) { AppliedSpeed(before, after, v); }
    if v !in added && v.uuid in Uuids(before) {
      var u :| u in before && u.uuid == v.uuid;
      SameUser(before, u);
      if u.uuid in Applied(before, after) { AppliedSpeed(before, after, u); }
    }
  }

  /** An old entry whose uuid and speed are listed again is not deleted. */
  lemma KeptKey(before: seq<UserInfo>, after: seq<UserInfo>)
    ensures forall u, v :: u in Deleted(before, after) && v in after ==>
            !(u.uuid == v.uuid && u.speedLimit == v.speedLimit)
  {
    LatestKeys(before);
  }

  /** A user who is not listed is gone after the diff exactly when it is deleted. */
  lemma UnlistedIff(before: seq<UserInfo>, after: seq<UserInfo>, i: nat)
    requires DistinctUuids(before) && i < |before| && before[i].uuid !in Uuids(after)
    ensures before[i].uuid !in Applied(before, after) <==>
            DiffKey(before[i]) !in DiffKeys(after) && LastOfKey(before, i)
  {
    var u := before[i];
    DeletedIndex(before, after, i);
    DeletedAreOld(before, after);
    AddedAreNew(DiffKeys(before), after);
    AppliedKeys(before, after, u.uuid);
    SameUser(before, u);
    hide DiffKey, Added, Deleted, Applied, LastOfKey, DiffKeys;
    assert u in before;
    assert u.uuid in Uuids(before) && u.uuid !in Uuids(Added(DiffKeys(before), after));
  }

  /** Exactly when one diff of two lists with distinct uuids brings the old table to the new one, whatever the uuids
      are. */
  lemma DiffAppliesIff(before: seq<UserInfo>, after: seq<UserInfo>)
    requires DistinctUuids(before) && DistinctUuids(after)
    ensures Applied(before, after) == Speeds(after) <==> DiffFits(before, after)
  {
    SpeedsExact(after);
    AddedAreNew(DiffKeys(before), after);
    forall i | 0 <= i < |after|
      ensures (after[i].uuid in Applied(before, after)
              && Applied(before, after)[after[i].uuid] == after[i].speedLimit) <==>
              (DiffKey(after[i]) in DiffKeys(before) && FirstOfKey(after, i) ==> !Unmatched(after[i], before))
      ensures after[i].uuid in Speeds(after) && Speeds(after)[after[i].uuid] == after[i].speedLimit
    {
      ListedIff(before, after, i);
      assert after[i] in after;
    }
    forall i | 0 <= i < |before| && before[i].uuid !in Uuids(after)
      ensures before[i].uuid !in Applied(before, after) <==>
              DiffKey(before[i]) !in DiffKeys(after) && LastOfKey(before, i)
    {
      UnlistedIff(before, after, i);
    }
    hide DiffKey, Added, Deleted, Applied, LastOfKey, FirstOfKey, DiffKeys, Speeds, Unmatched;
    if DiffFits(before, after) {
      forall x
        ensures x in Applied(before, after) <==> x in Speeds(after)
        ensures x in Speeds(after) ==> Applied(before, after)[x] == Speeds(after)[x]
      {
        AppliedKeys(before, after, x);
        AtIndex(before, x);
        AtIndex(after, x);
      }
    }
  }

  lemma AtIndex(users: seq<UserInfo>, x: string)
    ensures x in Uuids(users) <==> exists i :: 0 <= i < |users| && users[i].uuid == x
  {
    if i :| 0 <= i < |users| && users[i].uuid == x { assert users[i] in users; }
  }

  /** A user replaced by one with the same rendering is neither deleted nor added. */
  lemma ClashingPair(u: UserInfo, v: UserInfo)
    requires DiffKey(u) == DiffKey(v) && u.uuid != v.uuid
    ensures Deleted([u], [v]) == {} && Added(DiffKeys([u]), [v]) == []
    ensures Applied([u], [v]) != Speeds([v])
  {
    assert [u][..0] == [] && [v][..0] == [] && [v][1..] == [];
    assert Latest([u]) == map[DiffKey(u) := u];
    assert ByUuid([u]) == map[u.uuid := u] && ByUuid([v]) == map[v.uuid := v];
    assert DiffKey(u) in DiffKeys([u]);
    assert v in [v];
    assert DiffKey(v) in DiffKeys([v]);
    assert u.uuid in Applied([u], [v]);
  }

  /** Such a pair exists: "a1" limited to 2 and "a" limited to 12. */
  lemma ClashExists()
    ensures Applied([UserInfo(1, "a1", 2, 0)], [UserInfo(2, "a", 12, 0)]) != Speeds([UserInfo(2, "a", 12, 0)])
  {
    assert Digits(2) == "2" && Digits(12) == Digits(1) + "2" && Digits(1) == "1";
    assert KeyOf("a1", 2) == "a12" && KeyOf("a", 12) == "a12";
    ClashingPair(UserInfo(1, "a1", 2, 0), UserInfo(2, "a", 12, 0));
  }
}
