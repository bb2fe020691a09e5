/** The sorted list of a tag's users: one list for each user table, whatever order the table is walked in. */
module SortedUsers {
  import opened Common

  /** Byte order on strings. */
  predicate Less(a: string, b: string) {
    if b == "" then false
    else if a == "" then true
    else if a[0] != b[0] then a[0] < b[0]
    else Less(a[1..], b[1..])
  }

  lemma {:induction false} LessIsTotal(a: string, b: string)
    ensures a == b || Less(a, b) || Less(b, a)
    ensures !(Less(a, b) && Less(b, a)) && !Less(a, a)
  {
    if a != "" && b != "" && a[0] == b[0] {
      LessIsTotal(a[1..], b[1..]);
      if a[1..] == b[1..] {
        assert a == [a[0]] + a[1..] && b == [b[0]] + b[1..];
      }
    }
    if a != "" { LessIsTotal(a[1..], a[1..]); }
  }

  lemma {:induction false} LessIsTransitive(a: string, b: string, c: string)
    requires Less(a, b) && Less(b, c)
    ensures Less(a, c)
  {
    if a != "" && a[0] == b[0] == c[0] {
      LessIsTransitive(a[1..], b[1..], c[1..]);
    }
  }

  /** The strings agree up to place `k`, and there `a` ends or has the smaller byte. */
  predicate SmallerAt(a: string, b: string, k: nat) {
    k <= |a| && k < |b| && a[..k] == b[..k] && (k == |a| || a[k] < b[k])
  }

  /** The order is lexicographic by bytes, a prefix first. */
  lemma {:induction false} LessIff(a: string, b: string)
    ensures Less(a, b) <==> exists k: nat :: SmallerAt(a, b, k)
  {
    if a == "" || b == "" || a[0] != b[0] {
      assert Less(a, b) ==> SmallerAt(a, b, 0);
      assert forall k: nat :: k > 0 && k <= |a| && k <= |b| ==> a[..k][0] == a[0] && b[..k][0] == b[0];
    } else {
      LessIff(a[1..], b[1..]);
      forall k: nat
        ensures SmallerAt(a, b, k + 1) <==> SmallerAt(a[1..], b[1..], k)
      {
        ShiftedPrefixes(a, b, k);
      }
      if k: nat :| SmallerAt(a[1..], b[1..], k) {
        assert SmallerAt(a, b, k + 1);
      }
      if k: nat :| SmallerAt(a, b, k) {
        assert k != 0;
        assert SmallerAt(a, b, (k - 1) + 1);
        assert SmallerAt(a[1..], b[1..], k - 1);
      }
    }
  }

  lemma ShiftedPrefixes(a: string, b: string, k: nat)
    requires a != "" && b != "" && a[0] == b[0]
    ensures k < |a| && k < |b| ==> (a[..k + 1] == b[..k + 1] <==> a[1..][..k] == b[1..][..k])
  {
    if k < |a| && k < |b| {
      assert a[..k + 1] == [a[0]] + a[1..][..k] && b[..k + 1] == [b[0]] + b[1..][..k];
      assert a[..k + 1][1..] == a[1..][..k] && b[..k + 1][1..] == b[1..][..k];
    }
  }

  ghost predicate WellKeyed(users: map<string, UserInfo>) {
    forall x :: x in users ==> users[x].uuid == x
  }

  ghost predicate Sorted(list: seq<UserInfo>) {
    forall i, j :: 0 <= i < j < |list| ==> Less(list[i].uuid, list[j].uuid)
  }

  ghost predicate Lists(list: seq<UserInfo>, users: map<string, UserInfo>) {
    forall u :: u in list <==> u.uuid in users && users[u.uuid] == u
  }

  ghost predicate Canonical(list: seq<UserInfo>, users: map<string, UserInfo>) {
    Sorted(list) && Lists(list, users)
  }

  lemma EmptyIffEmpty(list: seq<UserInfo>, users: map<string, UserInfo>)
    requires Canonical(list, users) && WellKeyed(users)
    ensures list == [] <==> users == map[]
  {
    if list != [] { assert list[0] in list; }
    if users != map[] {
      var x :| x in users;
      assert users[x] in list;
    }
  }

  /** A user table has one canonical list. */
  lemma {:induction false} CanonicalIsUnique(a: seq<UserInfo>, b: seq<UserInfo>, users: map<string, UserInfo>)
    requires WellKeyed(users) && Canonical(a, users) && Canonical(b, users)
    ensures a == b
    decreases |a|
  {
    hide Canonical;
    EmptyIffEmpty(a, users);
    EmptyIffEmpty(b, users);
    if a != [] {
      SameHead(a, b, users);
      DropHead(a, users);
      DropHead(b, users);
      CanonicalIsUnique(a[1..], b[1..], users - {a[0].uuid});
      assert a == [a[0]] + a[1..] && b == [b[0]] + b[1..];
    }
  }

  lemma SameHead(a: seq<UserInfo>, b: seq<UserInfo>, users: map<string, UserInfo>)
    requires Canonical(a, users) && Canonical(b, users) && a != [] && b != []
    ensures a[0] == b[0]
  {
    assert a[0] in b && b[0] in a;
    var i :| 0 <= i < |b| && b[i] == a[0];
    var j :| 0 <= j < |a| && a[j] == b[0];
    LessIsTotal(a[0].uuid, b[0].uuid);
  }

  lemma DropHead(a: seq<UserInfo>, users: map<string, UserInfo>)
    requires Canonical(a, users) && a != []
    ensures Canonical(a[1..], users - {a[0].uuid})
  {
    assert a == [a[0]] + a[1..];
    forall u
      ensures u in a[1..] <==> u.uuid in users - {a[0].uuid} && users[u.uuid] == u
    {
      LessIsTotal(a[0].uuid, a[0].uuid);
      if u in a[1..] {
        var i :| 0 <= i < |a[1..]| && a[1..][i] == u;
        assert Less(a[0].uuid, a[i + 1].uuid);
        assert u in a;
      }
    }
  }

  /** Where sorting puts one more user. */
  function Insert(list: seq<UserInfo>, u: UserInfo): seq<UserInfo> {
    if list == [] || Less(u.uuid, list[0].uuid) then [u] + list
    else [list[0]] + Insert(list[1..], u)
  }

  lemma {:induction false} InsertSorts(list: seq<UserInfo>, u: UserInfo)
    requires Sorted(list) && forall v :: v in list ==> v.uuid != u.uuid
    ensures Sorted(Insert(list, u))
    ensures forall v :: v in Insert(list, u) <==> v == u || v in list
  {
    if list == [] {
    } else if Less(u.uuid, list[0].uuid) {
      forall j | 0 < j < |list|
        ensures Less(u.uuid, list[j].uuid)
      {
        LessIsTransitive(u.uuid, list[0].uuid, list[j].uuid);
      }
    } else {
      var rest := Insert(list[1..], u);
      assert list == [list[0]] + list[1..];
      InsertSorts(list[1..], u);
      LessIsTotal(list[0].uuid, u.uuid);
      forall j | 0 <= j < |rest|
        ensures Less(list[0].uuid, rest[j].uuid)
      {
        assert rest[j] in rest;
        if rest[j] != u {
          var i :| 0 <= i < |list[1..]| && list[1..][i] == rest[j];
          assert rest[j] == list[i + 1];
        }
      }
    }
  }

  lemma {:induction false} CanonicalExists(users: map<string, UserInfo>) returns (list: seq<UserInfo>)
    requires WellKeyed(users)
    ensures Canonical(list, users)
    decreases |users|
  {
    if users == map[] {
      list := [];
    } else {
      var x :| x in users;
      assert (users - {x}).Keys == users.Keys - {x};
      list := CanonicalExists(users - {x});
      InsertSorts(list, users[x]);
      list := Insert(list, users[x]);
    }
  }

  ghost function CanonicalList(users: map<string, UserInfo>): (list: seq<UserInfo>)
    requires WellKeyed(users)
    ensures Canonical(list, users)
  {
    assert exists list :: Canonical(list, users) by { var l := CanonicalExists(users); }
    var list :| Canonical(list, users);
    list
  }

  /** Collects the table's values in walk order, each into its sorted place. */
  method SortedTagUsers(users: map<string, UserInfo>) returns (list: seq<UserInfo>)
    requires WellKeyed(users)
    ensures list == CanonicalList(users)
  {
    list := [];
    var todo := users;
    while todo != map[]
      invariant todo.Keys <= users.Keys && forall x :: x in todo ==> todo[x] == users[x]
      invariant Canonical(list, users - todo.Keys)
      decreases |todo|
    {
      hide Canonical;
      var x :| x in todo;
      list := Place(list, todo[x], users - todo.Keys);
      assert (todo - {x}).Keys == todo.Keys - {x};
      assert users - (todo - {x}).Keys == (users - todo.Keys)[x := todo[x]];
      todo := todo - {x};
    }
    assert users - todo.Keys == users;
    CanonicalIsUnique(list, CanonicalList(users), users);
  }

  /** Shifts the larger entries up by one and stores the user below them. */
  method Place(list: seq<UserInfo>, u: UserInfo, ghost done: map<string, UserInfo>) returns (longer: seq<UserInfo>)
    requires Canonical(list, done) && u.uuid !in done
    ensures Canonical(longer, done[u.uuid := u])
  {
    var k := |list|;
    while k > 0 && Less(u.uuid, list[k - 1].uuid)
      invariant 0 <= k <= |list|
      invariant forall j :: k <= j < |list| ==> Less(u.uuid, list[j].uuid)
    {
      k := k - 1;
    }
    longer := list[..k] + [u] + list[k..];
    PlacedSorts(list, u, k, done);
    PlacedLists(list, u, k, done);
  }

  lemma PlacedSorts(list: seq<UserInfo>, u: UserInfo, k: nat, done: map<string, UserInfo>)
    requires Canonical(list, done) && u.uuid !in done && k <= |list|
    requires k > 0 ==> !Less(u.uuid, list[k - 1].uuid)
    requires forall j :: k <= j < |list| ==> Less(u.uuid, list[j].uuid)
    ensures Sorted(list[..k] + [u] + list[k..])
  {
    forall i | 0 <= i < k
      ensures Less(list[i].uuid, u.uuid)
    {
      assert list[k - 1] in list;
      LessIsTotal(u.uuid, list[k - 1].uuid);
      if i < k - 1 { LessIsTransitive(list[i].uuid, list[k - 1].uuid, u.uuid); }
    }
  }

  lemma PlacedLists(list: seq<UserInfo>, u: UserInfo, k: nat, done: map<string, UserInfo>)
    requires Lists(list, done) && u.uuid !in done && k <= |list|
    ensures Lists(list[..k] + [u] + list[k..], done[u.uuid := u])
  {
    hide Lists;
    forall v
      ensures v in list[..k] + [u] + list[k..] <==> v == u || v in list
    {
      assert list == list[..k] + list[k..];
    }
    ListsAlso(list, list[..k] + [u] + list[k..], u, done);
  }

  lemma ListsAlso(list: seq<UserInfo>, longer: seq<UserInfo>, u: UserInfo, done: map<string, UserInfo>)
    requires Lists(list, done) && u.uuid !in done && forall v :: v in longer <==> v == u || v in list
    ensures Lists(longer, done[u.uuid := u])
  {
  }

  // ---------------------------------------------------------------------------
  // Batches
  // ---------------------------------------------------------------------------

  lemma {:induction false} ByUuidConcat(a: seq<UserInfo>, b: seq<UserInfo>)
    ensures ByUuid(a + b) == ByUuid(a) + ByUuid(b)
  {
    if b == [] {
      assert a + b == a;
    } else {
      var n := |b| - 1;
      ByUuidConcat(a, b[..n]);
      assert (a + b)[..|a + b| - 1] == a + b[..n];
    }
  }

  lemma WellKeyedUnion(users: map<string, UserInfo>, batch: seq<UserInfo>)
    requires WellKeyed(users)
    ensures WellKeyed(users + ByUuid(batch))
  {
    ByUuidKeys(batch);
  }

  /** Two batches give the inbound the list that one concatenated batch gives. */
  lemma BatchesCompose(users: map<string, UserInfo>, a: seq<UserInfo>, b: seq<UserInfo>)
    requires WellKeyed(users)
    ensures WellKeyed(users + ByUuid(a) + ByUuid(b)) && WellKeyed(users + ByUuid(a + b))
    ensures CanonicalList(users + ByUuid(a) + ByUuid(b)) == CanonicalList(users + ByUuid(a + b))
  {
    WellKeyedUnion(users, a);
    WellKeyedUnion(users + ByUuid(a), b);
    ByUuidConcat(a, b);
    assert users + ByUuid(a) + ByUuid(b) == users + (ByUuid(a) + ByUuid(b));
  }

  /** The list holds the same users in one order only: any permuted batch with distinct uuids gives it too. */
  lemma BatchOrderIsIrrelevant(users: map<string, UserInfo>, a: seq<UserInfo>, b: seq<UserInfo>)
    requires WellKeyed(users) && DistinctUuids(a) && DistinctUuids(b) && (forall u :: u in a <==> u in b)
    ensures WellKeyed(users + ByUuid(a)) && WellKeyed(users + ByUuid(b))
    ensures CanonicalList(users + ByUuid(a)) == CanonicalList(users + ByUuid(b))
  {
    WellKeyedUnion(users, a);
    WellKeyedUnion(users, b);
    ByUuidExact(a);
    ByUuidExact(b);
    ByUuidKeys(a);
    ByUuidKeys(b);
    assert ByUuid(a) == ByUuid(b);
  }
}
