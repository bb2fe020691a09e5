/** Values shared by every component: panel users, the composite user key, decimal rendering. */
module Common {

  datatype Option<+T> = None | Some(value: T)

  /** One user as the panel lists it. */
  datatype UserInfo = UserInfo(id: int, uuid: string, speedLimit: int, deviceLimit: int)

  function Lookup<K, V>(m: map<K, V>, k: K, default: V): V {
    if k in m then m[k] else default
  }

  ghost predicate Distinct<T(!new)>(xs: seq<T>) {
    forall i, j :: 0 <= i < j < |xs| ==> xs[i] != xs[j]
  }

  lemma Regroup<T>(a: seq<T>, b: seq<T>, c: seq<T>)
    ensures a + (b + c) == a + b + c
  {
  }

  function Uuids(users: seq<UserInfo>): set<string> {
    set u | u in users :: u.uuid
  }

  ghost predicate DistinctUuids(users: seq<UserInfo>) {
    forall i, j :: 0 <= i < j < |users| ==> users[i].uuid != users[j].uuid
  }

  /** The users by uuid; of two entries with one uuid the later wins. */
  function ByUuid(users: seq<UserInfo>): map<string, UserInfo> {
    if users == [] then map[]
    else ByUuid(users[..|users| - 1])[users[|users| - 1].uuid := users[|users| - 1]]
  }

  lemma {:induction false} ByUuidKeys(users: seq<UserInfo>)
    ensures ByUuid(users).Keys == Uuids(users)
    ensures forall x :: x in ByUuid(users) ==> ByUuid(users)[x] in users && ByUuid(users)[x].uuid == x
  {
    if users != [] {
      var n := |users| - 1;
      ByUuidKeys(users[..n]);
      assert users == users[..n] + [users[n]];
      assert Uuids(users) == Uuids(users[..n]) + {users[n].uuid};
    }
  }

  /** With distinct uuids the table holds exactly the listed users. */
  lemma ByUuidExact(users: seq<UserInfo>)
    requires DistinctUuids(users)
    ensures ByUuid(users).Keys == Uuids(users)
    ensures forall u :: u in users ==> ByUuid(users)[u.uuid] == u
  {
    ByUuidKeys(users);
    forall u | u in users
      ensures ByUuid(users)[u.uuid] == u
    {
      assert u.uuid in Uuids(users);
      var v := ByUuid(users)[u.uuid];
      var i :| 0 <= i < |users| && users[i] == u;
      var j :| 0 <= j < |users| && users[j] == v;
      assert i == j;
    }
  }

  /** No later entry has this one's uuid. */
  ghost predicate LastOfUuid(users: seq<UserInfo>, i: nat)
    requires i < |users|
  {
    forall j :: i < j < |users| ==> users[j].uuid != users[i].uuid
  }

  /** Of several entries with one uuid the table holds the last. */
  lemma {:induction false} ByUuidHoldsLast(users: seq<UserInfo>, i: nat)
    requires i < |users| && LastOfUuid(users, i)
    ensures users[i].uuid in ByUuid(users) && ByUuid(users)[users[i].uuid] == users[i]
  {
    var n := |users| - 1;
    if i < n {
      assert forall j :: 0 <= j < n ==> users[..n][j] == users[j];
      ByUuidHoldsLast(users[..n], i);
    }
  }

  // ---------------------------------------------------------------------------
  // The key that joins a node's tag and a user's uuid
  // ---------------------------------------------------------------------------

  function UserTag(tag: string, uuid: string): (key: string) {
    tag + "|" + uuid
  }

  ghost predicate NoBar(uuid: string) {
    '|' !in uuid
  }

  /** Under one tag the encoding is injective whatever the uuids are. */
  lemma SameTagInjective(tag: string, u1: string, u2: string)
    ensures UserTag(tag, u1) == UserTag(tag, u2) <==> u1 == u2
  {
    assert UserTag(tag, u1)[|tag| + 1..] == u1;
    assert UserTag(tag, u2)[|tag| + 1..] == u2;
  }

  /** The longer tag of a clashing pair continues the shorter one past a bar, and so does the other uuid. */
  ghost predicate Continues(t1: string, u1: string, t2: string, u2: string) {
    exists w: string :: t1 == t2 + "|" + w && u2 == w + "|" + u1
  }

  /** Exactly when two (tag, uuid) pairs share a key. */
  lemma KeyClash(t1: string, u1: string, t2: string, u2: string)
    ensures UserTag(t1, u1) == UserTag(t2, u2) <==>
            (t1 == t2 && u1 == u2) || Continues(t1, u1, t2, u2) || Continues(t2, u2, t1, u1)
  {
    if UserTag(t1, u1) == UserTag(t2, u2) {
      if |t1| == |t2| {
        assert UserTag(t1, u1)[..|t1|] == t1 && UserTag(t2, u2)[..|t2|] == t2;
        SameTagInjective(t1, u1, u2);
      } else if |t1| > |t2| {
        ClashSplits(t1, u1, t2, u2);
      } else {
        ClashSplits(t2, u2, t1, u1);
      }
    }
    if Continues(t1, u1, t2, u2) {
      var w :| t1 == t2 + "|" + w && u2 == w + "|" + u1;
      assert UserTag(t1, u1) == UserTag(t2, u2);
    }
    if Continues(t2, u2, t1, u1) {
      var w :| t2 == t1 + "|" + w && u1 == w + "|" + u2;
      assert UserTag(t1, u1) == UserTag(t2, u2);
    }
  }

  lemma ClashSplits(t1: string, u1: string, t2: string, u2: string)
    requires UserTag(t1, u1) == UserTag(t2, u2) && |t1| > |t2|
    ensures Continues(t1, u1, t2, u2)
  {
    var key := UserTag(t1, u1);
    var n := |t2|;
    var w := t1[n + 1..];
    assert key[..|t1|] == t1 && key[n] == '|' && key[..n] == t2;
    assert t1[..n] == t2 && t1[n] == '|';
    assert t1 == t2 + "|" + w;
    assert key[n + 1..] == u2;
    assert key[n + 1..] == w + "|" + u1;
  }

  lemma ClashNeedsBar(t1: string, u1: string, t2: string, u2: string)
    requires Continues(t1, u1, t2, u2)
    ensures !NoBar(u2)
  {
    var w :| t1 == t2 + "|" + w && u2 == w + "|" + u1;
    assert u2[|w|] == '|';
  }

  /** Uuids without a bar make the encoding injective over all tags. */
  lemma BarFreeInjective(t1: string, u1: string, t2: string, u2: string)
    requires NoBar(u1) && NoBar(u2)
    ensures UserTag(t1, u1) == UserTag(t2, u2) <==> t1 == t2 && u1 == u2
  {
    KeyClash(t1, u1, t2, u2);
    if Continues(t1, u1, t2, u2) { ClashNeedsBar(t1, u1, t2, u2); }
    if Continues(t2, u2, t1, u1) { ClashNeedsBar(t2, u2, t1, u1); }
  }

  // ---------------------------------------------------------------------------
  // Decimal rendering of an integer
  // ---------------------------------------------------------------------------

  function Digits(n: nat): (s: string)
    ensures |s| > 0 && forall i :: 0 <= i < |s| ==> '0' <= s[i] <= '9'
  {
    (if n < 10 then "" else Digits(n / 10)) + [('0' as int + n % 10) as char]
  }

  function Itoa(n: int): string {
    if n < 0 then "-" + Digits(-n) else Digits(n)
  }

  function Parse(s: string): int {
    if s == "" then 0 else 10 * Parse(s[..|s| - 1]) + (s[|s| - 1] as int - '0' as int)
  }

  lemma {:induction false} ParseDigits(n: nat)
    ensures Parse(Digits(n)) == n
  {
    var s := Digits(n);
    if n < 10 {
      assert s[..|s| - 1] == "";
    } else {
      assert s[..|s| - 1] == Digits(n / 10);
      ParseDigits(n / 10);
    }
  }

  function Atoi(s: string): int {
    if s != "" && s[0] == '-' then -Parse(s[1..]) else Parse(s)
  }

  lemma AtoiItoa(n: int)
    ensures Atoi(Itoa(n)) == n
  {
    if n < 0 {
      ParseDigits(-n);
      assert Itoa(n)[1..] == Digits(-n);
    } else {
      ParseDigits(n);
    }
  }

  lemma {:induction false} NoLeadingZero(n: nat)
    ensures Digits(n)[0] == '0' <==> n == 0
  {
    if n >= 10 { NoLeadingZero(n / 10); }
  }

  /** A minus exactly before negative numbers, then digits, the first of them zero for the number zero alone. */
  lemma ItoaShape(n: int)
    ensures Itoa(n)[0] == '-' <==> n < 0
    ensures var digits := if n < 0 then Itoa(n)[1..] else Itoa(n);
            && digits != [] && (forall i :: 0 <= i < |digits| ==> '0' <= digits[i] <= '9')
            && (digits[0] == '0' <==> n == 0)
  {
    NoLeadingZero(if n < 0 then -n else n);
  }

  lemma ItoaInjective(a: int, b: int)
    ensures Itoa(a) == Itoa(b) <==> a == b
  {
    AtoiItoa(a);
    AtoiItoa(b);
  }
}
