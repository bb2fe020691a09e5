/** What a report sends the panel: traffic collapsed by uid, online addresses filtered and grouped by uid. */
module Report {
  import opened Common
  import opened V = Veil
  import L = Ledger

  // ---------------------------------------------------------------------------
  // Online users
  // ---------------------------------------------------------------------------

  /** The uids whose traffic in this report stays below the online threshold; uids without an entry are not among
      them. */
  function Quiet(traffic: seq<L.UserTraffic>, minKilobytes: int): set<int> {
    set t | t in traffic && L.Wrap(t.upload + t.download) < minKilobytes * 1000 :: t.uid
  }

  /** Some traffic entry of this uid has fewer bytes than the online threshold. */
  ghost predicate HasQuietEntry(traffic: seq<L.UserTraffic>, minKilobytes: int, uid: int) {
    exists i :: 0 <= i < |traffic| && traffic[i].uid == uid
                && L.Wrap(traffic[i].upload + traffic[i].download) < minKilobytes * 1000
  }

  lemma QuietIff(traffic: seq<L.UserTraffic>, minKilobytes: int, uid: int)
    ensures uid in Quiet(traffic, minKilobytes) <==> HasQuietEntry(traffic, minKilobytes, uid)
  {
    hide L.Wrap;
  }

  /** The addresses reported for one uid, in the order they were met. */
  function IpsOf(online: seq<OnlineUser>, quiet: set<int>, uid: int): seq<string> {
    if online == [] then []
    else
      var o := online[|online| - 1];
      IpsOf(online[..|online| - 1], quiet, uid) + if o.uid == uid && uid !in quiet then [o.ip] else []
  }

  /** The uids not to be counted as online. */
  method NoCountUids(traffic: seq<L.UserTraffic>, minKilobytes: int) returns (nocountUID: set<int>)
    ensures nocountUID == Quiet(traffic, minKilobytes)
    ensures forall uid :: uid in nocountUID <==> HasQuietEntry(traffic, minKilobytes, uid)
  {
    hide L.Wrap, HasQuietEntry;
    forall uid
      ensures uid in Quiet(traffic, minKilobytes) <==> HasQuietEntry(traffic, minKilobytes, uid)
    {
      QuietIff(traffic, minKilobytes, uid);
    }
    nocountUID := {};
    for i := 0 to |traffic|
      invariant nocountUID == Quiet(traffic[..i], minKilobytes)
    {
      assert traffic[..i + 1] == traffic[..i] + [traffic[i]];
      if L.Wrap(traffic[i].upload + traffic[i].download) < minKilobytes * 1000 {
        nocountUID := nocountUID + {traffic[i].uid};
      }
    }
    assert traffic[..|traffic|] == traffic;
  }

  /** A uid is sent exactly when it is online somewhere and no traffic entry of it is below the threshold, and then with
      all its addresses in the order they were met. */
  method GroupOnline(traffic: seq<L.UserTraffic>, online: seq<OnlineUser>, minKilobytes: int)
    returns (data: map<int, seq<string>>)
    ensures forall uid :: uid in data <==> IpsOf(online, Quiet(traffic, minKilobytes), uid) != []
    ensures forall uid :: uid in data ==> data[uid] == IpsOf(online, Quiet(traffic, minKilobytes), uid)
    ensures forall uid :: uid in data <==>
              (exists i :: 0 <= i < |online| && online[i].uid == uid) && !HasQuietEntry(traffic, minKilobytes, uid)
    ensures forall uid :: uid in data ==> data[uid] == IpsOf(online, {}, uid)
  {
    hide Quiet, HasQuietEntry;
    ghost var quiet := Quiet(traffic, minKilobytes);
    var nocountUID := NoCountUids(traffic, minKilobytes);
    var result: seq<OnlineUser> := [];
    for i := 0 to |online|
      invariant forall uid :: IpsOf(result, {}, uid) == IpsOf(online[..i], quiet, uid)
    {
      assert online[..i + 1][..i] == online[..i];
      if online[i].uid !in nocountUID {
        assert (result + [online[i]])[..|result|] == result;
        result := result + [online[i]];
      }
    }
    assert online[..|online|] == online;
    data := map[];
    for i := 0 to |result|
      invariant forall uid :: uid in data <==> IpsOf(result[..i], {}, uid) != []
      invariant forall uid :: uid in data ==> data[uid] == IpsOf(result[..i], {}, uid)
    {
      assert result[..i + 1][..i] == result[..i];
      var o := result[i];
      data := data[o.uid := Lookup(data, o.uid, []) + [o.ip]];
    }
    assert result[..|result|] == result;
    forall uid
      ensures uid in data <==>
              (exists i :: 0 <= i < |online| && online[i].uid == uid) && !HasQuietEntry(traffic, minKilobytes, uid)
      ensures uid in data ==> IpsOf(online, quiet, uid) == IpsOf(online, {}, uid)
    {
      QuietIff(traffic, minKilobytes, uid);
      IpsUnfiltered(online, quiet, uid);
    }
  }

  lemma {:induction false} IpsUnfiltered(online: seq<OnlineUser>, quiet: set<int>, uid: int)
    ensures IpsOf(online, quiet, uid) == if uid in quiet then [] else IpsOf(online, {}, uid)
    ensures IpsOf(online, {}, uid) != [] <==> exists i :: 0 <= i < |online| && online[i].uid == uid
  {
    if online != [] {
      var n := |online| - 1;
      IpsUnfiltered(online[..n], quiet, uid);
      hide IpsOf;
      IpsNext(online, quiet, uid);
      IpsNext(online, {}, uid);
      assert forall i :: 0 <= i < n ==> online[..n][i] == online[i];
    }
  }

  lemma IpsNext(online: seq<OnlineUser>, quiet: set<int>, uid: int)
    requires online != []
    ensures var n := |online| - 1;
            IpsOf(online, quiet, uid) ==
            if online[n].uid == uid && uid !in quiet then IpsOf(online[..n], quiet, uid) + [online[n].ip]
            else IpsOf(online[..n], quiet, uid)
  {
  }

  function Occurrences<T(==)>(xs: seq<T>, x: T): nat {
    if xs == [] then 0 else Occurrences(xs[..|xs| - 1], x) + if xs[|xs| - 1] == x then 1 else 0
  }

  /** Grouping keeps every entry that is not filtered, with its multiplicity, and nothing else. */
  lemma {:induction false} GroupingKeepsMultiplicity(online: seq<OnlineUser>, quiet: set<int>, uid: int, ip: string)
    ensures Occurrences(IpsOf(online, quiet, uid), ip) == if uid in quiet then 0
            else Occurrences(online, OnlineUser(uid, ip))
  {
    if online != [] {
      var n := |online| - 1;
      GroupingKeepsMultiplicity(online[..n], quiet, uid, ip);
      var before := IpsOf(online[..n], quiet, uid);
      if online[n].uid == uid && uid !in quiet {
        assert (before + [online[n].ip])[..|before|] == before;
      } else {
        assert before + [] == before;
      }
    }
  }

  // ---------------------------------------------------------------------------
  // Traffic
  // ---------------------------------------------------------------------------

  /** The body of the traffic report: one entry a uid, a later one replacing an earlier. */
  method CollapseTraffic(traffic: seq<L.UserTraffic>) returns (data: map<int, L.UserTraffic>)
    ensures data == Collapsed(traffic)
    ensures forall uid :: uid in data <==> exists i :: 0 <= i < |traffic| && traffic[i].uid == uid
    ensures forall i :: 0 <= i < |traffic| && LastOfUid(traffic, i) ==> data[traffic[i].uid] == traffic[i]
  {
    data := map[];
    for i := 0 to |traffic|
      invariant data == Collapsed(traffic[..i])
    {
      assert traffic[..i + 1][..i] == traffic[..i];
      data := data[traffic[i].uid := traffic[i]];
    }
    assert traffic[..|traffic|] == traffic;
    CollapsedKeys(traffic);
    forall i | 0 <= i < |traffic| && LastOfUid(traffic, i)
      ensures traffic[i].uid in data && data[traffic[i].uid] == traffic[i]
    {
      LastIsKept(traffic, i);
    }
  }

  ghost predicate LastOfUid(traffic: seq<L.UserTraffic>, i: nat)
    requires i < |traffic|
  {
    forall j :: i < j < |traffic| ==> traffic[j].uid != traffic[i].uid
  }

  lemma {:induction false} LastIsKept(traffic: seq<L.UserTraffic>, i: nat)
    requires i < |traffic| && LastOfUid(traffic, i)
    ensures traffic[i].uid in Collapsed(traffic) && Collapsed(traffic)[traffic[i].uid] == traffic[i]
  {
    var n := |traffic| - 1;
    if i < n {
      assert forall j :: 0 <= j < n ==> traffic[..n][j] == traffic[j];
      LastIsKept(traffic[..n], i);
    }
  }

  function Collapsed(traffic: seq<L.UserTraffic>): map<int, L.UserTraffic> {
    if traffic == [] then map[]
    else Collapsed(traffic[..|traffic| - 1])[traffic[|traffic| - 1].uid := traffic[|traffic| - 1]]
  }

  function Bytes(t: L.UserTraffic): int {
    t.upload + t.download
  }

  ghost function SomeKey<K, T>(m: map<K, T>): (k: K)
    requires m != map[]
    ensures k in m
  {
    var k :| k in m;
    k
  }

  ghost function MapTotal(data: map<int, L.UserTraffic>): int {
    if data == map[] then 0
    else
      var uid := SomeKey(data);
      Bytes(data[uid]) + MapTotal(data - {uid})
  }

  lemma {:induction false} MapTotalWithout(data: map<int, L.UserTraffic>, uid: int)
    requires uid in data
    ensures MapTotal(data) == Bytes(data[uid]) + MapTotal(data - {uid})
    decreases |data|
  {
    var k := SomeKey(data);
    if k != uid {
      hide MapTotal;
      assert (data - {k}).Keys == data.Keys - {k} && (data - {uid}).Keys == data.Keys - {uid};
      MapTotalWithout(data - {k}, uid);
      MapTotalWithout(data - {uid}, k);
      assert data - {k} - {uid} == data - {uid} - {k};
    }
  }

  lemma MapTotalUpdate(data: map<int, L.UserTraffic>, t: L.UserTraffic)
    ensures MapTotal(data[t.uid := t]) == MapTotal(data) + Bytes(t) - if t.uid in data then Bytes(data[t.uid]) else 0
  {
    hide MapTotal;
    MapTotalWithout(data[t.uid := t], t.uid);
    assert data[t.uid := t] - {t.uid} == data - {t.uid};
    if t.uid in data {
      MapTotalWithout(data, t.uid);
    } else {
      assert data - {t.uid} == data;
    }
  }

  ghost predicate DistinctUids(traffic: seq<L.UserTraffic>) {
    forall i, j :: 0 <= i < j < |traffic| ==> traffic[i].uid != traffic[j].uid
  }

  lemma {:induction false} CollapsedKeys(traffic: seq<L.UserTraffic>)
    ensures forall uid :: uid in Collapsed(traffic) <==> exists i :: 0 <= i < |traffic| && traffic[i].uid == uid
    ensures forall uid :: uid in Collapsed(traffic) ==> Collapsed(traffic)[uid] in traffic
  {
    if traffic != [] {
      var n := |traffic| - 1;
      CollapsedKeys(traffic[..n]);
      assert forall i :: 0 <= i < n ==> traffic[..n][i] == traffic[i];
    }
  }

  lemma DistinctUidsNext(traffic: seq<L.UserTraffic>)
    requires traffic != []
    ensures var n := |traffic| - 1;
            DistinctUids(traffic) <==> DistinctUids(traffic[..n]) && traffic[n].uid !in Collapsed(traffic[..n])
  {
    var n := |traffic| - 1;
    CollapsedKeys(traffic[..n]);
    assert forall i :: 0 <= i < n ==> traffic[..n][i] == traffic[i];
  }

  lemma {:induction false} CollapseLoses(traffic: seq<L.UserTraffic>)
    requires forall i :: 0 <= i < |traffic| ==> Bytes(traffic[i]) > 0
    ensures MapTotal(Collapsed(traffic)) <= L.SliceTotal(traffic)
    ensures MapTotal(Collapsed(traffic)) == L.SliceTotal(traffic) <==> DistinctUids(traffic)
  {
    if traffic != [] {
      hide MapTotal;
      var n := |traffic| - 1;
      var before, t := Collapsed(traffic[..n]), traffic[n];
      CollapseLoses(traffic[..n]);
      MapTotalUpdate(before, t);
      DistinctUidsNext(traffic);
      CollapsedKeys(traffic[..n]);
      assert t.uid in before ==> before[t.uid] in traffic[..n];
    }
  }

  /** Exactly when the panel receives every reported byte: when no two entries share a uid.
      Entries of a collection are positive whenever the threshold is not negative. */
  lemma CollapseKeepsTotalIff(traffic: seq<L.UserTraffic>)
    requires forall i :: 0 <= i < |traffic| ==> Bytes(traffic[i]) > 0
    ensures MapTotal(Collapsed(traffic)) == L.SliceTotal(traffic) <==> DistinctUids(traffic)
  {
    CollapseLoses(traffic);
  }

  /** From counters to panel: everything a collection reports arrives exactly when no two reported users share a uid. */
  lemma PanelGetsAllIff(c: L.Counters, lookup: string -> int, min: int, order: seq<string>)
    requires L.Walks(order, c) && L.NonNegative(c) && L.Total(c) <= L.MAX_INT64 && min >= 0
    ensures MapTotal(Collapsed(L.Slice(c, lookup, min, order))) == L.SliceTotal(L.Slice(c, lookup, min, order)) <==>
            forall k, k' ::
              L.Reported(c, lookup, min, k) && L.Reported(c, lookup, min, k') && lookup(k) == lookup(k') ==> k == k'
  {
    var keys, slice := L.ReportedKeys(c, lookup, min, order), L.Slice(c, lookup, min, order);
    TotalFits(c);
    L.ReportIsExact(c, lookup, min, order);
    assert forall i :: 0 <= i < |slice| ==> Bytes(slice[i]) > 0 by {
      assert forall i :: 0 <= i < |keys| ==> keys[i] in keys;
    }
    hide L.Slice, L.ReportedKeys, MapTotal, Collapsed;
    CollapseKeepsTotalIff(slice);
    DistinctUidsIff(slice, keys, lookup);
  }

  lemma DistinctUidsIff(slice: seq<L.UserTraffic>, keys: seq<string>, lookup: string -> int)
    requires |slice| == |keys| && Distinct(keys) && forall i :: 0 <= i < |keys| ==> slice[i].uid == lookup(keys[i])
    ensures DistinctUids(slice) <==> forall k, k' :: k in keys && k' in keys && lookup(k) == lookup(k') ==> k == k'
  {
    if DistinctUids(slice) {
      forall k, k' | k in keys && k' in keys && lookup(k) == lookup(k')
        ensures k == k'
      {
        var i :| 0 <= i < |keys| && keys[i] == k;
        var j :| 0 <= j < |keys| && keys[j] == k';
        assert slice[i].uid == slice[j].uid;
      }
    } else {
      var i, j :| 0 <= i < j < |slice| && slice[i].uid == slice[j].uid;
      assert keys[i] in keys && keys[j] in keys && keys[i] != keys[j];
    }
  }

  /** Two users under uid 1 with 5 and 7 bytes: the panel receives one of the two entries. */
  lemma SharedUidLosesBytes(lookup: string -> int)
    requires lookup("a") == lookup("b") == 1
    ensures var c: L.Counters := map["a" := L.Traffic(5, 0), "b" := L.Traffic(7, 0)];
            var slice := L.Slice(c, lookup, 0, ["a", "b"]);
            L.SliceTotal(slice) == 12 && MapTotal(Collapsed(slice)) == 7
  {
    var c: L.Counters := map["a" := L.Traffic(5, 0), "b" := L.Traffic(7, 0)];
    var x, y := L.UserTraffic(1, 5, 0), L.UserTraffic(1, 7, 0);
    L.SliceNext(c, lookup, 0, [], "a");
    L.SliceNext(c, lookup, 0, ["a"], "b");
    assert [] + ["a"] == ["a"] && ["a"] + ["b"] == ["a", "b"];
    assert L.Slice(c, lookup, 0, ["a", "b"]) == [x, y];
    hide L.Slice, MapTotal;
    TwoEntries(x, y);
  }

  lemma TwoEntries(x: L.UserTraffic, y: L.UserTraffic)
    requires x.uid == y.uid
    ensures L.SliceTotal([x, y]) == Bytes(x) + Bytes(y) && MapTotal(Collapsed([x, y])) == Bytes(y)
  {
    hide MapTotal;
    assert [x, y][..1] == [x] && [x][..0] == [];
    assert L.SliceTotal([x]) == Bytes(x) && L.SliceTotal([x, y]) == L.SliceTotal([x]) + Bytes(y);
    assert Collapsed([x]) == map[x.uid := x];
    assert Collapsed([x, y]) == map[][y.uid := y];
    MapTotalUpdate(map[], y);
    EmptyTotal();
  }

  lemma EmptyTotal()
    ensures MapTotal(map[]) == 0
  {
  }

  lemma TotalFits(c: L.Counters)
    requires L.NonNegative(c) && L.Total(c) <= L.MAX_INT64
    ensures L.Fits(c)
  {
    forall k | k in c
      ensures c[k].up + c[k].down <= 0x7FFF_FFFF_FFFF_FFFF
    {
      L.TotalWithout(c, k);
      L.SubTotal(c, c - {k});
    }
  }
}
