/** Traffic counters and the collection that reports and drains them. */
module Ledger {
  import opened Common

  type int64 = x: int | -0x8000_0000_0000_0000 <= x <= 0x7FFF_FFFF_FFFF_FFFF

  datatype Traffic = Traffic(up: int64, down: int64)

  datatype UserTraffic = UserTraffic(uid: int, upload: int64, download: int64)

  type Counters = map<string, Traffic>

  const MAX_INT64: int := 0x7FFF_FFFF_FFFF_FFFF

  /** Two's complement 64-bit arithmetic. */
  function Wrap(x: int): int64 {
    (x + 0x8000_0000_0000_0000) % 0x1_0000_0000_0000_0000 - 0x8000_0000_0000_0000
  }

  function Load(c: Counters, key: string): Traffic {
    Lookup(c, key, Traffic(0, 0))
  }

  function Bump(c: Counters, key: string, up: int, down: int): Counters {
    c[key := Traffic(Wrap(Load(c, key).up + up), Wrap(Load(c, key).down + down))]
  }

  // ---------------------------------------------------------------------------
  // One collection
  // ---------------------------------------------------------------------------

  predicate Heavy(t: Traffic, min: int) {
    Wrap(t.up + t.down) > min
  }

  /** Over the threshold but with no uid to report it under: the counter is thrown away. */
  predicate Orphan(c: Counters, lookup: string -> int, min: int, key: string) {
    key in c && Heavy(c[key], min) && lookup(key) == 0
  }

  function Collected(c: Counters, lookup: string -> int, min: int, reset: bool): Counters {
    map k | k in c && !Orphan(c, lookup, min, k) :: if reset && Heavy(c[k], min) then Traffic(0, 0) else c[k]
  }

  function Orphans(c: Counters, lookup: string -> int, min: int): Counters {
    map k | k in c && Orphan(c, lookup, min, k) :: c[k]
  }

  /** The report, for one order in which the walk may meet the counters. */
  function Slice(c: Counters, lookup: string -> int, min: int, order: seq<string>): seq<UserTraffic> {
    if order == [] then []
    else
      var k := order[|order| - 1];
      Slice(c, lookup, min, order[..|order| - 1]) +
      if k in c && Heavy(c[k], min) && lookup(k) != 0 then [UserTraffic(lookup(k), c[k].up, c[k].down)] else []
  }

  /** The total is over the threshold in plain arithmetic, and there is a uid to report it under. */
  predicate Reported(c: Counters, lookup: string -> int, min: int, key: string) {
    key in c && c[key].up + c[key].down > min && lookup(key) != 0
  }

  /** The keys a collection reports, in walk order. */
  function ReportedKeys(c: Counters, lookup: string -> int, min: int, order: seq<string>): seq<string> {
    if order == [] then []
    else
      var k := order[|order| - 1];
      ReportedKeys(c, lookup, min, order[..|order| - 1]) + if Reported(c, lookup, min, k) then [k] else []
  }

  ghost predicate Walks(order: seq<string>, c: Counters) {
    Distinct(order) && (set k | k in order) == c.Keys
  }

  /** The walk all three cores make over a tag's counters; they differ in `lookup` and `min` only. */
  method Collect(c: Counters, lookup: string -> int, min: int, reset: bool)
    returns (c': Counters, slice: seq<UserTraffic>, ghost order: seq<string>)
    ensures Walks(order, c)
    ensures c' == Collected(c, lookup, min, reset)
    ensures slice == Slice(c, lookup, min, order)
  {
    c', slice, order := c, [], [];
    var todo := c;
    PartialDone(c, lookup, min, reset);
    while todo != map[]
      invariant todo.Keys <= c.Keys && forall k :: k in todo ==> todo[k] == c[k]
      invariant forall k :: k in order <==> k in c && k !in todo
      invariant Distinct(order)
      invariant slice == Slice(c, lookup, min, order)
      invariant c' == Partial(c, todo.Keys, lookup, min, reset)
      decreases |todo|
    {
      hide Slice, Partial, Collected, Heavy, Orphan;
      var key :| key in todo;
      c', slice := CollectOne(key, todo[key], lookup, min, reset, c', slice, c, todo.Keys, order);
      assert (todo - {key}).Keys == todo.Keys - {key};
      todo := todo - {key};
      order := order + [key];
    }
    PartialDone(c, lookup, min, reset);
  }

  /** What the walk does with one counter. */
  method CollectOne(key: string, traffic: Traffic, lookup: string -> int, min: int, reset: bool, c': Counters,
                    slice: seq<UserTraffic>,
                    ghost c: Counters, ghost todo: set<string>, ghost order: seq<string>)
    returns (c'': Counters, slice': seq<UserTraffic>)
    requires key in todo && key in c && c[key] == traffic
    requires c' == Partial(c, todo, lookup, min, reset) && slice == Slice(c, lookup, min, order)
    ensures c'' == Partial(c, todo - {key}, lookup, min, reset) && slice' == Slice(c, lookup, min, order + [key])
  {
    hide Heavy, Partial, Slice;
    PartialNext(c, todo, lookup, min, reset, key);
    SliceNext(c, lookup, min, order, key);
    c'', slice' := c', slice;
    if Heavy(traffic, min) {
      if reset {
        c'' := c''[key := Traffic(0, 0)];
      }
      if lookup(key) == 0 {
        c'' := c'' - {key};
        assert c'[key := Traffic(0, 0)] - {key} == c' - {key};
      } else {
        slice' := slice' + [UserTraffic(lookup(key), traffic.up, traffic.down)];
      }
    }
  }

  /** The counters when the walk has still to visit `todo`. */
  function Partial(c: Counters, todo: set<string>, lookup: string -> int, min: int, reset: bool): Counters {
    map k | k in c && (k in todo || !Orphan(c, lookup, min, k)) ::
      if k !in todo && reset && Heavy(c[k], min) then Traffic(0, 0) else c[k]
  }

  lemma PartialNext(c: Counters, todo: set<string>, lookup: string -> int, min: int, reset: bool, key: string)
    requires key in todo && key in c
    ensures var p := Partial(c, todo, lookup, min, reset);
            Partial(c, todo - {key}, lookup, min, reset) ==
            if !Heavy(c[key], min) then p
            else if lookup(key) == 0 then p - {key}
            else if reset then p[key := Traffic(0, 0)] else p
  {
    hide Heavy;
  }

  lemma PartialDone(c: Counters, lookup: string -> int, min: int, reset: bool)
    ensures Partial(c, {}, lookup, min, reset) == Collected(c, lookup, min, reset)
    ensures Partial(c, c.Keys, lookup, min, reset) == c
  {
    hide Heavy;
  }

  lemma SliceNext(c: Counters, lookup: string -> int, min: int, order: seq<string>, key: string)
    requires key in c
    ensures Slice(c, lookup, min, order + [key]) ==
            if Heavy(c[key], min) && lookup(key) != 0 then
              Slice(c, lookup, min, order) + [UserTraffic(lookup(key), c[key].up, c[key].down)]
            else Slice(c, lookup, min, order)
  {
    hide Heavy;
    assert (order + [key])[..|order|] == order;
  }

  /** No counter is negative, and no total passes 63 bits. */
  ghost predicate Fits(c: Counters) {
    forall k :: k in c ==> c[k].up >= 0 && c[k].down >= 0 && c[k].up + c[k].down <= 0x7FFF_FFFF_FFFF_FFFF
  }

  lemma FitsIsExact(c: Counters, min: int)
    requires Fits(c)
    ensures forall k :: k in c ==> (Heavy(c[k], min) <==> c[k].up + c[k].down > min)
  {
  }

  /** What a collection does to each counter: at or below the threshold it stays as it was, above the threshold it is
      drained when the collection drains, and thrown away when it has no uid. */
  lemma CounterAfterCollection(c: Counters, lookup: string -> int, min: int, reset: bool, key: string)
    requires Fits(c) && key in c
    ensures var c' := Collected(c, lookup, min, reset);
            && c'.Keys <= c.Keys
            && (c[key].up + c[key].down <= min ==> key in c' && c'[key] == c[key])
            && (c[key].up + c[key].down > min && lookup(key) == 0 ==> key !in c')
            && (c[key].up + c[key].down > min && lookup(key) != 0 ==>
                  key in c' && c'[key] == if reset then Traffic(0, 0) else c[key])
  {
    FitsIsExact(c, min);
    hide Heavy;
  }

  /** After a draining collection every counter left is zero or at most the threshold. */
  lemma LeftoversAreLight(c: Counters, lookup: string -> int, min: int, key: string)
    requires Fits(c) && key in Collected(c, lookup, min, true)
    ensures var left := Collected(c, lookup, min, true)[key]; left == Traffic(0, 0) || left.up + left.down <= min
  {
    FitsIsExact(c, min);
    hide Heavy;
  }

  /** The report has exactly one entry for each counter over the threshold that has a uid, with its upload and
      download under that uid, in walk order. */
  lemma {:induction false} SliceByKeys(c: Counters, lookup: string -> int, min: int, order: seq<string>)
    requires Fits(c)
    ensures var keys, slice := ReportedKeys(c, lookup, min, order), Slice(c, lookup, min, order);
            && |slice| == |keys|
            && (forall i :: 0 <= i < |keys| ==>
                  keys[i] in order && Reported(c, lookup, min, keys[i])
                  && slice[i] == UserTraffic(lookup(keys[i]), c[keys[i]].up, c[keys[i]].down))
            && (forall k :: k in order && Reported(c, lookup, min, k) ==> k in keys)
            && (Distinct(order) ==> Distinct(keys))
  {
    FitsIsExact(c, min);
    hide Heavy;
    if order != [] {
      var n := |order| - 1;
      SliceByKeys(c, lookup, min, order[..n]);
      assert order == order[..n] + [order[n]];
    }
  }

  /** A whole collection's report in numbers: exactly the keys over the threshold with a uid, each once. */
  lemma ReportIsExact(c: Counters, lookup: string -> int, min: int, order: seq<string>)
    requires Walks(order, c) && Fits(c)
    ensures var keys, slice := ReportedKeys(c, lookup, min, order), Slice(c, lookup, min, order);
            && (forall k :: k in keys <==> k in c && c[k].up + c[k].down > min && lookup(k) != 0)
            && Distinct(keys) && |slice| == |keys|
            && forall i :: 0 <= i < |keys| ==>
                   slice[i] == UserTraffic(lookup(keys[i]), c[keys[i]].up, c[keys[i]].down)
  {
    SliceByKeys(c, lookup, min, order);
    assert forall k :: k in c ==> k in (set x | x in order);
  }

  // ---------------------------------------------------------------------------
  // Totals
  // ---------------------------------------------------------------------------

  function Size(c: Counters, key: string): int {
    Load(c, key).up + Load(c, key).down
  }

  ghost function Total(c: Counters): int {
    if c == map[] then 0
    else
      var k :| k in c;
      Size(c, k) + Total(c - {k})
  }

  lemma RemoveTwo(c: Counters, k: string, key: string)
    requires k in c && key in c && k != key
    ensures c - {k} - {key} == c - {key} - {k}
    ensures |c - {k}| < |c| && |c - {key}| < |c|
    ensures Size(c - {k}, key) == Size(c, key) && Size(c - {key}, k) == Size(c, k)
  {
    assert (c - {k}).Keys == c.Keys - {k};
    assert (c - {key}).Keys == c.Keys - {key};
  }

  lemma {:induction false} TotalWithout(c: Counters, key: string)
    ensures Total(c) == Size(c, key) + Total(c - {key})
    decreases |c|
  {
    if key !in c {
      assert c - {key} == c;
    } else {
      var k :| k in c && Total(c) == Size(c, k) + Total(c - {k});
      if k != key {
        hide Total, Size;
        RemoveTwo(c, k, key);
        TotalWithout(c - {k}, key);
        TotalWithout(c - {key}, k);
      }
    }
  }

  function SizeOver(c: Counters, order: seq<string>): int {
    if order == [] then 0 else SizeOver(c, order[..|order| - 1]) + Size(c, order[|order| - 1])
  }

  lemma {:induction false} SizeOverExt(c: Counters, d: Counters, order: seq<string>)
    requires forall k :: k in order ==> Size(c, k) == Size(d, k)
    ensures SizeOver(c, order) == SizeOver(d, order)
  {
    if order != [] { SizeOverExt(c, d, order[..|order| - 1]); }
  }

  lemma {:induction false} TotalIsSizeOver(c: Counters, order: seq<string>)
    requires Distinct(order) && c.Keys <= set k | k in order
    ensures Total(c) == SizeOver(c, order)
  {
    if order == [] {
      assert c == map[];
    } else {
      var n := |order| - 1;
      var k := order[n];
      assert order == order[..n] + [k];
      TotalWithout(c, k);
      TotalIsSizeOver(c - {k}, order[..n]);
      SizeOverExt(c, c - {k}, order[..n]);
    }
  }

  function SliceTotal(slice: seq<UserTraffic>): int {
    if slice == [] then 0
        else SliceTotal(slice[..|slice| - 1]) + slice[|slice| - 1].upload + slice[|slice| - 1].download
  }

  lemma {:induction false} CollectBalancesOver(c: Counters, lookup: string -> int, min: int, order: seq<string>)
    requires forall k :: k in order ==> k in c
    ensures SizeOver(c, order) ==
            SizeOver(Collected(c, lookup, min, true), order) + SizeOver(Orphans(c, lookup, min), order)
                                  + SliceTotal(Slice(c, lookup, min, order))
  {
    hide Heavy;
    if order != [] {
      CollectBalancesOver(c, lookup, min, order[..|order| - 1]);
      var k, before := order[|order| - 1], Slice(c, lookup, min, order[..|order| - 1]);
      if Heavy(c[k], min) && lookup(k) != 0 {
        assert (before + [UserTraffic(lookup(k), c[k].up, c[k].down)])[..|before|] == before;
      } else {
        assert before + [] == before;
      }
    }
  }

  /** A draining collection moves every byte to the report, to the thrown-away orphans, or nowhere. */
  lemma CollectBalances(c: Counters, lookup: string -> int, min: int, order: seq<string>)
    requires Walks(order, c)
    ensures Total(c) == Total(Collected(c, lookup, min, true)) + Total(Orphans(c, lookup, min))
            + SliceTotal(Slice(c, lookup, min, order))
  {
    TotalIsSizeOver(c, order);
    TotalIsSizeOver(Collected(c, lookup, min, true), order);
    TotalIsSizeOver(Orphans(c, lookup, min), order);
    assert forall k :: k in order ==> k in (set x | x in order);
    CollectBalancesOver(c, lookup, min, order);
  }

  // ---------------------------------------------------------------------------
  // Runs
  // ---------------------------------------------------------------------------

  datatype Event =
    | Rx(key: string, n: nat)
    | Tx(key: string, n: nat)
    | Report(lookup: string -> int, min: int, order: seq<string>)
    | DelUsers(keys: set<string>)
    | DelNode

  /** The counters of one tag with what happened to every byte so far. */
  datatype Book = Book(counters: Counters, recorded: int, reported: int, discarded: int)

  ghost function Step(b: Book, e: Event): Book {
    match e
    case Rx(key, n) => b.(counters := Bump(b.counters, key, 0, n), recorded := b.recorded + n)
    case Tx(key, n) => b.(counters := Bump(b.counters, key, n, 0), recorded := b.recorded + n)
    case Report(lookup, min, order) =>
      b.(counters := Collected(b.counters, lookup, min, true),
         reported := b.reported + SliceTotal(Slice(b.counters, lookup, min, order)),
         discarded := b.discarded + Total(Orphans(b.counters, lookup, min)))
    case DelUsers(keys) =>
      b.(counters := b.counters - keys, discarded := b.discarded + Total(b.counters) - Total(b.counters - keys))
    case DelNode =>
      b.(counters := map[], discarded := b.discarded + Total(b.counters))
  }

  ghost function After(b: Book, es: seq<Event>): Book {
    if es == [] then b else Step(After(b, es[..|es| - 1]), es[|es| - 1])
  }

  ghost predicate Feasible(b: Book, es: seq<Event>) {
    forall i :: 0 <= i < |es| && es[i].Report? ==> Walks(es[i].order, After(b, es[..i]).counters)
  }

  ghost predicate NonNegative(c: Counters) {
    forall k :: k in c ==> c[k].up >= 0 && c[k].down >= 0
  }

  /** Every recorded byte is reported, pending, or discarded. */
  ghost predicate Balanced(b: Book) {
    && NonNegative(b.counters) && b.reported >= 0 && b.discarded >= 0
    && b.recorded == b.reported + Total(b.counters) + b.discarded
  }

  lemma {:induction false} SubTotal(c: Counters, d: Counters)
    requires NonNegative(c) && d.Keys <= c.Keys && forall k :: k in d ==> d[k] == c[k]
    ensures 0 <= Total(d) <= Total(c)
    decreases |c|
  {
    if c == map[] {
      assert d == map[];
    } else {
      var k :| k in c;
      TotalWithout(c, k);
      TotalWithout(d, k);
      assert (c - {k}).Keys == c.Keys - {k};
      SubTotal(c - {k}, d - {k});
    }
  }

  lemma BumpIsExact(c: Counters, key: string, up: nat, down: nat)
    requires NonNegative(c) && Total(c) + up + down <= MAX_INT64
    ensures NonNegative(Bump(c, key, up, down))
    ensures Total(Bump(c, key, up, down)) == Total(c) + up + down
    ensures Load(Bump(c, key, up, down), key).up == Load(c, key).up + up
    ensures Load(Bump(c, key, up, down), key).down == Load(c, key).down + down
    ensures forall k :: k != key ==> Load(Bump(c, key, up, down), k) == Load(c, k)
  {
    hide Total, Wrap;
    TotalWithout(c, key);
    SubTotal(c, c - {key});
    WrapFits(Load(c, key).up + up);
    WrapFits(Load(c, key).down + down);
    TotalWithout(Bump(c, key, up, down), key);
    assert c - {key} == Bump(c, key, up, down) - {key};
  }

  lemma WrapFits(x: int)
    requires -MAX_INT64 <= x <= MAX_INT64
    ensures Wrap(x) == x
  {
  }

  lemma {:induction false} SliceNonNegative(c: Counters, lookup: string -> int, min: int, order: seq<string>)
    requires NonNegative(c)
    ensures SliceTotal(Slice(c, lookup, min, order)) >= 0
  {
    hide Heavy;
    if order != [] {
      SliceNonNegative(c, lookup, min, order[..|order| - 1]);
      var k, before := order[|order| - 1], Slice(c, lookup, min, order[..|order| - 1]);
      if k in c && Heavy(c[k], min) && lookup(k) != 0 {
        assert (before + [UserTraffic(lookup(k), c[k].up, c[k].down)])[..|before|] == before;
      } else {
        assert before + [] == before;
      }
    }
  }

  lemma StepBalances(b: Book, e: Event)
    requires Balanced(b) && Step(b, e).recorded <= MAX_INT64
    requires e.Report? ==> Walks(e.order, b.counters)
    ensures Balanced(Step(b, e))
  {
    hide Wrap;
    match e
    case Rx(key, n) => BumpIsExact(b.counters, key, 0, n);
    case Tx(key, n) => BumpIsExact(b.counters, key, n, 0);
    case Report(lookup, min, order) =>
      CollectBalances(b.counters, lookup, min, order);
      SubTotal(b.counters, Orphans(b.counters, lookup, min));
      SliceNonNegative(b.counters, lookup, min, order);
    case DelUsers(keys) => SubTotal(b.counters, b.counters - keys);
    case DelNode => SubTotal(b.counters, map[]);
  }

  lemma {:induction false} RecordedGrows(b: Book, es: seq<Event>)
    ensures After(b, es).recorded >= b.recorded
  {
    if es != [] { RecordedGrows(b, es[..|es| - 1]); }
  }

  lemma PrefixFeasible(b: Book, es: seq<Event>)
    requires es != [] && Feasible(b, es)
    ensures Feasible(b, es[..|es| - 1]) && After(b, es[..|es| - 1]).recorded <= After(b, es).recorded
  {
    hide Walks;
    var n := |es| - 1;
    forall i | 0 <= i < n && es[..n][i].Report?
      ensures Walks(es[..n][i].order, After(b, es[..n][..i]).counters)
    {
      assert es[..n][..i] == es[..i] && es[i].Report?;
    }
  }

  /** Conservation over every run, as long as fewer than 2^63 bytes are recorded. */
  lemma {:induction false} NothingIsLost(b: Book, es: seq<Event>)
    requires Balanced(b) && Feasible(b, es) && After(b, es).recorded <= MAX_INT64
    ensures Balanced(After(b, es))
  {
    if es != [] {
      var n := |es| - 1;
      PrefixFeasible(b, es);
      NothingIsLost(b, es[..n]);
      StepBalances(After(b, es[..n]), es[n]);
    }
  }

  /** The event throws nothing away: a collection meets no bytes over the threshold without a uid,
      a deletion takes no counter with bytes in it. */
  predicate Spares(c: Counters, e: Event) {
    match e
    case Report(lookup, min, _) => forall k :: k in c && Orphan(c, lookup, min, k) ==> Size(c, k) == 0
    case DelUsers(keys) => forall k :: k in c && k in keys ==> Size(c, k) == 0
    case DelNode => forall k :: k in c ==> Size(c, k) == 0
    case _ => true
  }

  function Only(c: Counters, keys: set<string>): Counters {
    map k | k in c && k in keys :: c[k]
  }

  lemma {:induction false} TotalSplits(c: Counters, keys: set<string>)
    ensures Total(c) == Total(c - keys) + Total(Only(c, keys))
    decreases |c|
  {
    if c == map[] {
      assert c - keys == map[] && Only(c, keys) == map[];
    } else {
      var k :| k in c;
      hide Total, Size;
      var rest := c - {k};
      assert rest.Keys == c.Keys - {k};
      TotalSplits(rest, keys);
      TotalWithout(c, k);
      TotalWithout(c - keys, k);
      TotalWithout(Only(c, keys), k);
      assert c - keys - {k} == rest - keys && Only(c, keys) - {k} == Only(rest, keys);
      SplitSize(c, keys, k);
    }
  }

  lemma SplitSize(c: Counters, keys: set<string>, k: string)
    ensures Size(c, k) == Size(c - keys, k) + Size(Only(c, keys), k)
  {
  }

  lemma {:induction false} TotalZeroIff(c: Counters)
    requires NonNegative(c)
    ensures Total(c) >= 0 && (Total(c) == 0 <==> forall k :: k in c ==> Size(c, k) == 0)
    decreases |c|
  {
    if c != map[] {
      var k :| k in c;
      TotalWithout(c, k);
      hide Total;
      var rest := c - {k};
      assert rest.Keys == c.Keys - {k};
      TotalZeroIff(rest);
      assert forall x :: x in rest ==> Size(rest, x) == Size(c, x);
    }
  }

  lemma StepDiscardsIff(b: Book, e: Event)
    requires NonNegative(b.counters)
    ensures Step(b, e).discarded >= b.discarded
    ensures Step(b, e).discarded == b.discarded <==> Spares(b.counters, e)
  {
    hide Total, Heavy, Collected, Slice;
    match e
    case Report(lookup, min, order) =>
      var gone := Orphans(b.counters, lookup, min);
      TotalZeroIff(gone);
      assert forall k :: k in gone ==> Size(gone, k) == Size(b.counters, k);
    case DelUsers(keys) =>
      var gone := Only(b.counters, keys);
      TotalSplits(b.counters, keys);
      TotalZeroIff(gone);
      assert forall k :: k in gone ==> Size(gone, k) == Size(b.counters, k);
    case DelNode => TotalZeroIff(b.counters);
    case _ =>
  }

  ghost predicate SparesAt(b: Book, es: seq<Event>, i: nat)
    requires i < |es|
  {
    Spares(After(b, es[..i]).counters, es[i])
  }

  ghost predicate AllSpare(b: Book, es: seq<Event>) {
    forall i :: 0 <= i < |es| ==> SparesAt(b, es, i)
  }

  lemma AllSpareNext(b: Book, es: seq<Event>)
    requires es != []
    ensures var n := |es| - 1; AllSpare(b, es) <==> AllSpare(b, es[..n]) && Spares(After(b, es[..n]).counters, es[n])
  {
    hide Spares, After;
    var n := |es| - 1;
    forall i | 0 <= i < n
      ensures SparesAt(b, es[..n], i) == SparesAt(b, es, i)
    {
      assert es[..n][..i] == es[..i];
    }
    assert SparesAt(b, es, n) == Spares(After(b, es[..n]).counters, es[n]);
  }

  /** Exactly when all recorded bytes end up reported or pending: when no event of the run throws any away.
      So discards come only from deleted users, deleted nodes and unknown uids. */
  lemma {:induction false} NothingDiscardedIff(b: Book, es: seq<Event>)
    requires Balanced(b) && Feasible(b, es) && After(b, es).recorded <= MAX_INT64
    ensures After(b, es).discarded >= b.discarded
    ensures After(b, es).discarded == b.discarded <==> AllSpare(b, es)
  {
    if es != [] {
      hide Step, Spares, AllSpare, Balanced, Feasible, NonNegative;
      var n := |es| - 1;
      PrefixFeasible(b, es);
      NothingDiscardedIff(b, es[..n]);
      NothingIsLost(b, es[..n]);
      BalancedIsNonNegative(After(b, es[..n]));
      StepDiscardsIff(After(b, es[..n]), es[n]);
      AllSpareNext(b, es);
    }
  }

  lemma BalancedIsNonNegative(b: Book)
    requires Balanced(b)
    ensures NonNegative(b.counters)
  {
  }

  // ---------------------------------------------------------------------------
  // The object
  // ---------------------------------------------------------------------------

  class TrafficCounter {
    var counters: Counters

    constructor ()
      ensures counters == map[]
    {
      counters := map[];
    }

    /** The stored counter, created at zero when there is none. */
    method GetCounter(uuid: string) returns (storage: Traffic)
      modifies this
      ensures counters == old(counters)[uuid := Load(old(counters), uuid)]
      ensures storage == Load(old(counters), uuid)
    {
      if uuid in counters {
        assert counters == counters[uuid := counters[uuid]];
        return counters[uuid];
      }
      storage := Traffic(0, 0);
      counters := counters[uuid := storage];
    }

    method Rx(uuid: string, n: int)
      modifies this
      ensures counters == Bump(old(counters), uuid, 0, n)
    {
      var cts := GetCounter(uuid);
      counters := counters[uuid := cts.(down := Wrap(cts.down + n))];
    }

    method Tx(uuid: string, n: int)
      modifies this
      ensures counters == Bump(old(counters), uuid, n, 0)
    {
      var cts := GetCounter(uuid);
      counters := counters[uuid := cts.(up := Wrap(cts.up + n))];
    }

    method Reset(uuid: string)
      modifies this
      ensures counters == if uuid in old(counters) then old(counters)[uuid := Traffic(0, 0)] else old(counters)
    {
      if uuid in counters {
        counters := counters[uuid := Traffic(0, 0)];
      }
    }

    method Delete(uuid: string)
      modifies this
      ensures counters == old(counters) - {uuid}
    {
      counters := counters - {uuid};
    }

    /** The loop of the xray and hysteria2 cores; `lookup` is the uid index each of them reads. */
    method GetUserTrafficSlice(lookup: string -> int, min: int, reset: bool)
      returns (slice: seq<UserTraffic>, ghost order: seq<string>)
      modifies this
      ensures Walks(order, old(counters))
      ensures counters == Collected(old(counters), lookup, min, reset)
      ensures slice == Slice(old(counters), lookup, min, order)
    {
      counters, slice, order := Collect(counters, lookup, min, reset);
    }
  }
}
