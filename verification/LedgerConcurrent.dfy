/** Collection interleaved with traffic: connections add atomically to the counter they hold,
    while one collector loads, clears and reports counters one field at a time. */
module LedgerConcurrent {

  /** Counters are objects: a connection keeps adding to the one it got, even after its key was dropped. */
  datatype Cell = Cell(up: nat, down: nat)

  /** How far the collector is with one counter. `newUp` and `newDown` are the bytes added
      to a field since the collector loaded it. */
  datatype Collector =
    | Idle
    | LoadedUp(key: string, id: nat, up: nat, newUp: nat)
    | LoadedBoth(key: string, id: nat, up: nat, newUp: nat, down: nat, newDown: nat)
    | ClearedUp(key: string, id: nat, up: nat, down: nat, newDown: nat)
    | ClearedBoth(key: string, id: nat, up: nat, down: nat)

  /** `recorded`, `reported`, `dropped` and `missed` book what happened to the bytes so far:
      `dropped` were cleared from a counter without a uid, `missed` were added between a load and its clear. */
  datatype State = State(
    min: int, cells: map<nat, Cell>, index: map<string, nat>, collector: Collector,
    recorded: nat, reported: nat, dropped: nat, missed: nat)

  datatype Action =
    | Open(key: string, id: nat)                 // GetCounter
    | OpenDropped(id: nat)                       // GetCounter on a tag's map that was dropped since it was looked up
    | AddUp(id: nat, n: nat)
    | AddDown(id: nat, n: nat)
    | Forget(key: string)                        // the key leaves the map, its counter lives on in connections
    | LoadUp(key: string, id: nat)               // met by the walk, though its key may have left since
    | LoadDown
    | Leave                                      // at or below the threshold
    | ClearUp
    | ClearDown
    | Append                                     // the uid is known: the entry joins the report
    | Discard(dropped: bool)                     // no uid: the key is deleted from the map walked, dropped or current

  predicate Enabled(s: State, a: Action) {
    match a
    case Open(key, id) => if key in s.index then s.index[key] == id else id !in s.cells
    case OpenDropped(id) => id !in s.cells
    case AddUp(id, _) => id in s.cells
    case AddDown(id, _) => id in s.cells
    case Forget(_) => true
    case LoadUp(_, id) => s.collector.Idle? && id in s.cells
    case LoadDown => s.collector.LoadedUp? && s.collector.id in s.cells
    case Leave => s.collector.LoadedBoth? && s.collector.up + s.collector.down <= s.min
    case ClearUp => s.collector.LoadedBoth? && s.collector.up + s.collector.down > s.min && s.collector.id in s.cells
    case ClearDown => s.collector.ClearedUp? && s.collector.id in s.cells
    case Append => s.collector.ClearedBoth?
    case Discard(_) => s.collector.ClearedBoth?
  }

  function Noted(c: Collector, id: nat, up: nat, down: nat): Collector {
    match c
    case LoadedUp(key, i, u, newUp) => LoadedUp(key, i, u, newUp + if i == id then up else 0)
    case LoadedBoth(key, i, u, newUp, d, newDown) =>
      LoadedBoth(key, i, u, newUp + (if i == id then up else 0), d, newDown + if i == id then down else 0)
    case ClearedUp(key, i, u, d, newDown) => ClearedUp(key, i, u, d, newDown + if i == id then down else 0)
    case _ => c
  }

  function Next(s: State, a: Action): State
    requires Enabled(s, a)
  {
    match a
    case Open(key, id) =>
      if key in s.index then s else s.(cells := s.cells[id := Cell(0, 0)], index := s.index[key := id])
    case OpenDropped(id) => s.(cells := s.cells[id := Cell(0, 0)])
    case AddUp(id, n) =>
      s.(cells := s.cells[id := Cell(s.cells[id].up + n, s.cells[id].down)], collector := Noted(s.collector, id, n, 0),
          recorded := s.recorded + n)
    case AddDown(id, n) =>
      s.(cells := s.cells[id := Cell(s.cells[id].up, s.cells[id].down + n)], collector := Noted(s.collector, id, 0, n),
          recorded := s.recorded + n)
    case Forget(key) => s.(index := s.index - {key})
    case LoadUp(key, id) => s.(collector := LoadedUp(key, id, s.cells[id].up, 0))
    case LoadDown =>
      var c := s.collector;
      s.(collector := LoadedBoth(c.key, c.id, c.up, c.newUp, s.cells[c.id].down, 0))
    case Leave => s.(collector := Idle)
    case ClearUp =>
      var c := s.collector;
      s.(cells := s.cells[c.id := Cell(0, s.cells[c.id].down)], missed := s.missed + c.newUp,
         collector := ClearedUp(c.key, c.id, c.up, c.down, c.newDown))
    case ClearDown =>
      var c := s.collector;
      s.(cells := s.cells[c.id := Cell(s.cells[c.id].up, 0)], missed := s.missed + c.newDown,
         collector := ClearedBoth(c.key, c.id, c.up, c.down))
    case Append =>
      s.(collector := Idle, reported := s.reported + s.collector.up + s.collector.down)
    case Discard(dropped) =>
      s.(collector := Idle, index := if dropped then s.index else s.index - {s.collector.key},
          dropped := s.dropped + s.collector.up + s.collector.down)
  }

  /** Bytes cleared from the counter but not yet in the report. */
  function InFlight(c: Collector): nat {
    match c
    case ClearedUp(_, _, up, _, _) => up
    case ClearedBoth(_, _, up, down) => up + down
    case _ => 0
  }

  // ---------------------------------------------------------------------------
  // Sums over counters
  // ---------------------------------------------------------------------------

  ghost function Total(cells: map<nat, Cell>): nat {
    if cells == map[] then 0
    else
      var id :| id in cells;
      cells[id].up + cells[id].down + Total(cells - {id})
  }

  lemma {:induction false} TotalWithout(cells: map<nat, Cell>, id: nat)
    requires id in cells
    ensures Total(cells) == cells[id].up + cells[id].down + Total(cells - {id})
    decreases |cells|
  {
    var k :| k in cells && Total(cells) == cells[k].up + cells[k].down + Total(cells - {k});
    if k != id {
      hide Total;
      assert (cells - {k}).Keys == cells.Keys - {k} && (cells - {id}).Keys == cells.Keys - {id};
      TotalWithout(cells - {k}, id);
      TotalWithout(cells - {id}, k);
      assert cells - {k} - {id} == cells - {id} - {k};
    }
  }

  lemma TotalUpdate(cells: map<nat, Cell>, id: nat, c: Cell)
    ensures Total(cells[id := c]) + (if id in cells then cells[id].up + cells[id].down else 0) ==
            Total(cells) + c.up + c.down
  {
    hide Total;
    TotalWithout(cells[id := c], id);
    assert cells[id := c] - {id} == cells - {id};
    if id in cells {
      TotalWithout(cells, id);
    } else {
      assert cells - {id} == cells;
    }
  }

  /** Bytes in counters a later collection can still reach. */
  ghost function Pending(s: State): nat {
    Total(Reachable(s))
  }

  function Reachable(s: State): map<nat, Cell> {
    map id | id in s.cells && id in s.index.Values :: s.cells[id]
  }

  lemma {:induction false} PartIsLess(part: map<nat, Cell>, cells: map<nat, Cell>)
    requires part.Keys <= cells.Keys && forall id :: id in part ==> part[id] == cells[id]
    ensures Total(part) <= Total(cells)
    decreases |part|
  {
    if part == map[] {
    } else {
      var id :| id in part;
      TotalWithout(part, id);
      TotalWithout(cells, id);
      hide Total;
      assert (part - {id}).Keys == part.Keys - {id} && (cells - {id}).Keys == cells.Keys - {id};
      PartIsLess(part - {id}, cells - {id});
    }
  }

  // ---------------------------------------------------------------------------
  // The invariant
  // ---------------------------------------------------------------------------

  /** What the collector loaded, plus what came since, is what the counter holds. */
  ghost predicate Loaded(s: State) {
    match s.collector
    case Idle => true
    case LoadedUp(_, id, up, newUp) => id in s.cells && s.cells[id].up == up + newUp
    case LoadedBoth(_, id, up, newUp, down, newDown) =>
      id in s.cells && s.cells[id].up == up + newUp && s.cells[id].down == down + newDown
    case ClearedUp(_, id, _, down, newDown) => id in s.cells && s.cells[id].down == down + newDown
    case ClearedBoth(_, _, _, _) => true
  }

  /** Every recorded byte is in a counter, reported, in flight, dropped, or missed. */
  ghost predicate Accounted(s: State) {
    && Loaded(s)
    && (forall key :: key in s.index ==> s.index[key] in s.cells)
    && s.recorded == Total(s.cells) + s.reported + InFlight(s.collector) + s.dropped + s.missed
  }

  lemma NextAccounts(s: State, a: Action)
    requires Accounted(s) && Enabled(s, a)
    ensures Accounted(Next(s, a))
  {
    hide Total;
    match a
    case Open(key, id) => TotalUpdate(s.cells, id, Cell(0, 0));
    case OpenDropped(id) => TotalUpdate(s.cells, id, Cell(0, 0));
    case AddUp(id, n) => TotalUpdate(s.cells, id, Cell(s.cells[id].up + n, s.cells[id].down));
    case AddDown(id, n) => TotalUpdate(s.cells, id, Cell(s.cells[id].up, s.cells[id].down + n));
    case ClearUp => TotalUpdate(s.cells, s.collector.id, Cell(0, s.cells[s.collector.id].down));
    case ClearDown => TotalUpdate(s.cells, s.collector.id, Cell(s.cells[s.collector.id].up, 0));
    case _ =>
  }

  // ---------------------------------------------------------------------------
  // Runs
  // ---------------------------------------------------------------------------

  /** `ss` are the states of a run of `actions`, the initial one first. */
  ghost predicate Run(ss: seq<State>, actions: seq<Action>) {
    |ss| == |actions| + 1 && forall i :: 0 <= i < |actions| ==>
        Enabled(ss[i], actions[i]) && ss[i + 1] == Next(ss[i], actions[i])
  }

  /** In every interleaving the report never exceeds what was recorded, and the bytes that are neither
      reported, pending, in flight nor dropped are the missed ones and those in forgotten counters. */
  lemma {:induction false} NeverOverReports(ss: seq<State>, actions: seq<Action>, n: nat)
    requires Run(ss, actions) && Accounted(ss[0]) && n < |ss|
    ensures Accounted(ss[n])
    ensures ss[n].reported + Pending(ss[n]) <= ss[n].recorded
    ensures ss[n].recorded - (ss[n].reported + Pending(ss[n]) + InFlight(ss[n].collector) + ss[n].dropped) ==
            ss[n].missed + (Total(ss[n].cells) - Pending(ss[n]))
  {
    if n > 0 {
      NeverOverReports(ss, actions, n - 1);
      NextAccounts(ss[n - 1], actions[n - 1]);
    }
    PartIsLess(Reachable(ss[n]), ss[n].cells);
  }

  /** The action adds bytes to a field the collector has loaded and not yet cleared. */
  predicate InWindow(s: State, a: Action) {
    match a
    case AddUp(id, n) => n > 0 && (s.collector.LoadedUp? || s.collector.LoadedBoth?) && s.collector.id == id
    case AddDown(id, n) => n > 0 && (s.collector.LoadedBoth? || s.collector.ClearedUp?) && s.collector.id == id
    case _ => false
  }

  function NewBytes(c: Collector): nat {
    match c
    case LoadedUp(_, _, _, newUp) => newUp
    case LoadedBoth(_, _, _, newUp, _, newDown) => newUp + newDown
    case ClearedUp(_, _, _, _, newDown) => newDown
    case _ => 0
  }

  function WindowBytes(s: State, a: Action): nat {
    if InWindow(s, a) then a.n else 0
  }

  /** The bytes one run adds inside windows, read off its actions alone. */
  function AddedInWindows(ss: seq<State>, actions: seq<Action>): nat
    requires |ss| == |actions| + 1
  {
    if actions == [] then 0
    else
      var n := |actions| - 1;
      AddedInWindows(ss[..n + 1], actions[..n]) + WindowBytes(ss[n], actions[n])
  }

  /** The bytes of a window that closes because the counter stays below the threshold are not missed: they stay in
      it. */
  function Spared(ss: seq<State>, actions: seq<Action>): nat
    requires |ss| == |actions| + 1
  {
    if actions == [] then 0
    else
      var n := |actions| - 1;
      Spared(ss[..n + 1], actions[..n]) + if actions[n].Leave? then NewBytes(ss[n].collector) else 0
  }

  /** Missed bytes are exactly those added between a load and its clear. */
  lemma {:induction false} MissedAreWindowBytes(ss: seq<State>, actions: seq<Action>)
    requires Run(ss, actions) && ss[0].collector.Idle? && ss[0].missed == 0
    ensures var s := ss[|actions|];
            s.missed + NewBytes(s.collector) + Spared(ss, actions) == AddedInWindows(ss, actions)
  {
    if actions != [] {
      var n := |actions| - 1;
      MissedAreWindowBytes(ss[..n + 1], actions[..n]);
      var s, a := ss[n], actions[n];
      assert ss[..n + 1][n] == s;
      WindowStep(s, a);
    }
  }

  lemma WindowStep(s: State, a: Action)
    requires Enabled(s, a)
    ensures Next(s, a).missed + NewBytes(Next(s, a).collector) + (if a.Leave? then NewBytes(s.collector) else 0)
         == s.missed + NewBytes(s.collector) + WindowBytes(s, a)
  {
  }

  /** The action leaves a counter that no later collection meets, or throws one away. */
  predicate Detaches(a: Action) {
    a.Forget? || a.OpenDropped? || a.Discard?
  }

  /** When traffic stays out of the windows and no key is forgotten or unknown, collection is exact. */
  lemma {:induction false} QuietRunIsExact(ss: seq<State>, actions: seq<Action>, n: nat)
    requires Run(ss, actions) && Accounted(ss[0]) && n < |ss|
    requires ss[0].missed == ss[0].dropped == 0 && NewBytes(ss[0].collector) == 0
    requires forall id :: id in ss[0].cells ==> id in ss[0].index.Values
    requires forall i :: 0 <= i < |actions| ==> !InWindow(ss[i], actions[i]) && !Detaches(actions[i])
    ensures ss[n].recorded == ss[n].reported + Pending(ss[n]) + InFlight(ss[n].collector)
    ensures ss[n].missed == ss[n].dropped == 0 && NewBytes(ss[n].collector) == 0 && Accounted(ss[n])
    ensures forall id :: id in ss[n].cells ==> id in ss[n].index.Values
  {
    if n > 0 {
      var s, a := ss[n - 1], actions[n - 1];
      hide Next, Enabled, Total;
      QuietRunIsExact(ss, actions, n - 1);
      NextAccounts(s, a);
      WindowStep(s, a);
      assert !InWindow(s, a) && !Detaches(a);
      NextKeepsReachable(s, a);
    }
    assert Reachable(ss[n]) == ss[n].cells;
  }

  lemma NextKeepsReachable(s: State, a: Action)
    requires Enabled(s, a) && !Detaches(a) && forall id :: id in s.cells ==> id in s.index.Values
    ensures Next(s, a).dropped == s.dropped
    ensures forall id :: id in Next(s, a).cells ==> id in Next(s, a).index.Values
  {
    var s' := Next(s, a);
    forall id | id in s'.cells
      ensures id in s'.index.Values
    {
      if id in s.cells {
        var key :| key in s.index && s.index[key] == id;
        assert key in s'.index && s'.index[key] == id;
      } else {
        assert a.Open? && s'.index[a.key] == id;
      }
    }
  }

  /** An action of the collector within its visit of one counter. */
  predicate Visits(a: Action) {
    a.LoadDown? || a.Leave? || a.ClearUp? || a.ClearDown? || a.Append? || a.Discard?
  }

  lemma LoadsBoth(s: State, key: string, id: nat, a: Action)
    requires s.collector.Idle? && Enabled(s, LoadUp(key, id)) && Visits(a) && Enabled(Next(s, LoadUp(key, id)), a)
    ensures Next(Next(s, LoadUp(key, id)), a) ==
            s.(collector := LoadedBoth(key, id, s.cells[id].up, 0, s.cells[id].down, 0))
  {
  }

  lemma LeavesOrClears(s: State, a: Action)
    requires s.collector.LoadedBoth? && Visits(a) && Enabled(s, a)
    ensures var c := s.collector;
            if c.up + c.down <= s.min then Next(s, a) == s.(collector := Idle)
            else c.id in s.cells && Next(s, a) ==
                   s.(cells := s.cells[c.id := Cell(0, s.cells[c.id].down)], missed := s.missed + c.newUp,
                      collector := ClearedUp(c.key, c.id, c.up, c.down, c.newDown))
  {
  }

  lemma ClearsAndEnds(s: State, a: Action, end: Action)
    requires s.collector.ClearedUp? && Visits(a) && Enabled(s, a) && Visits(end) && Enabled(Next(s, a), end)
    ensures s.collector.id in s.cells && (end.Append? || end.Discard?)
    ensures var c := s.collector;
            var cleared := s.(cells := s.cells[c.id := Cell(s.cells[c.id].up, 0)], missed := s.missed + c.newDown,
                              collector := Idle);
            Next(Next(s, a), end) ==
            if end.Append? then cleared.(reported := s.reported + c.up + c.down)
            else cleared.(dropped := s.dropped + c.up + c.down,
                          index := if end.dropped then s.index else s.index - {c.key})
  {
  }

  lemma RunStep(ss: seq<State>, actions: seq<Action>, i: nat)
    requires Run(ss, actions) && i < |actions|
    ensures Enabled(ss[i], actions[i]) && ss[i + 1] == Next(ss[i], actions[i])
  {
  }

  /** A visit nobody disturbs does what the walk does at once: a counter at or below the threshold is left as it was;
      above the threshold it is cleared and all it held is reported, or dropped when the uid is unknown. */
  lemma UndisturbedVisit(ss: seq<State>, actions: seq<Action>, key: string, id: nat)
    requires Run(ss, actions) && ss[0].collector.Idle? && actions != [] && actions[0] == LoadUp(key, id)
    requires forall i :: 0 < i < |actions| ==> Visits(actions[i])
    requires ss[|actions|].collector.Idle?
    ensures id in ss[0].cells
    ensures var s, s', last := ss[0], ss[|actions|], actions[|actions| - 1];
            var held := s.cells[id].up + s.cells[id].down;
            if held <= s.min then s' == s
            else
              && (last.Append? || last.Discard?)
              && s'.cells == s.cells[id := Cell(0, 0)] && s'.recorded == s.recorded && s'.missed == s.missed
              && s'.reported == s.reported + (if last.Append? then held else 0)
              && s'.dropped == s.dropped + (if last.Discard? then held else 0)
              && s'.index == if last.Discard? && !last.dropped then s.index - {key} else s.index
  {
    RunStep(ss, actions, 0);
    RunStep(ss, actions, 1);
    LoadsBoth(ss[0], key, id, actions[1]);
    RunStep(ss, actions, 2);
    LeavesOrClears(ss[2], actions[2]);
    hide Run;
    if ss[0].cells[id].up + ss[0].cells[id].down <= ss[0].min {
      if |actions| > 3 {
        RunStep(ss, actions, 3);
        IdleEnds(ss[3], actions[3]);
      }
    } else {
      RunStep(ss, actions, 3);
      RunStep(ss, actions, 4);
      ClearsAndEnds(ss[3], actions[3], actions[4]);
      if |actions| > 5 {
        RunStep(ss, actions, 5);
        IdleEnds(ss[5], actions[5]);
      }
    }
  }

  lemma IdleEnds(s: State, a: Action)
    requires s.collector.Idle? && Visits(a)
    ensures !Enabled(s, a)
  {
  }

  /** A visit can always take its next step; having loaded both fields it leaves the counter or clears it, by whether
      the sum it loaded is over the threshold. */
  lemma VisitGoesOn(s: State)
    requires Loaded(s) && !s.collector.Idle?
    ensures exists a :: Visits(a) && Enabled(s, a)
    ensures s.collector.LoadedBoth? ==>
              && (Enabled(s, Leave) <==> s.collector.up + s.collector.down <= s.min)
              && (Enabled(s, ClearUp) <==> s.collector.up + s.collector.down > s.min)
  {
    assert Visits(LoadDown) && Visits(Leave) && Visits(ClearUp) && Visits(ClearDown) && Visits(Append);
    var c := s.collector;
    assert match c
           case LoadedUp(_, _, _, _) => Enabled(s, LoadDown)
           case LoadedBoth(_, _, _, _, _, _) => Enabled(s, Leave) || Enabled(s, ClearUp)
           case ClearedUp(_, _, _, _, _) => Enabled(s, ClearDown)
           case _ => Enabled(s, Append);
  }

  /** A key has one counter for as long as it stays in the map: whoever opens it gets that one, with its bytes;
      a key that is not there gets a new one at zero. */
  lemma OpensOneCounter(s: State, key: string, id: nat)
    requires Accounted(s)
    ensures Enabled(s, Open(key, id)) <==> if key in s.index then id == s.index[key] else id !in s.cells
    ensures Enabled(s, Open(key, id)) ==>
              var s' := Next(s, Open(key, id));
              && key in s'.index && s'.index[key] == id && id in s'.cells
              && s'.cells[id] == (if key in s.index then s.cells[id] else Cell(0, 0))
              && Enabled(s', AddUp(id, 1)) && (forall k :: k != key ==> (k in s'.index <==> k in s.index))
  {
  }

  /** A forgotten key is opened with a new counter, while the old one keeps its bytes and goes on taking more. */
  lemma ForgottenCounterLivesOn(s: State, key: string, id: nat, n: nat)
    requires Accounted(s) && key in s.index
    ensures var s', counter := Next(s, Forget(key)), s.index[key];
            && (Enabled(s', Open(key, id)) <==> id !in s.cells)
            && counter in s'.cells && s'.cells[counter] == s.cells[counter] && Enabled(s', AddUp(counter, n))
  {
  }

  /** Bytes added to a counter got from a dropped map are recorded, and no collection reaches them. */
  lemma DroppedMapIsOutOfReach(s: State, id: nat, n: nat)
    requires Accounted(s) && Enabled(s, OpenDropped(id))
    ensures var s1 := Next(s, OpenDropped(id));
            && Enabled(s1, AddUp(id, n))
            && Next(s1, AddUp(id, n)).recorded == s.recorded + n
            && Reachable(Next(s1, AddUp(id, n))) == Reachable(s)
  {
    assert id !in s.index.Values;
  }
}
