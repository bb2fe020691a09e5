/** The panel's alive list: the device counts a poll leaves, and whom they turn away, over whole runs. */
module AliveRuns {
  import opened Common
  import opened UserDiff
  import opened Controller
  import opened NodeRuns
  import opened SyncRuns
  import V = Veil
  import R = LimiterRuns
  import S = SingCore

  // ---------------------------------------------------------------------------
  // One poll
  // ---------------------------------------------------------------------------

  function Count(t: V.Tables, id: int): int {
    Lookup(t.alive, id, 0)
  }

  /** The poll brings an alive list and does not end the process before it is stored. */
  predicate Arrives(p: Poll) {
    p.fetched && p.alive.Some? && (p.node.Some? ==> p.delNodeOk)
  }

  /** The poll carries a list that drops a user of this id or gives it another speed, and the diff goes through. */
  ghost predicate DiffDeletes(c: Node, p: Poll, id: int) {
    && p.fetched && p.node.None? && p.users.Some? && p.users.value != []
    && DiffGoesThrough(c, p.users.value, p) && IdGoes(c.users, p.users.value, id)
  }

  /** The poll builds a new limiter without an alive list. */
  predicate StartsUncounted(c: Node, p: Poll) {
    p.fetched && p.node.Some? && !c.named && p.delNodeOk && p.alive.None?
  }

  ghost predicate Forgets(c: Node, p: Poll, id: int) {
    DiffDeletes(c, p, id) || StartsUncounted(c, p)
  }

  ghost predicate Listed(c: Node, p: Poll, universe: iset<string>) {
    ListOver(c.users, universe) && (p.users.Some? ==> ListOver(p.users.value, universe))
  }

  /** The devices counted for an id after any poll, however its calls end: none when the poll forgets the id,
      else as many as the panel counts when its list arrives, else as many as before. */
  lemma CountAfterPoll(c: Node, p: Poll, universe: iset<string>, id: int)
    requires S.KeyedTables(c.core) && NoKeyClash(universe) && Listed(c, p, universe)
    ensures Count(PollNext(c, p).limiter, id) ==
            if Forgets(c, p, id) then 0
            else if Arrives(p) then (if id in p.alive.value then p.alive.value[id] else 0)
            else Count(c.limiter, id)
  {
    hide S.KeyedTables, NoKeyClash, ApplyDiff, V.Update, Deleted, Added, IdGoes, DiffGoesThrough;
    hide V.StoreLimits, V.StoreUids, S.Step, Furnished;
    if p.fetched && p.node.None? {
      var c1 := if p.alive.Some? then c.(limiter := c.limiter.(alive := p.alive.value)) else c;
      if p.users.Some? && p.users.value != [] {
        AliveAfterDiff(c1.limiter, c1.tag, c1.users, p.users.value, universe, id);
        DiffLimiter(c1, p.users.value, p);
        GoesThroughAlike(c, c1, p.users.value, p);
      }
    }
  }

  lemma GoesThroughAlike(c: Node, d: Node, users: seq<UserInfo>, p: Poll)
    requires c.users == d.users && c.tag == d.tag && c.core == d.core
    ensures DiffGoesThrough(c, users, p) == DiffGoesThrough(d, users, p)
  {
  }

  /** A start that gets to its limiter counts what the panel counts, even when it fails later. */
  lemma StartTakesAlive(c: Node, l: Launch)
    requires S.KeyedTables(c.core)
    requires l.nodeFetched && l.usersFetched && l.users != [] && l.aliveFetched
    ensures StartNext(c, l).limiter.alive == l.alive
  {
    hide S.KeyedTables, S.Step, Furnished, V.StoreLimits, V.StoreUids;
  }

  /** Neither online for the user nor left over from the generation last reported. */
  ghost predicate NewTo(t: V.Tables, key: string, ip: string) {
    (key in t.online ==> V.Normal(ip) !in t.online[key]) && V.Normal(ip) !in t.past
  }

  lemma NewAddressRejectedIff(t: V.Tables, key: string, ip: string, now: int)
    requires key in t.info && NewTo(t, key, ip)
    ensures V.Check(t, key, ip, true, now).1.Reject? <==> 0 < t.info[key].device <= Count(t, t.info[key].uid)
  {
    R.RejectedIff(t, key, ip, true, now);
    hide V.Check;
  }

  /** After every poll whose alive list arrives, exactly the users whose device limit is positive and at most the
      panel's count are refused a new address, except those whose id the poll's own diff deletes. */
  lemma GateAfterPollIff(c: Node, p: Poll, universe: iset<string>, key: string, ip: string, now: int)
    requires S.KeyedTables(c.core) && NoKeyClash(universe) && Listed(c, p, universe) && Arrives(p)
    requires key in PollNext(c, p).limiter.info && NewTo(PollNext(c, p).limiter, key, ip)
    ensures var t := PollNext(c, p).limiter;
            var u := t.info[key];
            && (V.Saturated(t, key) <==> 0 < u.device <= Lookup(p.alive.value, u.uid, 0) && !DiffDeletes(c, p, u.uid))
            && (V.Check(t, key, ip, true, now).1.Reject? <==>
                0 < u.device <= Lookup(p.alive.value, u.uid, 0) && !DiffDeletes(c, p, u.uid))
  {
    var t := PollNext(c, p).limiter;
    CountAfterPoll(c, p, universe, t.info[key].uid);
    NewAddressRejectedIff(t, key, ip, now);
    hide S.KeyedTables, NoKeyClash, PollNext, V.Check, NewTo, DiffDeletes;
  }

  // ---------------------------------------------------------------------------
  // Runs
  // ---------------------------------------------------------------------------

  ghost predicate ListsOver(es: seq<Event>, universe: iset<string>) {
    forall i :: 0 <= i < |es| && es[i].Polled? && es[i].p.users.Some? ==> ListOver(es[i].p.users.value, universe)
  }

  lemma {:induction false} HeldListOver(c: Node, es: seq<Event>, universe: iset<string>)
    requires S.KeyedTables(c.core) && ListOver(c.users, universe) && ListsOver(es, universe)
    ensures ListOver(After(c, es).users, universe)
  {
    if es != [] {
      hide S.KeyedTables, ListOver, PollNext, V.Check, V.Rotate;
      var n := |es| - 1;
      HeldListOver(c, es[..n], universe);
      if es[n].Polled? { ListAfterPoll(After(c, es[..n]), es[n].p); }
    }
  }

  lemma ListAfterPoll(c: Node, p: Poll)
    requires S.KeyedTables(c.core)
    ensures PollNext(c, p).users == c.users || (p.users.Some? && PollNext(c, p).users == p.users.value)
  {
    hide S.KeyedTables, S.Step, Furnished, V.Created, V.Update, Deleted, Added;
  }

  ghost predicate ForgottenAt(c: Node, es: seq<Event>, i: nat, id: int)
    requires S.KeyedTables(c.core) && i < |es|
  {
    es[i].Polled? && Forgets(After(c, es[..i]), es[i].p, id)
  }

  ghost predicate ForgottenFrom(c: Node, es: seq<Event>, k: nat, id: int)
    requires S.KeyedTables(c.core)
  {
    exists i :: k <= i < |es| && ForgottenAt(c, es, i, id)
  }

  /** Event `k` is the last poll of the run whose alive list arrives. */
  predicate LastArrival(es: seq<Event>, k: nat) {
    && k < |es| && es[k].Polled? && Arrives(es[k].p)
    && forall i :: k < i < |es| && es[i].Polled? ==> !Arrives(es[i].p)
  }

  lemma ForgottenNext(c: Node, es: seq<Event>, k: nat, id: int)
    requires S.KeyedTables(c.core) && k < |es|
    ensures ForgottenFrom(c, es, k, id) <==>
            ForgottenFrom(c, es[..|es| - 1], k, id) || ForgottenAt(c, es, |es| - 1, id)
  {
    hide After, Forgets, ForgottenAt, S.KeyedTables;
    var n := |es| - 1;
    forall i | 0 <= i < n
      ensures ForgottenAt(c, es, i, id) == ForgottenAt(c, es[..n], i, id)
    {
      ForgottenEarlier(c, es, i, id);
    }
    if ForgottenFrom(c, es[..n], k, id) {
      var i :| k <= i < n && ForgottenAt(c, es[..n], i, id);
      assert ForgottenAt(c, es, i, id);
    }
    if ForgottenFrom(c, es, k, id) {
      var i :| k <= i < |es| && ForgottenAt(c, es, i, id);
      assert i < n ==> ForgottenAt(c, es[..n], i, id);
    }
  }

  lemma ForgottenEarlier(c: Node, es: seq<Event>, i: nat, id: int)
    requires S.KeyedTables(c.core) && i < |es| - 1
    ensures ForgottenAt(c, es[..|es| - 1], i, id) == ForgottenAt(c, es, i, id)
  {
    hide After, Forgets, S.KeyedTables;
    assert es[..|es| - 1][..i] == es[..i];
  }

  lemma OtherEventsCount(c: Node, e: Event, id: int)
    requires S.KeyedTables(c.core) && !e.Polled?
    ensures Count(Step(c, e).limiter, id) == Count(c.limiter, id)
  {
    hide S.KeyedTables, V.Check, V.PastOf;
    if e.Connect? { R.EffectOnLimits(c.limiter, e.key, e.ip, e.tcp, e.now); }
  }

  /** After any run, however the polls' calls end, an id has the count of the alive list that arrived last,
      or none when that poll or a later one forgot the id. */
  lemma {:induction false} CountThroughout(c: Node, es: seq<Event>, k: nat, universe: iset<string>, id: int)
    requires S.KeyedTables(c.core) && NoKeyClash(universe) && ListOver(c.users, universe) && ListsOver(es, universe)
    requires LastArrival(es, k)
    ensures Count(After(c, es).limiter, id) ==
            if ForgottenFrom(c, es, k, id) then 0 else Lookup(es[k].p.alive.value, id, 0)
  {
    var n := |es| - 1;
    var before := After(c, es[..n]);
    HeldListOver(c, es[..n], universe);
    ForgottenNext(c, es, k, id);
    if k < n { CountThroughout(c, es[..n], k, universe, id); }
    hide S.KeyedTables, ListOver, NoKeyClash, PollNext, Count, Forgets, ForgottenFrom;
    if es[n].Polled? {
      CountAfterPoll(before, es[n].p, universe, id);
      StepIsPoll(before, es[n]);
    } else {
      OtherEventsCount(before, es[n], id);
    }
    if k == n { assert !ForgottenFrom(c, es[..n], k, id) by { NothingYet(c, es[..n], k, id); } }
  }

  lemma NothingYet(c: Node, es: seq<Event>, k: nat, id: int)
    requires S.KeyedTables(c.core) && k == |es|
    ensures !ForgottenFrom(c, es, k, id)
  {
  }

  /** The device limit follows the panel: at any point of any run a known user is refused a new address exactly when
      its device limit is positive and at most the count of the alive list that arrived last, unless the id was
      forgotten since. */
  lemma GateFollowsPanelIff(c: Node, es: seq<Event>, k: nat, universe: iset<string>, key: string, ip: string, now: int)
    requires S.KeyedTables(c.core) && NoKeyClash(universe) && ListOver(c.users, universe) && ListsOver(es, universe)
    requires LastArrival(es, k)
    requires key in After(c, es).limiter.info && NewTo(After(c, es).limiter, key, ip)
    ensures var t := After(c, es).limiter;
            var u := t.info[key];
            V.Check(t, key, ip, true, now).1.Reject? <==>
            0 < u.device <= Lookup(es[k].p.alive.value, u.uid, 0) && !ForgottenFrom(c, es, k, u.uid)
  {
    var t := After(c, es).limiter;
    CountThroughout(c, es, k, universe, t.info[key].uid);
    NewAddressRejectedIff(t, key, ip, now);
    hide S.KeyedTables, NoKeyClash, After, V.Check, NewTo, ListsOver, LastArrival, ForgottenFrom;
  }
}
