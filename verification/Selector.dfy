/** The core selector: fallback over cores when a node is added, and routing of later calls. */
module Selector {
  import opened Common
  import opened ByteStrings

  /** A core as the selector sees it. */
  datatype Core = Core(typeName: string, protocols: seq<string>)

  /** A node's options: the pinned core type (empty when free), the requested core name, the raw JSON. */
  datatype Options = Options(core: string, coreName: string, raw: Option<Bytes>)

  /** Raw options rewritten for one core type and read back: what they leave in the raw field,
      or how far the options got when that failed. */
  datatype Patched = Good(raw: Option<Bytes>) | Bad(options: Options)

  datatype Outcome = Accepted(name: string) | BadOptions | AllRefused | Unsupported | UnknownName

  /** One call of a core's AddNode, with the options it saw. */
  datatype Call = Call(name: string, options: Options)

  /** What the selector cannot see into: the rewriting of raw options, and each core's answer by place in the order. */
  datatype World = World(patch: (Bytes, string) -> Patched, accepts: nat -> bool)

  predicate Compatible(c: Core, requested: string, nodeType: string) {
    if requested == "" then nodeType in c.protocols else requested == c.typeName
  }

  method IsSupported(protocol: string, protocols: seq<string>) returns (found: bool)
    ensures found == (protocol in protocols)
  {
    for i := 0 to |protocols|
      invariant protocol !in protocols[..i]
    {
      if protocol == protocols[i] {
        return true;
      }
    }
    return false;
  }

  /** The raw options cannot be rewritten for this core type. */
  predicate Unpatchable(w: World, raw: Option<Bytes>, typeName: string) {
    raw.Some? && w.patch(raw.value, typeName).Bad?
  }

  /** The options as a core of this type sees them, after a successful preparation. */
  function Prepared(w: World, o: Options, typeName: string, raw: Option<Bytes>): Options
    requires !Unpatchable(w, raw, typeName)
  {
    if raw.None? then o.(core := typeName, raw := None)
    else o.(core := typeName, raw := w.patch(raw.value, typeName).raw)
  }

  /** Every name in the order has its core, as the selector's constructor leaves it. */
  predicate Complete(cores: map<string, Core>, order: seq<string>) {
    forall i :: 0 <= i < |order| ==> order[i] in cores
  }

  predicate Fits(cores: map<string, Core>, order: seq<string>, i: nat, requested: string, nodeType: string)
    requires i < |order| && Complete(cores, order)
  {
    Compatible(cores[order[i]], requested, nodeType)
  }

  /** The compatible names among the first `n`, in order. */
  function Candidates(cores: map<string, Core>, order: seq<string>, n: nat, requested: string,
                      nodeType: string): seq<string>
    requires n <= |order| && Complete(cores, order)
  {
    if n == 0 then []
    else Candidates(cores, order, n - 1, requested, nodeType)
         + if Fits(cores, order, n - 1, requested, nodeType) then [order[n - 1]] else []
  }

  function Names(calls: seq<Call>): seq<string> {
    seq(|calls|, i requires 0 <= i < |calls| => calls[i].name)
  }

  /** Place `i` ends the walk over the order: its core is compatible, and it accepts or the options cannot be rewritten
      for it. */
  predicate Stops(cores: map<string, Core>, order: seq<string>, w: World, o: Options, nodeType: string, i: nat)
    requires i < |order| && Complete(cores, order)
  {
    Fits(cores, order, i, o.core, nodeType) && (Unpatchable(w, o.raw, cores[order[i]].typeName) || w.accepts(i))
  }

  /** Place `at` is the first that ends the walk, or the order's end when none does. */
  predicate StopsFirst(cores: map<string, Core>, order: seq<string>, w: World, o: Options, nodeType: string, at: nat)
    requires Complete(cores, order)
  {
    && at <= |order|
    && (at < |order| ==> Stops(cores, order, w, o, nodeType, at))
    && forall i :: 0 <= i < at ==> !Stops(cores, order, w, o, nodeType, i)
  }

  /** Each core saw the caller's options with its own type pinned and the caller's raw options rewritten for it. */
  predicate SawOwnOptions(cores: map<string, Core>, w: World, o: Options, calls: seq<Call>) {
    forall k :: 0 <= k < |calls| ==>
      && calls[k].name in cores && !Unpatchable(w, o.raw, cores[calls[k].name].typeName)
      && calls[k].options == Prepared(w, o, cores[calls[k].name].typeName, o.raw)
  }

  /** The options a walk without success hands back: pinned to the last type tried. */
  function Tried(o: Options, calls: seq<Call>): Options {
    if calls == [] then o else o.(core := calls[|calls| - 1].options.core)
  }

  /** How a walk that ended at `at` went. */
  predicate Walked(cores: map<string, Core>, order: seq<string>, w: World, o: Options, nodeType: string, at: nat,
                   outcome: Outcome, o': Options, calls: seq<Call>)
    requires Complete(cores, order) && at <= |order|
  {
    var asked := if at < |order| && outcome.Accepted? then at + 1 else at;
    && Names(calls) == Candidates(cores, order, asked, o.core, nodeType)
    && SawOwnOptions(cores, w, o, calls)
    && if at == |order| then outcome == (if calls == [] then Unsupported else AllRefused) && o' == Tried(o, calls)
       else if Unpatchable(w, o.raw, cores[order[at]].typeName) then
         outcome == BadOptions && o' == w.patch(o.raw.value, cores[order[at]].typeName).options
       else outcome == Accepted(order[at]) && o' == o.(core := cores[order[at]].typeName, raw := None)
  }

  /** The first place from `from` on that ends the walk, or the order's end. */
  function StopOf(cores: map<string, Core>, order: seq<string>, w: World, o: Options, nodeType: string,
                  from: nat): (at: nat)
    requires from <= |order| && Complete(cores, order)
    ensures from <= at <= |order|
    decreases |order| - from
  {
    if from == |order| || Stops(cores, order, w, o, nodeType, from) then from
    else StopOf(cores, order, w, o, nodeType, from + 1)
  }

  /** What adding a node comes to. */
  function Chosen(cores: map<string, Core>, order: seq<string>, nodeType: string, o: Options, w: World): Outcome
    requires Complete(cores, order)
  {
    if o.coreName != "" then
      if o.coreName !in cores then UnknownName
      else if Unpatchable(w, o.raw, cores[o.coreName].typeName) then BadOptions
      else if w.accepts(0) then Accepted(o.coreName) else AllRefused
    else
      var at := StopOf(cores, order, w, o, nodeType, 0);
      if at == |order| then if Candidates(cores, order, at, o.core, nodeType) == [] then Unsupported else AllRefused
      else if Unpatchable(w, o.raw, cores[order[at]].typeName) then BadOptions
      else Accepted(order[at])
  }

  lemma {:induction false} StopIsFirst(cores: map<string, Core>, order: seq<string>, w: World, o: Options,
                                       nodeType: string, from: nat, at: nat)
    requires Complete(cores, order) && StopsFirst(cores, order, w, o, nodeType, at) && from <= at
    ensures StopOf(cores, order, w, o, nodeType, from) == at
    decreases |order| - from
  {
    if from < at { StopIsFirst(cores, order, w, o, nodeType, from + 1, at); }
  }

  /** The walk calls one more core, compatible and with the options rewritten for it. */
  lemma CallNoted(cores: map<string, Core>, order: seq<string>, w: World, o: Options, nodeType: string, i: nat,
                  calls: seq<Call>, call: Call)
    requires Complete(cores, order) && i < |order| && Fits(cores, order, i, o.core, nodeType) && call.name == order[i]
    requires !Unpatchable(w, o.raw, cores[call.name].typeName)
    requires call.options == Prepared(w, o, cores[call.name].typeName, o.raw)
    requires Names(calls) == Candidates(cores, order, i, o.core, nodeType) && SawOwnOptions(cores, w, o, calls)
    ensures Names(calls + [call]) == Candidates(cores, order, i + 1, o.core, nodeType)
    ensures SawOwnOptions(cores, w, o, calls + [call])
  {
    assert Names(calls + [call]) == Names(calls) + [order[i]];
  }

  lemma WalkedIsChosen(cores: map<string, Core>, order: seq<string>, w: World, o: Options, nodeType: string, at: nat,
                       outcome: Outcome, o': Options, calls: seq<Call>)
    requires Complete(cores, order) && o.coreName == "" && StopsFirst(cores, order, w, o, nodeType, at)
    requires Walked(cores, order, w, o, nodeType, at, outcome, o', calls)
    ensures outcome == Chosen(cores, order, nodeType, o, w)
  {
    StopIsFirst(cores, order, w, o, nodeType, 0, at);
    hide Stops, SawOwnOptions, StopOf;
    assert calls == [] <==> Names(calls) == [];
  }

  /** One call on the selector. */
  datatype Event = Add(tag: string, nodeType: string, o: Options, w: World) | Del(tag: string, agrees: bool)

  function Step(cores: map<string, Core>, order: seq<string>, nodes: map<string, string>, e: Event): map<string, string>
    requires Complete(cores, order)
  {
    match e
    case Add(tag, nodeType, o, w) =>
      var outcome := Chosen(cores, order, nodeType, o, w);
      if outcome.Accepted? then nodes[tag := outcome.name] else nodes
    case Del(tag, agrees) => if tag in nodes && agrees then nodes - {tag} else nodes
  }

  class Selector {
    const cores: map<string, Core>
    const order: seq<string>
    var nodes: map<string, string>  // tag -> name of the core that serves it

    constructor (cores: map<string, Core>, order: seq<string>)
      ensures this.cores == cores && this.order == order && nodes == map[]
    {
      this.cores, this.order, nodes := cores, order, map[];
    }

    /** Pins the options to the core's type and re-reads the raw options for it. */
    method PrepareCoreOptions(w: World, o: Options, c: Core, raw: Option<Bytes>) returns (o': Options, ok: bool)
      requires raw.None? ==> o.raw.None?
      ensures ok == !Unpatchable(w, raw, c.typeName)
      ensures o' == if ok then Prepared(w, o, c.typeName, raw) else w.patch(raw.value, c.typeName).options
    {
      if o.core == c.typeName && raw.None? {
        return o, true;
      }
      o' := o.(core := c.typeName, raw := raw);
      if raw.None? {
        return o', true;
      }
      match w.patch(raw.value, c.typeName) {
        case Bad(partial) => return partial, false;
        case Good(r) => return o'.(core := c.typeName, raw := r), true;
      }
    }

    /** With a core name: that core alone is asked. Without one: the compatible cores in order, up to the first that
        accepts. */
    method AddNode(tag: string, nodeType: string, o: Options, w: World)
      returns (outcome: Outcome, o': Options, ghost calls: seq<Call>, ghost at: nat)
      requires Complete(cores, order)
      modifies this
      ensures outcome == Chosen(cores, order, nodeType, o, w)
      ensures nodes == Step(cores, order, old(nodes), Add(tag, nodeType, o, w))
      ensures o.coreName == "" ==>
              StopsFirst(cores, order, w, o, nodeType, at)
              && Walked(cores, order, w, o, nodeType, at, outcome, o', calls)
      ensures o.coreName != "" ==>
                && Names(calls) == (if outcome.UnknownName? || outcome.BadOptions? then [] else [o.coreName])
                && SawOwnOptions(cores, w, o, calls)
                && o' == match outcome
                         case UnknownName => o
                         case BadOptions => w.patch(o.raw.value, cores[o.coreName].typeName).options
                         case Accepted(_) => o.(core := cores[o.coreName].typeName, raw := None)
                         case _ => Prepared(w, o, cores[o.coreName].typeName, o.raw)
    {
      var raw := o.raw;
      o', calls, at := o, [], 0;
      if |o.coreName| > 0 {
        if o.coreName !in cores {
          return UnknownName, o', calls, at;
        }
        var ok;
        o', ok := PrepareCoreOptions(w, o', cores[o.coreName], raw);
        if !ok {
          return BadOptions, o', calls, at;
        }
        calls := [Call(o.coreName, o')];
        if !w.accepts(0) {
          return AllRefused, o', calls, at;
        }
        o' := o'.(raw := None);
        nodes := nodes[tag := o.coreName];
        return Accepted(o.coreName), o', calls, at;
      }
      outcome, o', calls, at := AddToFirst(tag, nodeType, o, w);
      WalkedIsChosen(cores, order, w, o, nodeType, at, outcome, o', calls);
    }

    /** The loop over the order. */
    method AddToFirst(tag: string, nodeType: string, o: Options, w: World)
      returns (outcome: Outcome, o': Options, ghost calls: seq<Call>, ghost at: nat)
      requires Complete(cores, order)
      modifies this
      ensures nodes == if outcome.Accepted? then old(nodes)[tag := outcome.name] else old(nodes)
      ensures StopsFirst(cores, order, w, o, nodeType, at)
              && Walked(cores, order, w, o, nodeType, at, outcome, o', calls)
    {
      var raw := o.raw;
      var errs: seq<string> := [];
      o', calls, at := o, [], 0;
      for i := 0 to |order|
        invariant nodes == old(nodes) && |errs| == |calls| && at == i
        invariant o' == Tried(o, calls)
        invariant Names(calls) == Candidates(cores, order, i, o.core, nodeType)
        invariant SawOwnOptions(cores, w, o, calls)
        invariant forall j :: 0 <= j < i ==> !Stops(cores, order, w, o, nodeType, j)
      {
        hide SawOwnOptions;
        var c := cores[order[i]];
        if o.core == "" {
          var supported := IsSupported(nodeType, c.protocols);
          if !supported {
            at := i + 1;
            continue;
          }
        } else if o.core != c.typeName {
          at := i + 1;
          continue;
        }
        assert Fits(cores, order, i, o.core, nodeType);
        var ok;
        o', ok := PrepareCoreOptions(w, o', c, raw);
        if !ok {
          return BadOptions, o', calls, at;
        }
        CallNoted(cores, order, w, o, nodeType, i, calls, Call(order[i], o'));
        calls := calls + [Call(order[i], o')];
        if !w.accepts(i) {
          errs := errs + [c.typeName];
          o' := o'.(raw := raw);
          at := i + 1;
          continue;
        }
        o' := o'.(raw := None);
        nodes := nodes[tag := order[i]];
        return Accepted(order[i]), o', calls, at;
      }
      outcome := if |errs| > 0 then AllRefused else Unsupported;
    }

    /** Routed to the core that serves the tag; the route goes when that core agrees. */
    method DelNode(tag: string, agrees: bool) returns (called: Option<string>, ok: bool)
      modifies this
      ensures called == (if tag in old(nodes) then Some(old(nodes)[tag]) else None)
      ensures ok == (tag in old(nodes) && agrees)
      ensures Complete(cores, order) ==> nodes == Step(cores, order, old(nodes), Del(tag, agrees))
    {
      if tag !in nodes {
        return None, false;
      }
      called := Some(nodes[tag]);
      if !agrees {
        return called, false;
      }
      nodes := nodes - {tag};
      return called, true;
    }

    /** Where AddUsers, DelUsers and the traffic report of a tag are sent. */
    method Route(tag: string) returns (called: Option<string>)
      ensures called == if tag in nodes then Some(nodes[tag]) else None
    {
      if tag !in nodes {
        return None;
      }
      return Some(nodes[tag]);
    }
  }

  // ---------------------------------------------------------------------------
  // After a failure
  // ---------------------------------------------------------------------------

  /** Options left pinned by a failed attempt over free options: a retry asks exactly the cores of the last
      type tried, so it falls back over the same cores only when all the compatible ones share that type. */
  lemma RetryCandidatesIff(cores: map<string, Core>, order: seq<string>, nodeType: string, last: string)
    requires Complete(cores, order) && last != ""
    ensures Candidates(cores, order, |order|, last, nodeType) == Candidates(cores, order, |order|, "", nodeType) <==>
            forall i :: 0 <= i < |order| ==>
                (nodeType in cores[order[i]].protocols <==> cores[order[i]].typeName == last)
  {
    CandidatesAgreeIff(cores, order, |order|, nodeType, last);
  }

  /** Two compatible cores of different types refused once: the retry asks the second one only. */
  lemma RetryAsksFewer()
    ensures var cores := map["x" := Core("xray", ["vless"]), "s" := Core("sing", ["vless"])];
            && Candidates(cores, ["x", "s"], 2, "", "vless") == ["x", "s"]
            && Candidates(cores, ["x", "s"], 2, "sing", "vless") == ["s"]
  {
    var cores := map["x" := Core("xray", ["vless"]), "s" := Core("sing", ["vless"])];
    assert Candidates(cores, ["x", "s"], 1, "", "vless") == ["x"];
    assert Candidates(cores, ["x", "s"], 1, "sing", "vless") == [];
  }

  lemma {:induction false} CandidatesAgreeIff(cores: map<string, Core>, order: seq<string>, n: nat, nodeType: string,
                                              last: string)
    requires Complete(cores, order) && last != "" && n <= |order|
    ensures Candidates(cores, order, n, last, nodeType) == Candidates(cores, order, n, "", nodeType) <==>
            forall i :: 0 <= i < n ==> (nodeType in cores[order[i]].protocols <==> cores[order[i]].typeName == last)
  {
    var pinned, free := Candidates(cores, order, n, last, nodeType), Candidates(cores, order, n, "", nodeType);
    CandidatesMembers(cores, order, n, last, nodeType);
    CandidatesMembers(cores, order, n, "", nodeType);
    if pinned == free {
      forall i | 0 <= i < n
        ensures nodeType in cores[order[i]].protocols <==> cores[order[i]].typeName == last
      {
        assert order[i] in pinned <==> order[i] in free;
      }
    }
    if forall i :: 0 <= i < n ==> (nodeType in cores[order[i]].protocols <==> cores[order[i]].typeName == last) {
      SameFitsSameCandidates(cores, order, n, nodeType, last);
    }
  }

  lemma {:induction false} CandidatesMembers(cores: map<string, Core>, order: seq<string>, n: nat, requested: string,
                                             nodeType: string)
    requires Complete(cores, order) && n <= |order|
    ensures forall i :: 0 <= i < n ==>
            (order[i] in Candidates(cores, order, n, requested, nodeType) <==>
            Fits(cores, order, i, requested, nodeType))
    ensures forall x :: x in Candidates(cores, order, n, requested, nodeType) ==>
            x in cores && Compatible(cores[x], requested, nodeType)
  {
    if n > 0 { CandidatesMembers(cores, order, n - 1, requested, nodeType); }
  }

  lemma {:induction false} SameFitsSameCandidates(cores: map<string, Core>, order: seq<string>, n: nat,
                                                  nodeType: string, last: string)
    requires Complete(cores, order) && last != "" && n <= |order|
    requires forall i :: 0 <= i < n ==> (nodeType in cores[order[i]].protocols <==> cores[order[i]].typeName == last)
    ensures Candidates(cores, order, n, last, nodeType) == Candidates(cores, order, n, "", nodeType)
  {
    if n > 0 { SameFitsSameCandidates(cores, order, n - 1, nodeType, last); }
  }

  // ---------------------------------------------------------------------------
  // Routing over runs
  // ---------------------------------------------------------------------------

  function After(cores: map<string, Core>, order: seq<string>, nodes: map<string, string>,
                 es: seq<Event>): map<string, string>
    requires Complete(cores, order)
  {
    if es == [] then nodes
    else Step(cores, order, After(cores, order, nodes, es[..|es| - 1]), es[|es| - 1])
  }

  /** The call adds the tag to some core, or removes it wherever it is. */
  predicate Touches(cores: map<string, Core>, order: seq<string>, e: Event, tag: string)
    requires Complete(cores, order)
  {
    e.tag == tag && match e
                    case Add(_, nodeType, o, w) => Chosen(cores, order, nodeType, o, w).Accepted?
                    case Del(_, agrees) => agrees
  }

  /** Event `i` settles the tag's route and no later one touches it. */
  predicate Settles(cores: map<string, Core>, order: seq<string>, es: seq<Event>, tag: string, i: nat)
    requires Complete(cores, order)
  {
    && i < |es| && Touches(cores, order, es[i], tag)
    && forall j :: i < j < |es| ==> !Touches(cores, order, es[j], tag)
  }

  lemma SettlesNext(cores: map<string, Core>, order: seq<string>, es: seq<Event>, tag: string, i: nat)
    requires Complete(cores, order) && es != []
    ensures var n := |es| - 1;
            && (Settles(cores, order, es, tag, i) <==>
                if Touches(cores, order, es[n], tag) then i == n else Settles(cores, order, es[..n], tag, i))
            && (Settles(cores, order, es[..n], tag, i) ==> i < n && es[..n][i] == es[i])
  {
    hide Touches;
    var n := |es| - 1;
    assert forall j :: 0 <= j < n ==> es[..n][j] == es[j];
  }

  /** Over any run of calls, whatever the cores answer: a tag is routed exactly when the last call to touch it added it,
      and then to the core that call chose. */
  lemma {:induction false} RoutedToLastAcceptor(cores: map<string, Core>, order: seq<string>, es: seq<Event>,
                                                tag: string)
    requires Complete(cores, order)
    ensures tag in After(cores, order, map[], es) <==>
            exists i: nat :: i < |es| && Settles(cores, order, es, tag, i) && es[i].Add?
    ensures forall i: nat :: i < |es| && Settles(cores, order, es, tag, i) && es[i].Add? ==>
              tag in After(cores, order, map[], es)
              && Accepted(After(cores, order, map[], es)[tag]) == Chosen(cores, order, es[i].nodeType, es[i].o, es[i].w)
  {
    if es != [] {
      hide Settles, Chosen;
      var n := |es| - 1;
      RoutedToLastAcceptor(cores, order, es[..n], tag);
      forall i: nat
        ensures Settles(cores, order, es, tag, i) <==>
                if Touches(cores, order, es[n], tag) then i == n else Settles(cores, order, es[..n], tag, i)
        ensures Settles(cores, order, es[..n], tag, i) ==> i < n && es[..n][i] == es[i]
      {
        SettlesNext(cores, order, es, tag, i);
      }
    }
  }

  // ---------------------------------------------------------------------------
  // How an addition ends
  // ---------------------------------------------------------------------------

  /** A core of the pinned type, or one for the protocol when no type is pinned. */
  predicate CanServe(c: Core, pinned: string, nodeType: string) {
    (pinned == "" && nodeType in c.protocols) || (pinned != "" && c.typeName == pinned)
  }

  predicate Readable(w: World, raw: Option<Bytes>, typeName: string) {
    raw.Some? ==> w.patch(raw.value, typeName).Good?
  }

  /** Every core before place `i` that can serve the node could read the options and refused. */
  predicate RefusedBefore(cores: map<string, Core>, order: seq<string>, w: World, o: Options, nodeType: string, i: nat)
    requires i <= |order| && Complete(cores, order)
  {
    forall j :: 0 <= j < i && CanServe(cores[order[j]], o.core, nodeType) ==>
                  !w.accepts(j) && Readable(w, o.raw, cores[order[j]].typeName)
  }

  /** Place `i` is reached, and its core can serve the node. */
  predicate Reached(cores: map<string, Core>, order: seq<string>, w: World, o: Options, nodeType: string, i: nat)
    requires Complete(cores, order)
  {
    i < |order| && CanServe(cores[order[i]], o.core, nodeType) && RefusedBefore(cores, order, w, o, nodeType, i)
  }

  predicate ReachedAndAccepts(cores: map<string, Core>, order: seq<string>, w: World, o: Options, nodeType: string,
                              i: nat)
    requires Complete(cores, order)
  {
    Reached(cores, order, w, o, nodeType, i) && Readable(w, o.raw, cores[order[i]].typeName) && w.accepts(i)
  }

  predicate ReachedAndUnreadable(cores: map<string, Core>, order: seq<string>, w: World, o: Options, nodeType: string,
                                 i: nat)
    requires Complete(cores, order)
  {
    Reached(cores, order, w, o, nodeType, i) && !Readable(w, o.raw, cores[order[i]].typeName)
  }

  lemma WalkEnds(cores: map<string, Core>, order: seq<string>, w: World, o: Options, nodeType: string)
    requires Complete(cores, order)
    ensures var at := StopOf(cores, order, w, o, nodeType, 0);
            && RefusedBefore(cores, order, w, o, nodeType, at)
            && (at < |order| ==>
                  && Reached(cores, order, w, o, nodeType, at)
                  && (Readable(w, o.raw, cores[order[at]].typeName) ==> w.accepts(at)))
            && (forall i: nat :: ReachedAndAccepts(cores, order, w, o, nodeType, i) ==> i == at)
            && (forall i: nat :: ReachedAndUnreadable(cores, order, w, o, nodeType, i) ==> i == at)
  {
    var at := StopOf(cores, order, w, o, nodeType, 0);
    StopOfStops(cores, order, w, o, nodeType, 0);
    forall j | 0 <= j < at && CanServe(cores[order[j]], o.core, nodeType)
      ensures !w.accepts(j) && Readable(w, o.raw, cores[order[j]].typeName)
    {
      assert !Stops(cores, order, w, o, nodeType, j);
    }
    forall i: nat | ReachedAndAccepts(cores, order, w, o, nodeType, i)
                 || ReachedAndUnreadable(cores, order, w, o, nodeType, i)
      ensures i == at
    {
      assert Stops(cores, order, w, o, nodeType, i);
      if at < i { assert CanServe(cores[order[at]], o.core, nodeType); }
    }
  }

  /** Without a core name the route of an added tag leads to the first core that can serve the node and accepts,
      unless the options cannot be read for it or for one before it. The call fails as unsupported when no core can
      serve the node, and as refused when all that can were asked. */
  lemma FreeChoiceIff(cores: map<string, Core>, order: seq<string>, nodeType: string, o: Options, w: World)
    requires Complete(cores, order) && o.coreName == ""
    ensures var outcome := Chosen(cores, order, nodeType, o, w);
            && (outcome.Accepted? <==> exists i: nat :: ReachedAndAccepts(cores, order, w, o, nodeType, i))
            && (forall i: nat :: ReachedAndAccepts(cores, order, w, o, nodeType, i) ==> outcome == Accepted(order[i]))
            && (outcome.BadOptions? <==> exists i: nat :: ReachedAndUnreadable(cores, order, w, o, nodeType, i))
            && (outcome.Unsupported? <==>
                  forall i :: 0 <= i < |order| ==> !CanServe(cores[order[i]], o.core, nodeType))
            && (outcome.AllRefused? <==>
                  && (exists i :: 0 <= i < |order| && CanServe(cores[order[i]], o.core, nodeType))
                  && RefusedBefore(cores, order, w, o, nodeType, |order|))
            && outcome != UnknownName
  {
    var at := StopOf(cores, order, w, o, nodeType, 0);
    WalkEnds(cores, order, w, o, nodeType);
    CandidatesMembers(cores, order, |order|, o.core, nodeType);
    hide StopOf, Candidates, RefusedBefore, Readable;
    if at < |order| {
      assert CanServe(cores[order[at]], o.core, nodeType);
      assert if Readable(w, o.raw, cores[order[at]].typeName) then ReachedAndAccepts(cores, order, w, o, nodeType, at)
             else ReachedAndUnreadable(cores, order, w, o, nodeType, at);
      NotAllRefused(cores, order, w, o, nodeType, at);
      ReadableIff(w, o.raw, cores[order[at]].typeName);
    } else {
      CandidatesEmptyIff(cores, order, o, nodeType);
    }
  }

  lemma ReadableIff(w: World, raw: Option<Bytes>, typeName: string)
    ensures Readable(w, raw, typeName) <==> !Unpatchable(w, raw, typeName)
  {
  }

  lemma NotAllRefused(cores: map<string, Core>, order: seq<string>, w: World, o: Options, nodeType: string, i: nat)
    requires Complete(cores, order)
    requires ReachedAndAccepts(cores, order, w, o, nodeType, i) || ReachedAndUnreadable(cores, order, w, o, nodeType, i)
    ensures !RefusedBefore(cores, order, w, o, nodeType, |order|)
  {
  }

  lemma CandidatesEmptyIff(cores: map<string, Core>, order: seq<string>, o: Options, nodeType: string)
    requires Complete(cores, order)
    ensures Candidates(cores, order, |order|, o.core, nodeType) == [] <==>
            forall i :: 0 <= i < |order| ==> !CanServe(cores[order[i]], o.core, nodeType)
  {
    var all := Candidates(cores, order, |order|, o.core, nodeType);
    CandidatesMembers(cores, order, |order|, o.core, nodeType);
    if all == [] {
      forall i | 0 <= i < |order|
        ensures !CanServe(cores[order[i]], o.core, nodeType)
      {
        assert order[i] !in all;
      }
    } else {
      CandidatesCome(cores, order, |order|, o.core, nodeType);
    }
  }

  lemma {:induction false} CandidatesCome(cores: map<string, Core>, order: seq<string>, n: nat, requested: string,
                                          nodeType: string)
    requires Complete(cores, order) && n <= |order| && Candidates(cores, order, n, requested, nodeType) != []
    ensures exists i :: 0 <= i < n && Fits(cores, order, i, requested, nodeType)
  {
    if n > 0 && !Fits(cores, order, n - 1, requested, nodeType) {
      CandidatesCome(cores, order, n - 1, requested, nodeType);
    }
  }

  /** With a core name the node goes to that core exactly when it exists, can read the options and accepts;
      no other core is ever chosen. */
  lemma NamedChoiceIff(cores: map<string, Core>, order: seq<string>, nodeType: string, o: Options, w: World)
    requires Complete(cores, order) && o.coreName != ""
    ensures var outcome := Chosen(cores, order, nodeType, o, w);
            if o.coreName !in cores then outcome == UnknownName
            else if !Readable(w, o.raw, cores[o.coreName].typeName) then outcome == BadOptions
            else if w.accepts(0) then outcome == Accepted(o.coreName)
            else outcome == AllRefused
  {
  }

  /** A core called on sees its own type pinned and the raw options as rewritten for it; the requested name is kept. */
  lemma CoresSeeOwnOptions(cores: map<string, Core>, w: World, o: Options, calls: seq<Call>, k: nat)
    requires SawOwnOptions(cores, w, o, calls) && k < |calls|
    ensures calls[k].name in cores
    ensures var typeName, seen := cores[calls[k].name].typeName, calls[k].options;
            && seen.core == typeName && seen.coreName == o.coreName
            && (seen.raw.Some? ==> o.raw.Some?)
            && (o.raw.Some? ==> w.patch(o.raw.value, typeName) == Good(seen.raw))
  {
  }

  /** The options a call without a core name hands back: after success they are pinned to the chosen core's type and
      their raw part is spent; after refusals the raw part is back and the type of the last core asked stays pinned. */
  lemma OptionsHandedBack(cores: map<string, Core>, order: seq<string>, w: World, o: Options, nodeType: string, at: nat,
                          outcome: Outcome, o': Options, calls: seq<Call>)
    requires Complete(cores, order) && at <= |order| && Walked(cores, order, w, o, nodeType, at, outcome, o', calls)
    ensures outcome.Accepted? ==>
              at < |order| && o'.raw.None? && o'.core == cores[order[at]].typeName && o'.coreName == o.coreName
    ensures outcome.Unsupported? ==> o' == o && calls == []
    ensures outcome.AllRefused? ==>
              && calls != [] && calls[|calls| - 1].name in cores && o'.raw == o.raw && o'.coreName == o.coreName
              && o'.core == cores[calls[|calls| - 1].name].typeName
  {
    if outcome.AllRefused? { CoresSeeOwnOptions(cores, w, o, calls, |calls| - 1); }
  }

  lemma {:induction false} StopOfStops(cores: map<string, Core>, order: seq<string>, w: World, o: Options,
                                       nodeType: string, from: nat)
    requires Complete(cores, order) && from <= |order|
    ensures var at := StopOf(cores, order, w, o, nodeType, from);
            && (at < |order| ==> Stops(cores, order, w, o, nodeType, at))
            && forall i :: from <= i < at ==> !Stops(cores, order, w, o, nodeType, i)
    decreases |order| - from
  {
    if from < |order| && !Stops(cores, order, w, o, nodeType, from) {
      StopOfStops(cores, order, w, o, nodeType, from + 1);
    }
  }
}
