/** Peeking at a stream to guess its protocol, without disturbing what is forwarded. */
module Sniffing {
  import opened Common
  import opened ByteStrings

  // ---------------------------------------------------------------------------
  // The caching reader
  // ---------------------------------------------------------------------------

  /** One read of the upstream: the bytes it hands over and whether it also reports an error. */
  datatype Read = Read(data: Bytes, failed: bool)

  /** Reader, upstream and what the forwarding side got so far. */
  datatype Stream = Stream(script: seq<Read>, cache: Bytes, consumed: Bytes, returned: Bytes)

  datatype Op = Peek(capacity: nat) | Take | Interrupt

  function FirstRead(script: seq<Read>): Read {
    if script == [] then Read([], true) else script[0]
  }

  function Rest(script: seq<Read>): seq<Read> {
    if script == [] then [] else script[1..]
  }

  function Prefix(b: Bytes, capacity: nat): Bytes {
    if |b| <= capacity then b else b[..capacity]
  }

  /** An erroring read is not cached; a cached byte is handed over before the upstream is read again. */
  function Step(s: Stream, op: Op): Stream {
    var r := FirstRead(s.script);
    match op
    case Peek(_) =>
      s.(script := Rest(s.script), consumed := s.consumed + r.data,
         cache := if r.failed then s.cache else s.cache + r.data)
    case Take =>
      if s.cache != [] then s.(cache := [], returned := s.returned + s.cache)
      else s.(script := Rest(s.script), consumed := s.consumed + r.data, returned := s.returned + r.data)
    case Interrupt => s.(cache := [])
  }

  function After(s: Stream, ops: seq<Op>): Stream {
    if ops == [] then s else Step(After(s, ops[..|ops| - 1]), ops[|ops| - 1])
  }

  function Flatten(script: seq<Read>): Bytes {
    if script == [] then [] else script[0].data + Flatten(script[1..])
  }

  /** What was returned, followed by the cache, is what was consumed, in order. */
  predicate Transparent(s: Stream) {
    s.returned + s.cache == s.consumed
  }

  /** Exactly which operations disturb the stream: a peek whose failing read carries bytes, and an interrupt that
      discards some. */
  lemma StaysTransparentIff(s: Stream, op: Op)
    requires Transparent(s)
    ensures Transparent(Step(s, op)) <==>
            match op
            case Peek(_) => FirstRead(s.script).failed ==> FirstRead(s.script).data == []
            case Take => true
            case Interrupt => s.cache == []
  {
    var r := FirstRead(s.script);
    assert s.returned + (s.cache + r.data) == (s.returned + s.cache) + r.data;
    assert |(Step(s, op).returned + Step(s, op).cache)| == |Step(s, op).returned| + |Step(s, op).cache|;
    if op.Interrupt? && s.cache != [] {
      assert |s.returned + []| < |s.consumed|;
    }
    if op.Peek? && r.failed && r.data != [] {
      assert |s.returned + s.cache| < |s.consumed + r.data|;
    }
  }

  /** No failing read carries bytes. */
  predicate CleanFailures(script: seq<Read>) {
    forall i :: 0 <= i < |script| && script[i].failed ==> script[i].data == []
  }

  /** Over any mix of peeks and reads no byte is lost, repeated or reordered:
      returned, then cached, then not yet read is the whole stream. */
  lemma {:induction false} ForwardsTheWholeStream(s: Stream, ops: seq<Op>)
    requires Transparent(s) && CleanFailures(s.script) && forall i :: 0 <= i < |ops| ==> !ops[i].Interrupt?
    ensures var s' := After(s, ops);
            && Transparent(s') && CleanFailures(s'.script)
            && s'.returned + s'.cache + Flatten(s'.script) == s.consumed + Flatten(s.script)
            && s.returned <= s'.returned
  {
    if ops != [] {
      var n := |ops| - 1;
      ForwardsTheWholeStream(s, ops[..n]);
      var before, op := After(s, ops[..n]), ops[n];
      assert !op.Interrupt?;
      StaysTransparentIff(before, op);
      ConsumedAndUnread(before, op);
    }
  }

  lemma ConsumedAndUnread(s: Stream, op: Op)
    requires !op.Interrupt? && CleanFailures(s.script)
    ensures Step(s, op).consumed + Flatten(Step(s, op).script) == s.consumed + Flatten(s.script)
    ensures CleanFailures(Step(s, op).script) && s.returned <= Step(s, op).returned
  {
    if s.script != [] {
      assert s.consumed + (s.script[0].data + Flatten(s.script[1..])) ==
          (s.consumed + s.script[0].data) + Flatten(s.script[1..]);
    }
  }

  class CachedReader {
    var script: seq<Read>
    var cache: Bytes
    ghost var consumed: Bytes
    ghost var returned: Bytes

    ghost function State(): Stream
      reads this
    {
      Stream(script, cache, consumed, returned)
    }

    constructor (script: seq<Read>)
      ensures State() == Stream(script, [], [], [])
    {
      this.script, cache, consumed, returned := script, [], [], [];
    }

    method ReadUpstream() returns (r: Read)
      modifies this`script, this`consumed
      ensures r == FirstRead(old(script)) && script == Rest(old(script)) && consumed == old(consumed) + r.data
    {
      r := FirstRead(script);
      script := Rest(script);
      consumed := consumed + r.data;
    }

    /** The payload is the longest prefix of the unread cached bytes that fits. */
    method Cache(capacity: nat) returns (ok: bool, payload: Bytes)
      modifies this
      ensures State() == Step(old(State()), Peek(capacity))
      ensures ok == !FirstRead(old(script)).failed
      ensures ok ==> payload == Prefix(cache, capacity)
      ensures ok ==> payload <= cache && |payload| <= capacity && (|payload| == capacity || payload == cache)
    {
      var mb := ReadUpstream();
      if mb.failed {
        return false, [];
      }
      if mb.data != [] {
        cache := cache + mb.data;
      }
      ok, payload := true, Prefix(cache, capacity);
    }

    method ReadMultiBuffer() returns (r: Read)
      modifies this
      ensures State() == Step(old(State()), Take)
      ensures r == if old(cache) != [] then Read(old(cache), false) else FirstRead(old(script))
      ensures returned == old(returned) + r.data
    {
      if cache != [] {
        r := Read(cache, false);
        cache := [];
      } else {
        r := ReadUpstream();
      }
      returned := returned + r.data;
    }
  }

  // ---------------------------------------------------------------------------
  // One round of sniffers
  // ---------------------------------------------------------------------------

  datatype Network = TCP | UDP

  /** What a sniffer finds. */
  datatype SniffResult = SniffResult(protocol: string, domain: string)

  /** A protocol sniffer's answer: it cannot tell yet, it found something, or anything else
      (an error of its own, "more data" included, or no result). */
  datatype Answer = NoClue | Found(result: SniffResult) | NoResult

  /** Its answer may depend on the round it is asked in as well as on the payload. */
  datatype Probe = Probe(id: nat, metadata: bool, network: Network, ask: (nat, Bytes) -> Answer)

  datatype Outcome = Result(result: SniffResult) | ErrNoClue | ErrMoreData | ErrUnknown

  predicate Applies(p: Probe, network: Network) {
    !p.metadata && p.network == network
  }

  predicate Clueless(p: Probe, round: nat, payload: Bytes, network: Network) {
    Applies(p, network) && p.ask(round, payload).NoClue?
  }

  /** The first sniffer in order that finds something. */
  function FirstFound(ps: seq<Probe>, round: nat, payload: Bytes, network: Network): Option<SniffResult> {
    if ps == [] then None
    else if Applies(ps[0], network) && ps[0].ask(round, payload).Found? then Some(ps[0].ask(round, payload).result)
    else FirstFound(ps[1..], round, payload, network)
  }

  /** The sniffers that answered no-clue, in their order. */
  function Undecided(ps: seq<Probe>, round: nat, payload: Bytes, network: Network): seq<Probe> {
    if ps == [] then []
    else
      var first := if Clueless(ps[0], round, payload, network) then [ps[0]] else [];
      first + Undecided(ps[1..], round, payload, network)
  }

  function SniffOutcome(ps: seq<Probe>, round: nat, payload: Bytes, network: Network): Outcome {
    var found := FirstFound(ps, round, payload, network);
    if found.Some? then Result(found.value)
    else if Undecided(ps, round, payload, network) != [] then ErrNoClue
    else ErrUnknown
  }

  function SniffersAfter(ps: seq<Probe>, round: nat, payload: Bytes, network: Network): seq<Probe> {
    if SniffOutcome(ps, round, payload, network).ErrNoClue? then Undecided(ps, round, payload, network) else ps
  }

  class Sniffer {
    var sniffer: seq<Probe>

    constructor (probes: seq<Probe>)
      ensures sniffer == probes
    {
      sniffer := probes;
    }

    /** Never asks for more data: an answer that means so counts as no result. */
    method Sniff(round: nat, payload: Bytes, network: Network) returns (outcome: Outcome)
      modifies this
      ensures outcome == SniffOutcome(old(sniffer), round, payload, network)
      ensures sniffer == SniffersAfter(old(sniffer), round, payload, network)
      ensures outcome.Result? <==> FirstFound(old(sniffer), round, payload, network).Some?
      ensures outcome.Result? ==> FirstFound(old(sniffer), round, payload, network) == Some(outcome.result)
      ensures outcome.ErrNoClue? <==>
              FirstFound(old(sniffer), round, payload, network) == None
              && Undecided(old(sniffer), round, payload, network) != []
      ensures sniffer == if outcome.ErrNoClue? then Undecided(old(sniffer), round, payload, network) else old(sniffer)
    {
      hide FirstFound, Undecided;
      var pending: seq<Probe> := [];
      for i := 0 to |sniffer|
        invariant sniffer == old(sniffer)
        invariant FirstFound(sniffer, round, payload, network) == FirstFound(sniffer[i..], round, payload, network)
        invariant pending + Undecided(sniffer[i..], round, payload, network) ==
                Undecided(sniffer, round, payload, network)
      {
        var si := sniffer[i];
        SniffTurn(sniffer, i, round, payload, network, pending);
        if si.metadata || si.network != network {
          continue;
        }
        var answer := si.ask(round, payload);
        if answer.NoClue? {
          pending := pending + [si];
          continue;
        }
        if answer.Found? {
          return Result(answer.result);
        }
      }
      NobodyLeft(round, payload, network);
      assert sniffer[|sniffer|..] == [];
      if |pending| > 0 {
        sniffer := pending;
        return ErrNoClue;
      }
      return ErrUnknown;
    }

    /** Asks the metadata sniffers only, with no payload; the others are kept for later. */
    method SniffMetadata(round: nat) returns (outcome: Outcome)
      modifies this
      ensures outcome == MetadataOutcome(old(sniffer), round)
      ensures sniffer == SniffersAfterMetadata(old(sniffer), round)
      ensures outcome.Result? <==> MetadataFound(old(sniffer), round).Some?
      ensures outcome.Result? ==> MetadataFound(old(sniffer), round) == Some(outcome.result)
      ensures outcome.ErrNoClue? <==> MetadataFound(old(sniffer), round) == None && Kept(old(sniffer), round) != []
      ensures sniffer == if outcome.ErrNoClue? then Kept(old(sniffer), round) else old(sniffer)
    {
      hide MetadataFound, Kept;
      var pending: seq<Probe> := [];
      for i := 0 to |sniffer|
        invariant sniffer == old(sniffer)
        invariant MetadataFound(sniffer, round) == MetadataFound(sniffer[i..], round)
        invariant pending + Kept(sniffer[i..], round) == Kept(sniffer, round)
      {
        var si := sniffer[i];
        MetadataTurn(sniffer, i, round, pending);
        if !si.metadata {
          pending := pending + [si];
          continue;
        }
        var answer := si.ask(round, []);
        if answer.NoClue? {
          pending := pending + [si];
          continue;
        }
        if answer.Found? {
          return Result(answer.result);
        }
      }
      assert sniffer[|sniffer|..] == [];
      NobodyLeft(round, [], TCP);
      if |pending| > 0 {
        sniffer := pending;
        return ErrNoClue;
      }
      return ErrUnknown;
    }
  }

  function MetadataFound(ps: seq<Probe>, round: nat): Option<SniffResult> {
    if ps == [] then None
    else if ps[0].metadata && ps[0].ask(round, []).Found? then Some(ps[0].ask(round, []).result)
    else MetadataFound(ps[1..], round)
  }

  function Kept(ps: seq<Probe>, round: nat): seq<Probe> {
    if ps == [] then []
    else (if !ps[0].metadata || ps[0].ask(round, []).NoClue? then [ps[0]] else []) + Kept(ps[1..], round)
  }

  function MetadataOutcome(ps: seq<Probe>, round: nat): Outcome {
    if MetadataFound(ps, round).Some? then Result(MetadataFound(ps, round).value)
    else if Kept(ps, round) != [] then ErrNoClue
    else ErrUnknown
  }

  function SniffersAfterMetadata(ps: seq<Probe>, round: nat): seq<Probe> {
    if MetadataOutcome(ps, round).ErrNoClue? then Kept(ps, round) else ps
  }

  lemma SniffTurn(ps: seq<Probe>, i: nat, round: nat, payload: Bytes, network: Network, pending: seq<Probe>)
    requires i < |ps|
    ensures var p := ps[i];
            && FirstFound(ps[i..], round, payload, network) ==
               (if Applies(p, network) && p.ask(round, payload).Found? then Some(p.ask(round, payload).result)
                   else FirstFound(ps[i + 1..], round, payload, network))
            && pending + Undecided(ps[i..], round, payload, network) ==
               (if Applies(p, network) && p.ask(round, payload).NoClue? then pending + [p] else pending)
                   + Undecided(ps[i + 1..], round, payload, network)
  {
    assert ps[i..][1..] == ps[i + 1..];
  }

  lemma MetadataTurn(ps: seq<Probe>, i: nat, round: nat, pending: seq<Probe>)
    requires i < |ps|
    ensures var p := ps[i];
            && MetadataFound(ps[i..], round) ==
                (if p.metadata && p.ask(round, []).Found? then Some(p.ask(round, []).result)
                    else MetadataFound(ps[i + 1..], round))
            && pending + Kept(ps[i..], round) ==
                (if !p.metadata || p.ask(round, []).NoClue? then pending + [p] else pending) + Kept(ps[i + 1..], round)
  {
    KeptFirst(ps[i..], round);
    assert ps[i..][1..] == ps[i + 1..];
    hide Kept, MetadataFound;
    Regroup(pending, if !ps[i].metadata || ps[i].ask(round, []).NoClue? then [ps[i]] else [], Kept(ps[i + 1..], round));
  }

  lemma KeptFirst(ps: seq<Probe>, round: nat)
    requires ps != []
    ensures Kept(ps, round) ==
            (if !ps[0].metadata || ps[0].ask(round, []).NoClue? then [ps[0]] else []) + Kept(ps[1..], round)
    ensures MetadataFound(ps, round) ==
            if ps[0].metadata && ps[0].ask(round, []).Found? then Some(ps[0].ask(round, []).result)
                else MetadataFound(ps[1..], round)
  {
  }

  lemma NobodyLeft(round: nat, payload: Bytes, network: Network)
    ensures FirstFound([], round, payload, network) == None && Undecided([], round, payload, network) == []
    ensures MetadataFound([], round) == None && Kept([], round) == []
  {
  }

  // ---------------------------------------------------------------------------
  // The retry loop
  // ---------------------------------------------------------------------------

  const CACHE_DEADLINE_MS := 200

  /** What happens around one attempt: the context is done, and how long caching takes. */
  datatype Tick = Tick(cancelled: bool, elapsedMs: int)

  datatype Verdict = Sniffed(outcome: Outcome) | Cancelled | ReadFailed | TimedOut

  /** One attempt either settles the verdict or leaves sniffers, stream and deadline for another. */
  datatype Attempt =
    | Settled(verdict: Verdict, stream: Stream)
    | Again(sniffers: seq<Probe>, stream: Stream, deadline: int)

  function Try(ps: seq<Probe>, round: nat, s: Stream, capacity: nat, network: Network, tick: Tick, deadline: int,
               last: bool): Attempt {
    if tick.cancelled then Settled(Cancelled, s)
    else
      var s' := Step(s, Peek(capacity));
      var payload := Prefix(s'.cache, capacity);
      var left := deadline - tick.elapsedMs;
      if FirstRead(s.script).failed then Settled(ReadFailed, s')
      else if payload != [] && !SniffOutcome(ps, round, payload, network).ErrNoClue? then
        Settled(Sniffed(SniffOutcome(ps, round, payload, network)), s')
      else if last || left <= 0 then Settled(TimedOut, s')
      else Again(if payload != [] then Undecided(ps, round, payload, network) else ps, s', left)
  }

  /** Two attempts and no loop. */
  function TwoTries(ps: seq<Probe>, s: Stream, capacity: nat, network: Network, first: Tick, second: Tick): Attempt {
    match Try(ps, 1, s, capacity, network, first, CACHE_DEADLINE_MS, false)
    case Again(ps', s', left) => Try(ps', 2, s', capacity, network, second, left, true)
    case settled => settled
  }

  /** The loop has no bound written into it beyond the counter; it stops after two attempts because
      the sniffers never ask for more data, so every attempt counts. */
  method SniffContent(sniffer: Sniffer, reader: CachedReader, capacity: nat, network: Network, ticks: nat -> Tick)
    returns (verdict: Verdict, ghost attempts: nat)
    modifies sniffer, reader
    ensures TwoTries(old(sniffer.sniffer), old(reader.State()), capacity, network, ticks(0), ticks(1)) ==
            Settled(verdict, reader.State())
    ensures attempts <= 2
  {
    attempts := 0;
    var deadline, totalAttempt, n := CACHE_DEADLINE_MS, 0, 0;
    ghost var ps, s := sniffer.sniffer, reader.State();
    while true
      invariant attempts == totalAttempt == n && n <= 1
      invariant n == 0 ==> deadline == CACHE_DEADLINE_MS && sniffer.sniffer == ps && reader.State() == s
      invariant n == 1 ==>
                  Try(ps, 1, s, capacity, network, ticks(0), CACHE_DEADLINE_MS, false) ==
                  Again(sniffer.sniffer, reader.State(), deadline)
      decreases 2 - totalAttempt
    {
      var tick := ticks(n);
      if tick.cancelled {
        return Cancelled, attempts;
      }
      attempts, n := attempts + 1, n + 1;
      var ok, payload := reader.Cache(capacity);
      if !ok {
        return ReadFailed, attempts;
      }
      deadline := deadline - tick.elapsedMs;
      if payload != [] {
        var outcome := sniffer.Sniff(n, payload, network);
        match outcome {
          case ErrNoClue => totalAttempt := totalAttempt + 1;
          case ErrMoreData => assert false;
          case _ => return Sniffed(outcome), attempts;
        }
      } else {
        totalAttempt := totalAttempt + 1;
      }
      if totalAttempt >= 2 || deadline <= 0 {
        return TimedOut, attempts;
      }
    }
  }

  /** What sniffing reports: one result, or one that takes its domain and its protocol from different sniffers. */
  datatype Report =
    | Plain(result: SniffResult)
    | Composite(domainResult: SniffResult, protocolResult: SniffResult)
    | Failed(why: Verdict)

  function Protocol(r: Report): string
    requires !r.Failed?
  {
    if r.Plain? then r.result.protocol else r.protocolResult.protocol
  }

  function Domain(r: Report): string
    requires !r.Failed?
  {
    if r.Plain? then r.result.domain else r.domainResult.domain
  }

  /** The protocol of the sniffer that found the domain. */
  function ProtocolForDomain(r: Report): string
    requires !r.Failed?
  {
    if r.Plain? then r.result.protocol else r.domainResult.protocol
  }

  function Conclude(metadata: Outcome, metadataOnly: bool, content: Verdict): Report {
    var found := content.Sniffed? && content.outcome.Result?;
    if metadataOnly then if metadata.Result? then Plain(metadata.result) else Failed(Sniffed(metadata))
    else if !found && metadata.Result? then Plain(metadata.result)
    else if found && metadata.Result? then Composite(metadata.result, content.outcome.result)
    else if found then Plain(content.outcome.result)
    else Failed(content)
  }

  /** The domain comes from the metadata whenever they have one, the protocol from the content whenever it is wanted and
      has one; the report fails exactly when neither has a result. */
  lemma DomainFromMetadata(metadata: Outcome, metadataOnly: bool, content: Verdict)
    ensures var report := Conclude(metadata, metadataOnly, content);
            var fromContent := !metadataOnly && content.Sniffed? && content.outcome.Result?;
            && (report.Failed? <==> !metadata.Result? && !fromContent)
            && (report.Failed? ==> report.why == if metadataOnly then Sniffed(metadata) else content)
            && (metadata.Result? ==>
                  Domain(report) == metadata.result.domain && ProtocolForDomain(report) == metadata.result.protocol)
            && (fromContent ==> Protocol(report) == content.outcome.result.protocol)
            && (metadata.Result? && !fromContent ==> Protocol(report) == metadata.result.protocol)
            && (fromContent && !metadata.Result? ==> Domain(report) == content.outcome.result.domain)
  {
  }

  /** Metadata sniffing first, then the content unless it is not wanted. */
  method Sniff(sniffer: Sniffer, reader: CachedReader, capacity: nat, metadataOnly: bool, network: Network,
               ticks: nat -> Tick)
    returns (report: Report)
    modifies sniffer, reader
    ensures metadataOnly ==>
              && reader.State() == old(reader.State())
              && report == Conclude(MetadataOutcome(old(sniffer.sniffer), 0), true, TimedOut)
    ensures !metadataOnly ==>
              exists verdict ::
                TwoTries(old(sniffer.sniffer), old(reader.State()), capacity, network, ticks(0), ticks(1)) ==
                    Settled(verdict, reader.State())
                && report == Conclude(MetadataOutcome(old(sniffer.sniffer), 0), false, verdict)
  {
    var metadata := sniffer.SniffMetadata(0);
    if metadataOnly {
      return Conclude(metadata, true, TimedOut);
    }
    MetadataDoesNotDisturb(old(sniffer.sniffer), 0, reader.State(), capacity, network, ticks(0), ticks(1));
    var verdict, attempts := SniffContent(sniffer, reader, capacity, network, ticks);
    report := Conclude(metadata, false, verdict);
  }

  // ---------------------------------------------------------------------------
  // What the attempts consult
  // ---------------------------------------------------------------------------

  /** Place `i` is the first among the sniffers asked, those for content (or for metadata) in this network, to find
      something. */
  predicate FindsFirst(ps: seq<Probe>, metadata: bool, network: Network, round: nat, payload: Bytes, i: nat) {
    && i < |ps| && ps[i].metadata == metadata && (metadata || ps[i].network == network)
    && ps[i].ask(round, payload).Found?
    && forall j :: 0 <= j < i && ps[j].metadata == metadata && (metadata || ps[j].network == network) ==>
         !ps[j].ask(round, payload).Found?
  }

  lemma FindsNext(ps: seq<Probe>, metadata: bool, network: Network, round: nat, payload: Bytes, i: nat)
    requires ps != []
    requires !(ps[0].metadata == metadata && (metadata || ps[0].network == network) && ps[0].ask(round, payload).Found?)
    ensures FindsFirst(ps[1..], metadata, network, round, payload, i) ==>
              FindsFirst(ps, metadata, network, round, payload, i + 1)
    ensures i > 0 && FindsFirst(ps, metadata, network, round, payload, i) ==>
              FindsFirst(ps[1..], metadata, network, round, payload, i - 1)
  {
  }

  /** An attempt on content returns exactly what the first content sniffer of the network to find something finds. */
  lemma {:induction false} FirstFoundIff(ps: seq<Probe>, round: nat, payload: Bytes, network: Network)
    ensures FirstFound(ps, round, payload, network).Some? <==>
            exists i: nat :: FindsFirst(ps, false, network, round, payload, i)
    ensures forall i: nat :: FindsFirst(ps, false, network, round, payload, i) ==>
            FirstFound(ps, round, payload, network) == Some(ps[i].ask(round, payload).result)
  {
    if ps != [] {
      if !ps[0].metadata && ps[0].network == network && ps[0].ask(round, payload).Found? {
        assert FindsFirst(ps, false, network, round, payload, 0);
      } else {
        FirstFoundIff(ps[1..], round, payload, network);
        forall i: nat
          ensures FindsFirst(ps[1..], false, network, round, payload, i) ==>
                    FindsFirst(ps, false, network, round, payload, i + 1)
          ensures i > 0 && FindsFirst(ps, false, network, round, payload, i) ==>
                    FindsFirst(ps[1..], false, network, round, payload, i - 1)
        {
          FindsNext(ps, false, network, round, payload, i);
        }
        if i: nat :| FindsFirst(ps[1..], false, network, round, payload, i) {
          assert FindsFirst(ps, false, network, round, payload, i + 1);
        }
        assert !FindsFirst(ps, false, network, round, payload, 0);
      }
    }
  }

  /** Sniffing metadata returns exactly what the first metadata sniffer to find something finds, in any network. */
  lemma {:induction false} MetadataFoundIff(ps: seq<Probe>, round: nat)
    ensures MetadataFound(ps, round).Some? <==> exists i: nat :: FindsFirst(ps, true, TCP, round, [], i)
    ensures forall i: nat :: FindsFirst(ps, true, TCP, round, [], i) ==>
            MetadataFound(ps, round) == Some(ps[i].ask(round, []).result)
  {
    if ps != [] {
      if ps[0].metadata && ps[0].ask(round, []).Found? {
        assert FindsFirst(ps, true, TCP, round, [], 0);
      } else {
        MetadataFoundIff(ps[1..], round);
        forall i: nat
          ensures FindsFirst(ps[1..], true, TCP, round, [], i) ==> FindsFirst(ps, true, TCP, round, [], i + 1)
          ensures i > 0 && FindsFirst(ps, true, TCP, round, [], i) ==> FindsFirst(ps[1..], true, TCP, round, [], i - 1)
        {
          FindsNext(ps, true, TCP, round, [], i);
        }
        if i: nat :| FindsFirst(ps[1..], true, TCP, round, [], i) {
          assert FindsFirst(ps, true, TCP, round, [], i + 1);
        }
        assert !FindsFirst(ps, true, TCP, round, [], 0);
      }
    }
  }

  lemma {:induction false} KeptConcat(a: seq<Probe>, b: seq<Probe>, round: nat)
    ensures Kept(a + b, round) == Kept(a, round) + Kept(b, round)
  {
    if a == [] {
      assert a + b == b;
    } else {
      KeptConcat(a[1..], b, round);
      KeptFirst(a, round);
      KeptFirst(a + b, round);
      hide Kept;
      assert (a + b)[1..] == a[1..] + b && (a + b)[0] == a[0];
      Regroup(if !a[0].metadata || a[0].ask(round, []).NoClue? then [a[0]] else [],
              Kept(a[1..], round), Kept(b, round));
    }
  }

  /** Metadata sniffing without a result keeps, in order, all content sniffers and the metadata ones without a clue. */
  lemma KeptInOrder(ps: seq<Probe>, round: nat, i: nat)
    requires i < |ps|
    ensures Kept(ps, round) ==
            Kept(ps[..i], round)
            + ((if ps[i].metadata && ps[i].ask(round, []) != NoClue then [] else [ps[i]]) + Kept(ps[i + 1..], round))
  {
    assert ps[..i] + ps[i..] == ps && ps[i..][1..] == ps[i + 1..];
    KeptConcat(ps[..i], ps[i..], round);
  }

  lemma UndecidedFirst(ps: seq<Probe>, round: nat, payload: Bytes, network: Network)
    requires ps != []
    ensures Undecided(ps, round, payload, network) ==
            (if Clueless(ps[0], round, payload, network) then [ps[0]] else [])
                + Undecided(ps[1..], round, payload, network)
  {
    hide Clueless;
  }

  lemma {:induction false} UndecidedConcat(a: seq<Probe>, b: seq<Probe>, round: nat, payload: Bytes, network: Network)
    ensures Undecided(a + b, round, payload, network) ==
            Undecided(a, round, payload, network) + Undecided(b, round, payload, network)
  {
    hide Clueless;
    if a == [] {
      assert a + b == b;
    } else {
      UndecidedConcat(a[1..], b, round, payload, network);
      UndecidedFirst(a, round, payload, network);
      UndecidedFirst(a + b, round, payload, network);
      hide Undecided;
      assert (a + b)[1..] == a[1..] + b && (a + b)[0] == a[0];
      Regroup(if Clueless(a[0], round, payload, network) then [a[0]] else [],
              Undecided(a[1..], round, payload, network), Undecided(b, round, payload, network));
    }
  }

  /** Every sniffer is kept in its place, or left out, by its own answer alone: the ones an attempt leaves are exactly
      the content sniffers of the network without a clue, in their original order. */
  lemma UndecidedInOrder(ps: seq<Probe>, round: nat, payload: Bytes, network: Network, i: nat)
    requires i < |ps|
    ensures var kept := !ps[i].metadata && ps[i].network == network && ps[i].ask(round, payload) == NoClue;
            Undecided(ps, round, payload, network) ==
            Undecided(ps[..i], round, payload, network)
            + ((if kept then [ps[i]] else []) + Undecided(ps[i + 1..], round, payload, network))
  {
    assert ps[..i] + ps[i..] == ps && ps[i..][1..] == ps[i + 1..];
    UndecidedConcat(ps[..i], ps[i..], round, payload, network);
  }

  lemma {:induction false} UndecidedMembers(ps: seq<Probe>, round: nat, payload: Bytes, network: Network)
    ensures forall k :: 0 <= k < |Undecided(ps, round, payload, network)| ==>
            Clueless(Undecided(ps, round, payload, network)[k], round, payload, network)
    ensures |Undecided(ps, round, payload, network)| <= |ps|
  {
    hide Clueless;
    if ps != [] { UndecidedMembers(ps[1..], round, payload, network); }
  }

  /** The second attempt asks only sniffers that had no clue about the first payload, and sees a longer prefix of the
      same stream. */
  lemma SecondAttempt(ps: seq<Probe>, round: nat, s: Stream, capacity: nat, network: Network, tick: Tick, deadline: int)
    requires Try(ps, round, s, capacity, network, tick, deadline, false).Again?
    ensures var a := Try(ps, round, s, capacity, network, tick, deadline, false);
            var payload := Prefix(a.stream.cache, capacity);
            && a.stream == Step(s, Peek(capacity)) && 0 < a.deadline == deadline - tick.elapsedMs
            && payload <= Prefix(Step(a.stream, Peek(capacity)).cache, capacity)
            && a.sniffers == (if payload == [] then ps else Undecided(ps, round, payload, network))
            && (payload != [] ==>
                  forall k :: 0 <= k < |a.sniffers| ==> Clueless(a.sniffers[k], round, payload, network))
  {
    hide Clueless;
    UndecidedMembers(ps, round, Prefix(Step(s, Peek(capacity)).cache, capacity), network);
  }

  /** Exactly when there is a second attempt: the context lives, the read succeeds, the cache is empty or no sniffer
      finds anything while some sniffer has no clue, and caching took less than 200 ms. */
  lemma SecondAttemptIff(ps: seq<Probe>, s: Stream, capacity: nat, network: Network, tick: Tick)
    ensures var payload := Prefix(Step(s, Peek(capacity)).cache, capacity);
            Try(ps, 1, s, capacity, network, tick, CACHE_DEADLINE_MS, false).Again? <==>
            && !tick.cancelled && s.script != [] && !s.script[0].failed && tick.elapsedMs < 200
            && (payload == [] ||
                ((forall i: nat :: !FindsFirst(ps, false, network, 1, payload, i))
                 && exists p :: p in ps && Clueless(p, 1, payload, network)))
  {
    hide Clueless, FirstFound, FindsFirst, Undecided;
    var payload := Prefix(Step(s, Peek(capacity)).cache, capacity);
    FirstFoundIff(ps, 1, payload, network);
    UndecidedEmptyIff(ps, 1, payload, network);
  }

  lemma {:induction false} UndecidedEmptyIff(ps: seq<Probe>, round: nat, payload: Bytes, network: Network)
    ensures Undecided(ps, round, payload, network) == [] <==>
            !exists p :: p in ps && Clueless(p, round, payload, network)
  {
    hide Clueless;
    if ps != [] {
      UndecidedEmptyIff(ps[1..], round, payload, network);
      assert ps[0] in ps && ps == [ps[0]] + ps[1..];
    }
  }

  lemma {:induction false} KeptAnswersAlike(ps: seq<Probe>, asked: nat, round: nat, payload: Bytes, network: Network)
    ensures FirstFound(Kept(ps, asked), round, payload, network) == FirstFound(ps, round, payload, network)
    ensures Undecided(Kept(ps, asked), round, payload, network) == Undecided(ps, round, payload, network)
  {
    if ps != [] {
      KeptAnswersAlike(ps[1..], asked, round, payload, network);
      if !ps[0].metadata || ps[0].ask(asked, []).NoClue? {
        assert Kept(ps, asked)[1..] == Kept(ps[1..], asked);
      } else {
        assert [] + Kept(ps[1..], asked) == Kept(ps[1..], asked)
            && [] + Undecided(ps[1..], round, payload, network) == Undecided(ps[1..], round, payload, network);
      }
    }
  }

  /** Asking the metadata sniffers first changes nothing about what the content attempts settle. */
  lemma MetadataDoesNotDisturb(ps: seq<Probe>, asked: nat, s: Stream, capacity: nat, network: Network,
                               first: Tick, second: Tick)
    ensures TwoTries(SniffersAfterMetadata(ps, asked), s, capacity, network, first, second) ==
            TwoTries(ps, s, capacity, network, first, second)
  {
    hide FirstFound, Undecided, Kept, MetadataFound;
    var s1 := Step(s, Peek(capacity));
    var s2 := Step(s1, Peek(capacity));
    KeptAnswersAlike(ps, asked, 1, Prefix(s1.cache, capacity), network);
    KeptAnswersAlike(ps, asked, 2, Prefix(s2.cache, capacity), network);
  }

  /** Two attempts always settle the verdict, for every stream and every sniffer, even one that changes its mind. */
  lemma TwoTriesSettle(ps: seq<Probe>, s: Stream, capacity: nat, network: Network, first: Tick, second: Tick)
    ensures TwoTries(ps, s, capacity, network, first, second).Settled?
    ensures var a := TwoTries(ps, s, capacity, network, first, second);
            a.stream == s || a.stream == Step(s, Peek(capacity))
                || a.stream == Step(Step(s, Peek(capacity)), Peek(capacity))
  {
  }
}
