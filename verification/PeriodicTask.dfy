/** The start/stop protocol of a periodic task, as an interleaved step system. */
module PeriodicTask {

  /** A worker was spawned to execute first and has not run yet, is about to evaluate its select,
      blocked in it on a channel, executing, or gone. */
  datatype Worker = Spawned | Entering | Waiting(chan: nat) | Executing | Gone

  /** `closes[c]` counts how often channel `c` was closed; the current channel is the last one made.
      `begun[w]` counts the executions worker `w` has begun. */
  datatype State = State(running: bool, closes: seq<nat>, workers: seq<Worker>, begun: seq<nat>, panicked: bool)

  datatype Action =
    | Start(first: bool)
    | Close
    | Begin(w: nat)    // a worker spawned to execute first comes to run
    | Enter(w: nat)    // evaluates the select: a fresh timer and whatever channel is current now
    | Fire(w: nat)     // the timer case is taken
    | Stopped(w: nat)  // the stop case is taken
    | Return(w: nat)   // Execute returns nil
    | Fail(w: nat)     // Execute returns an error: the worker clears running and closes the current channel

  function Current(s: State): nat
    requires s.closes != []
  {
    |s.closes| - 1
  }

  predicate Closed(s: State, c: nat) {
    c < |s.closes| && s.closes[c] > 0
  }

  predicate Enabled(s: State, a: Action) {
    !s.panicked && |s.begun| == |s.workers| &&
    match a
    case Start(_) => true
    case Close => s.running ==> s.closes != []
    case Begin(w) => w < |s.workers| && s.workers[w].Spawned?
    case Enter(w) => w < |s.workers| && s.workers[w].Entering? && s.closes != []
    case Fire(w) => w < |s.workers| && s.workers[w].Waiting?
    case Stopped(w) => w < |s.workers| && s.workers[w].Waiting? && Closed(s, s.workers[w].chan)
    case Return(w) => w < |s.workers| && s.workers[w].Executing?
    case Fail(w) => w < |s.workers| && s.workers[w].Executing? && s.closes != []
  }

  function CloseCurrent(s: State): State
    requires s.closes != []
  {
    s.(running := false, closes := s.closes[Current(s) := s.closes[Current(s)] + 1])
  }

  /** With a positive interval a select that starts on a closed channel can only take the stop case. */
  function Next(s: State, a: Action): State
    requires Enabled(s, a)
  {
    match a
    case Start(first) =>
      if s.running then s
      else s.(running := true, closes := s.closes + [0],
              workers := s.workers + [if first then Spawned else Entering],
              begun := s.begun + [0])
    case Close => if s.running then CloseCurrent(s) else s
    case Begin(w) => s.(workers := s.workers[w := Executing], begun := s.begun[w := s.begun[w] + 1])
    case Enter(w) => s.(workers := s.workers[w := if Closed(s, Current(s)) then Gone else Waiting(Current(s))])
    case Fire(w) => s.(workers := s.workers[w := Executing], begun := s.begun[w := s.begun[w] + 1])
    case Stopped(w) => s.(workers := s.workers[w := Gone])
    case Return(w) => s.(workers := s.workers[w := Entering])
    case Fail(w) =>
      var s' := CloseCurrent(s.(workers := s.workers[w := Gone]));
      s'.(panicked := Closed(s, Current(s)))
  }

  ghost predicate Run(ss: seq<State>, actions: seq<Action>) {
    |ss| == |actions| + 1 && forall i :: 0 <= i < |actions| ==>
        Enabled(ss[i], actions[i]) && ss[i + 1] == Next(ss[i], actions[i])
  }

  const INITIAL := State(false, [], [], [], false)

  // ---------------------------------------------------------------------------
  // Channels
  // ---------------------------------------------------------------------------

  /** `running` holds exactly when the current channel is open; every earlier channel was closed once. */
  ghost predicate Orderly(s: State) {
    && |s.begun| == |s.workers|
    && (s.running <==> s.closes != [] && s.closes[Current(s)] == 0)
    && (forall c :: 0 <= c < |s.closes| ==> s.closes[c] <= 1)
    && (forall c :: 0 <= c < |s.closes| - 1 ==> s.closes[c] == 1)
    && (s.closes == [] ==> s.workers == [])
    && (forall w :: 0 <= w < |s.workers| && s.workers[w].Waiting? ==> s.workers[w].chan < |s.closes|)
  }

  lemma NextOrderly(s: State, a: Action)
    requires Orderly(s) && Enabled(s, a) && !Next(s, a).panicked
    ensures Orderly(Next(s, a))
  {
  }

  /** A run ends in a double close exactly when a worker fails while the task is not running. */
  lemma PanicsIff(s: State, a: Action)
    requires Orderly(s) && Enabled(s, a)
    ensures Next(s, a).panicked <==> a.Fail? && !s.running
  {
  }

  /** In every interleaving where workers fail only while the task runs (so in all where Execute never fails),
      no channel is closed twice and `running` tells whether the current one is open. */
  lemma {:induction false} OrderlyThroughout(ss: seq<State>, actions: seq<Action>, n: nat)
    requires Run(ss, actions) && Orderly(ss[0]) && !ss[0].panicked && n < |ss|
    requires forall i :: 0 <= i < n && actions[i].Fail? ==> ss[i].running
    ensures Orderly(ss[n]) && !ss[n].panicked
  {
    if n > 0 {
      OrderlyThroughout(ss, actions, n - 1);
      PanicsIff(ss[n - 1], actions[n - 1]);
      NextOrderly(ss[n - 1], actions[n - 1]);
    }
  }

  /** Conversely, from the start, a run has panicked exactly when some worker failed on a stopped task. */
  lemma {:induction false} PanickedIff(ss: seq<State>, actions: seq<Action>)
    requires Run(ss, actions) && ss[0] == INITIAL
    ensures ss[|actions|].panicked <==> exists i :: 0 <= i < |actions| && actions[i].Fail? && !ss[i].running
  {
    if forall i :: 0 <= i < |actions| && actions[i].Fail? ==> ss[i].running {
      OrderlyThroughout(ss, actions, |actions|);
    } else {
      var i :| 0 <= i < |actions| && actions[i].Fail? && !ss[i].running;
      FirstFailure(ss, actions, i);
    }
  }

  lemma {:induction false} FirstFailure(ss: seq<State>, actions: seq<Action>, i: nat)
    requires Run(ss, actions) && ss[0] == INITIAL
    requires i < |actions| && actions[i].Fail? && !ss[i].running
    ensures ss[|actions|].panicked
  {
    if exists j :: 0 <= j < i && actions[j].Fail? && !ss[j].running {
      var j :| 0 <= j < i && actions[j].Fail? && !ss[j].running;
      FirstFailure(ss, actions, j);
    } else {
      OrderlyThroughout(ss, actions, i);
      PanicsIff(ss[i], actions[i]);
      assert i + 1 < |actions| ==> !Enabled(ss[i + 1], actions[i + 1]);
    }
  }

  // ---------------------------------------------------------------------------
  // After the last Close
  // ---------------------------------------------------------------------------

  /** Executions a worker can still begin once the task is stopped for good. */
  function Budget(w: Worker): nat {
    if w.Waiting? || w.Spawned? then 1 else 0
  }

  lemma StoppedStep(s: State, a: Action, w: nat)
    requires Orderly(s) && Enabled(s, a) && !s.running && !a.Start? && !a.Fail? && w < |s.workers|
    ensures !Next(s, a).running && |Next(s, a).workers| == |s.workers|
    ensures Next(s, a).begun[w] + Budget(Next(s, a).workers[w]) <= s.begun[w] + Budget(s.workers[w])
    ensures Orderly(Next(s, a))
  {
  }

  /** Once closed and not started again, every worker begins at most one more execution,
      and none if it was executing or between two selects: only one that waited, or was spawned and had not run yet,
      can. */
  lemma {:induction false} AtMostOneMore(ss: seq<State>, actions: seq<Action>, n: nat, w: nat)
    requires Run(ss, actions) && Orderly(ss[0]) && !ss[0].running && n < |ss| && w < |ss[0].workers|
    requires forall i :: 0 <= i < n ==> !actions[i].Start? && !actions[i].Fail?
    ensures Orderly(ss[n]) && !ss[n].running && |ss[n].workers| == |ss[0].workers|
    ensures ss[n].begun[w] + Budget(ss[n].workers[w]) <= ss[0].begun[w] + Budget(ss[0].workers[w])
    ensures ss[n].begun[w] <= ss[0].begun[w] + 1
    ensures !ss[0].workers[w].Waiting? && !ss[0].workers[w].Spawned? ==> ss[n].begun[w] <= ss[0].begun[w]
  {
    if n > 0 {
      AtMostOneMore(ss, actions, n - 1, w);
      StoppedStep(ss[n - 1], actions[n - 1], w);
    }
  }

  /** The one more does happen: a task started to execute first and closed before its worker ran still executes once. */
  lemma ExecutesAfterClose()
    ensures var s := Next(Next(INITIAL, Start(true)), Close);
            !s.running && s.begun == [0] && Enabled(s, Begin(0)) && Next(s, Begin(0)).begun == [1]
  {
    var s := Next(Next(INITIAL, Start(true)), Close);
    assert s.workers == [Spawned];
  }

  // ---------------------------------------------------------------------------
  // How many workers go on
  // ---------------------------------------------------------------------------

  /** The worker will go on: it waits on the current, open channel, or will evaluate the current one next. */
  predicate GoesOn(s: State, w: nat) {
    w < |s.workers| && (s.workers[w].Spawned? || s.workers[w].Entering? || s.workers[w].Executing?
                        || (s.workers[w].Waiting? && s.closes != [] && s.workers[w].chan == Current(s)
                            && !Closed(s, Current(s))))
  }

  ghost predicate OneWorker(s: State) {
    forall w, v :: GoesOn(s, w) && GoesOn(s, v) ==> w == v
  }

  /** Exactly which steps can leave a second worker going: a Start while some worker is executing, between two selects
      or spawned and not run yet, and a timer that fires, beside another worker, on an already closed channel. */
  lemma KeepsOneWorkerIff(s: State, a: Action)
    requires Orderly(s) && Enabled(s, a) && OneWorker(s)
    ensures OneWorker(Next(s, a)) <==>
            match a
            case Start(_) => s.running || forall w :: !GoesOn(s, w)
            case Fire(w) => forall v :: v != w ==> !GoesOn(s, v)
            case _ => true
  {
    var s' := Next(s, a);
    match a
    case Start(first) =>
      if !s.running {
        assert GoesOn(s', |s.workers|);
        forall w: nat | w < |s.workers|
          ensures GoesOn(s', w) <==> GoesOn(s, w)
        {
          assert s'.workers[w] == s.workers[w];
        }
        if exists w :: GoesOn(s, w) {
          var w :| GoesOn(s, w);
          assert GoesOn(s', w);
        }
      }
    case Fire(w) =>
      assert GoesOn(s', w);
      forall v | v != w
        ensures GoesOn(s', v) <==> GoesOn(s, v)
      {
      }
    case _ =>
      forall v
        ensures GoesOn(s', v) ==> GoesOn(s, v)
      {
      }
  }

  /** Closing and starting the task from inside its own Execute leaves two workers, whatever happened before. */
  lemma RestartFromExecute(s: State, w: nat, first: bool)
    requires Orderly(s) && !s.panicked && s.running && w < |s.workers| && s.workers[w].Executing?
    ensures var s' := Next(Next(s, Close), Start(first));
            GoesOn(s', w) && GoesOn(s', |s.workers|) && !OneWorker(s')
  {
    var s' := Next(Next(s, Close), Start(first));
    assert GoesOn(s', w) && GoesOn(s', |s.workers|);
  }

  // ---------------------------------------------------------------------------
  // Going on
  // ---------------------------------------------------------------------------

  predicate Acts(a: Action, w: nat) {
    !a.Start? && !a.Close? && a.w == w
  }

  /** Starting a stopped task adds one worker that goes on; it executes at once or waits an interval first,
      as the caller asks. */
  lemma StartSpawnsWorker(s: State, first: bool)
    requires Orderly(s) && Enabled(s, Start(first)) && !s.running
    ensures var s', w := Next(s, Start(first)), |s.workers|;
            && s'.running && GoesOn(s', w) && s'.begun[w] == 0
            && (forall a :: Acts(a, w) && Enabled(s', a) ==> a == if first then Begin(w) else Enter(w))
            && (!first ==> Next(s', Enter(w)).workers[w] == Waiting(Current(s')))
  {
  }

  /** The place of a worker in its round of executing, returning to the select and waiting. */
  function Phase(w: Worker): nat {
    match w
    case Executing => 0
    case Entering => 1
    case _ => 2
  }

  /** While the task runs and nobody fails, a worker that goes on cannot stop, can always take a step, and each of its
      steps takes it one place further in its round. */
  lemma GoingOnStep(s: State, a: Action, w: nat)
    requires Orderly(s) && s.running && GoesOn(s, w) && Enabled(s, a) && !a.Close? && !a.Fail?
    ensures var s' := Next(s, a);
            && Orderly(s') && s'.running && GoesOn(s', w)
            && 3 * s'.begun[w] + Phase(s'.workers[w]) ==
               3 * s.begun[w] + Phase(s.workers[w]) + if Acts(a, w) then 1 else 0
  {
    NextOrderly(s, a);
  }

  lemma CanStep(s: State, w: nat) returns (a: Action)
    requires Orderly(s) && !s.panicked && s.running && GoesOn(s, w)
    ensures Acts(a, w) && Enabled(s, a) && !a.Fail?
  {
    a := match s.workers[w]
         case Spawned => Begin(w)
         case Entering => Enter(w)
         case Waiting(_) => Fire(w)
         case _ => Return(w);
  }

  /** The worker's own steps among the first `n`. */
  function StepsOf(actions: seq<Action>, w: nat, n: nat): nat
    requires n <= |actions|
  {
    if n == 0 then 0 else StepsOf(actions, w, n - 1) + if Acts(actions[n - 1], w) then 1 else 0
  }

  /** A started task goes on executing: in every interleaving without Close and without a failure the worker begins
      an execution with every third step of its own, and can always take the next one. */
  lemma {:induction false} KeepsExecuting(ss: seq<State>, actions: seq<Action>, n: nat, w: nat)
    requires Run(ss, actions) && Orderly(ss[0]) && !ss[0].panicked && ss[0].running && GoesOn(ss[0], w) && n < |ss|
    requires forall i :: 0 <= i < n ==> !actions[i].Close? && !actions[i].Fail?
    ensures Orderly(ss[n]) && !ss[n].panicked && ss[n].running && GoesOn(ss[n], w)
    ensures 3 * ss[n].begun[w] + Phase(ss[n].workers[w]) ==
            3 * ss[0].begun[w] + Phase(ss[0].workers[w]) + StepsOf(actions, w, n)
    ensures StepsOf(actions, w, n) >= 3 ==> ss[n].begun[w] > ss[0].begun[w]
    ensures exists a :: Acts(a, w) && Enabled(ss[n], a) && !a.Fail?
  {
    if n > 0 {
      KeepsExecuting(ss, actions, n - 1, w);
      GoingOnStep(ss[n - 1], actions[n - 1], w);
      PanicsIff(ss[n - 1], actions[n - 1]);
    }
    var a := CanStep(ss[n], w);
  }

  /** A worker that took the stop case or failed is gone for good: it takes no step and begins no execution again. */
  lemma {:induction false} EndsForGood(ss: seq<State>, actions: seq<Action>, i: nat, n: nat, w: nat)
    requires Run(ss, actions) && i < n < |ss| && (actions[i] == Stopped(w) || actions[i] == Fail(w))
    ensures w < |ss[n].workers| && w < |ss[n].begun| && w < |ss[i].begun|
    ensures ss[n].workers[w].Gone? && ss[n].begun[w] == ss[i].begun[w]
    ensures forall j :: i < j < n ==> !Acts(actions[j], w)
  {
    assert Enabled(ss[i], actions[i]) && ss[i + 1] == Next(ss[i], actions[i]);
    if n > i + 1 {
      EndsForGood(ss, actions, i, n - 1, w);
      GoneStays(ss[n - 1], actions[n - 1], w);
    }
  }

  lemma GoneStays(s: State, a: Action, w: nat)
    requires Enabled(s, a) && w < |s.workers| && s.workers[w].Gone?
    ensures !Acts(a, w)
    ensures var s' := Next(s, a); w < |s'.workers| && s'.workers[w].Gone? && s'.begun[w] == s.begun[w]
  {
  }
}
