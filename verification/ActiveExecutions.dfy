/**
 The registry of running executions under every interleaving of callers, run goroutines and stop requests.
 Each action below is one lock-protected map access, one channel hand-over or one wait-group call.
 */
module ActiveExecutions {

  /** The goroutine of one asynchronous run. A panic runs the deferred Done before it is recovered. */
  datatype Goroutine =
    | Executing
    | ExecutableReturned
    | Sending
    | Delivered
    | Panicking
    | PanicDone
    | PanicSending
    | Exited(panicked: bool)

  /** The caller of ExecuteAsync: lookup of the registered entry, attaching the handle, waiting on it. */
  datatype Caller = Spawned | Found | NoHandle | Attached | Waiting | Received | Left

  datatype Run = Run(go: Goroutine, caller: Caller, attempts: nat, cancelled: bool)

  datatype Stopper = StopFound(id: nat) | StopCancelled(id: nat) | StopPanicked | StopFinished

  /**
   current: ids in currentExecutions; used: ids ever registered; stopped: ids removed by a stop request.
   */
  datatype State = State(
    current: set<nat>, used: set<nat>, stopped: set<nat>, waitGroup: nat,
    runs: map<nat, Run>, stoppers: map<nat, Stopper>)

  datatype Action =
    | AddExecution(id: nat)
    | ExecuteAsync(id: nat)
    | ExecutableReturns(id: nat)
    | ExecutablePanics(id: nat)
    | DeferredDone(id: nat)
    | RemoveExecution(id: nat)
    | CallerLooksUp(id: nat)
    | CallerAttaches(id: nat)
    | CallerWaits(id: nat)
    | CallerReceives(id: nat)
    | CallerLeaves(id: nat)
    | StopLooksUp(request: nat, id: nat)
    | StopCancels(request: nat)
    | StopRemoves(request: nat)

  const INITIAL := State({}, {}, {}, 0, map[], map[])

  predicate HasHandle(c: Caller) {
    c.Attached? || c.Waiting? || c.Received? || c.Left?
  }

  /** Ids are not reused: an id is registered once and executed once. */
  predicate Enabled(s: State, a: Action) {
    match a
    case AddExecution(id) => id !in s.used
    case ExecuteAsync(id) => id in s.used && id !in s.runs
    case ExecutableReturns(id) => id in s.runs && s.runs[id].go.Executing?
    case ExecutablePanics(id) => id in s.runs && s.runs[id].go.Executing?
    case DeferredDone(id) => id in s.runs && (s.runs[id].go.Delivered? || s.runs[id].go.Panicking?)
    case RemoveExecution(id) => id in s.runs && (s.runs[id].go.ExecutableReturned? || s.runs[id].go.PanicDone?)
    case CallerLooksUp(id) => id in s.runs && s.runs[id].caller.Spawned?
    case CallerAttaches(id) => id in s.runs && s.runs[id].caller.Found?
    case CallerWaits(id) => id in s.runs && s.runs[id].caller.Attached?
    case CallerReceives(id) =>
      id in s.runs && s.runs[id].caller.Waiting? && (s.runs[id].go.Sending? || s.runs[id].go.PanicSending?)
    case CallerLeaves(id) => id in s.runs && (s.runs[id].caller.Attached? || s.runs[id].caller.Waiting?)
    case StopLooksUp(request, id) => request !in s.stoppers
    case StopCancels(request) => request in s.stoppers && s.stoppers[request].StopFound?
    case StopRemoves(request) => request in s.stoppers && s.stoppers[request].StopCancelled?
  }

  function Apply(s: State, a: Action): State
    requires Enabled(s, a)
  {
    match a
    case AddExecution(id) => s.(current := s.current + {id}, used := s.used + {id})
    case ExecuteAsync(id) =>
      s.(waitGroup := s.waitGroup + 1, runs := s.runs[id := Run(Executing, Spawned, 0, false)])
    case ExecutableReturns(id) => s.(runs := s.runs[id := s.runs[id].(go := ExecutableReturned)])
    case ExecutablePanics(id) => s.(runs := s.runs[id := s.runs[id].(go := Panicking)])
    case DeferredDone(id) =>
      var go := if s.runs[id].go.Delivered? then Exited(false) else PanicDone;
      s.(waitGroup := if s.waitGroup > 0 then s.waitGroup - 1 else 0, runs := s.runs[id := s.runs[id].(go := go)])
    case RemoveExecution(id) =>
      var run := s.runs[id];
      var go := if run.go.ExecutableReturned? then Sending else PanicSending;
      s.(current := s.current - {id}, runs := s.runs[id := run.(go := go, attempts := run.attempts + 1)])
    case CallerLooksUp(id) =>
      s.(runs := s.runs[id := s.runs[id].(caller := if id in s.current then Found else NoHandle)])
    case CallerAttaches(id) => s.(runs := s.runs[id := s.runs[id].(caller := Attached)])
    case CallerWaits(id) => s.(runs := s.runs[id := s.runs[id].(caller := Waiting)])
    case CallerReceives(id) =>
      var go := if s.runs[id].go.Sending? then Delivered else Exited(true);
      s.(runs := s.runs[id := s.runs[id].(go := go, caller := Received)])
    case CallerLeaves(id) => s.(runs := s.runs[id := s.runs[id].(caller := Left)])
    case StopLooksUp(request, id) =>
      s.(stoppers := s.stoppers[request := if id in s.current then StopFound(id) else StopFinished])
    case StopCancels(request) =>
      var id := s.stoppers[request].id;
      if id in s.runs && HasHandle(s.runs[id].caller)
      then s.(runs := s.runs[id := s.runs[id].(cancelled := true)],
              stoppers := s.stoppers[request := StopCancelled(id)])
      else s.(stoppers := s.stoppers[request := StopPanicked])
    case StopRemoves(request) =>
      var id := s.stoppers[request].id;
      s.(current := s.current - {id}, stopped := s.stopped + {id}, stoppers := s.stoppers[request := StopFinished])
  }

  ghost predicate Possible(s: State, actions: seq<Action>)
    decreases |actions|
  {
    actions == [] || (Enabled(s, actions[0]) && Possible(Apply(s, actions[0]), actions[1..]))
  }

  /** The state after an interleaving. */
  ghost function After(s: State, actions: seq<Action>): State
    requires Possible(s, actions)
    decreases |actions|
  {
    if actions == [] then s else After(Apply(s, actions[0]), actions[1..])
  }

  // ----- the inductive invariant -----

  predicate DonePending(g: Goroutine) {
    g.Executing? || g.ExecutableReturned? || g.Sending? || g.Delivered? || g.Panicking?
  }

  predicate HasRemoved(g: Goroutine) {
    g.Sending? || g.Delivered? || g.PanicSending? || g.Exited?
  }

  predicate Handed(g: Goroutine) {
    g.Delivered? || g.Exited?
  }

  function Pending(s: State): set<nat> {
    set id | id in s.runs && DonePending(s.runs[id].go)
  }

  ghost predicate CountInv(s: State) {
    s.waitGroup == |Pending(s)|
  }

  ghost predicate IdsInv(s: State) {
    && s.current <= s.used && s.runs.Keys <= s.used && s.stopped <= s.used && s.stopped !! s.current
    && (forall r :: r in s.stoppers && (s.stoppers[r].StopFound? || s.stoppers[r].StopCancelled?) ==>
          s.stoppers[r].id in s.used)
  }

  ghost predicate RunsInv(s: State) {
    forall id :: id in s.runs ==>
      var run := s.runs[id];
      && run.attempts == (if HasRemoved(run.go) then 1 else 0)
      && (HasRemoved(run.go) ==> id !in s.current)
      && (run.caller.Received? <==> Handed(run.go))
      && (run.caller.NoHandle? ==> id !in s.current)
  }

  ghost predicate UnlistedInv(s: State) {
    forall id :: id in s.used && id !in s.current ==>
      id in s.stopped || (id in s.runs && HasRemoved(s.runs[id].go))
  }

  /** A stop request needs the handle that the caller attached: without one it panics before removing anything. */
  ghost predicate StoppedInv(s: State) {
    && (forall id :: id in s.stopped ==> id in s.runs && HasHandle(s.runs[id].caller) && s.runs[id].cancelled)
    && (forall r :: r in s.stoppers && s.stoppers[r].StopCancelled? ==>
          var id := s.stoppers[r].id;
          id in s.runs && HasHandle(s.runs[id].caller) && s.runs[id].cancelled)
  }

  /** A stop request has cancelled the run and has not yet removed it. */
  ghost predicate BeingStopped(s: State, id: nat) {
    exists r :: r in s.stoppers && s.stoppers[r] == StopCancelled(id)
  }

  /** Only a stop request cancels. */
  ghost predicate CancelledInv(s: State) {
    forall id :: id in s.runs && s.runs[id].cancelled ==> id in s.stopped || BeingStopped(s, id)
  }

  ghost predicate Inv(s: State) {
    CountInv(s) && IdsInv(s) && RunsInv(s) && UnlistedInv(s) && StoppedInv(s) && CancelledInv(s)
  }

  /** Only starting a run and its deferred Done change what is pending. */
  lemma OthersKeepPending(s: State, a: Action)
    requires Enabled(s, a) && !a.ExecuteAsync? && !a.DeferredDone?
    ensures Apply(s, a).waitGroup == s.waitGroup && Pending(Apply(s, a)) == Pending(s)
  {
  }

  lemma ApplyKeepsCount(s: State, a: Action)
    requires CountInv(s) && Enabled(s, a)
    ensures CountInv(Apply(s, a))
  {
    if a.ExecuteAsync? {
      assert a.id !in Pending(s);
      assert Pending(Apply(s, a)) == Pending(s) + {a.id};
    } else if a.DeferredDone? {
      assert a.id in Pending(s);
      assert Pending(Apply(s, a)) == Pending(s) - {a.id};
    } else {
      OthersKeepPending(s, a);
    }
  }

  lemma ApplyKeepsRuns(s: State, a: Action)
    requires RunsInv(s) && IdsInv(s) && Enabled(s, a)
    ensures RunsInv(Apply(s, a))
  {
  }

  lemma ApplyKeepsUnlisted(s: State, a: Action)
    requires UnlistedInv(s) && IdsInv(s) && Enabled(s, a)
    ensures UnlistedInv(Apply(s, a)) && IdsInv(Apply(s, a))
  {
  }

  lemma ApplyKeepsStopped(s: State, a: Action)
    requires StoppedInv(s) && IdsInv(s) && Enabled(s, a)
    ensures StoppedInv(Apply(s, a))
  {
  }

  lemma ApplyKeepsCancelled(s: State, a: Action)
    requires CancelledInv(s) && IdsInv(s) && Enabled(s, a)
    ensures CancelledInv(Apply(s, a))
  {
    var s' := Apply(s, a);
    forall id | id in s'.runs && s'.runs[id].cancelled
      ensures id in s'.stopped || BeingStopped(s', id)
    {
      if id in s.runs && s.runs[id].cancelled {
        if id !in s.stopped {
          var r :| r in s.stoppers && s.stoppers[r] == StopCancelled(id);
          assert (r in s'.stoppers && s'.stoppers[r] == StopCancelled(id)) || id in s'.stopped;
        }
      } else {
        assert s'.stoppers[a.request] == StopCancelled(id);
      }
    }
  }

  lemma ApplyKeepsInv(s: State, a: Action)
    requires Inv(s) && Enabled(s, a)
    ensures Inv(Apply(s, a))
  {
    ApplyKeepsCancelled(s, a);
    ApplyKeepsStopped(s, a);
    ApplyKeepsCount(s, a);
    ApplyKeepsRuns(s, a);
    ApplyKeepsUnlisted(s, a);
  }

  lemma {:induction false} InvAlways(s: State, actions: seq<Action>)
    requires Inv(s) && Possible(s, actions)
    ensures Inv(After(s, actions))
    decreases |actions|
  {
    if actions == [] {
    } else {
      ApplyKeepsInv(s, actions[0]);
      InvAlways(Apply(s, actions[0]), actions[1..]);
    }
  }

  // ----- what follows for every interleaving -----

  /** The wait group counts exactly the goroutines whose Done has not run, and never underflows. */
  lemma WaitGroupExact(actions: seq<Action>)
    requires Possible(INITIAL, actions)
    ensures After(INITIAL, actions).waitGroup == |Pending(After(INITIAL, actions))|
    ensures forall id :: Possible(INITIAL, actions + [DeferredDone(id)]) ==> After(INITIAL, actions).waitGroup > 0
  {
    InvAlways(INITIAL, actions);
    var s := After(INITIAL, actions);
    forall id | Possible(INITIAL, actions + [DeferredDone(id)])
      ensures s.waitGroup > 0
    {
      PossibleSnoc(INITIAL, actions, DeferredDone(id));
      assert id in Pending(s);
    }
  }

  lemma {:induction false} PossibleSnoc(s: State, actions: seq<Action>, a: Action)
    requires Possible(s, actions + [a])
    ensures Possible(s, actions) && Enabled(After(s, actions), a)
    ensures After(s, actions + [a]) == Apply(After(s, actions), a)
    decreases |actions|
  {
    if actions == [] {
      assert actions + [a] == [a] && [a][1..] == [];
      assert Possible(Apply(s, a), []);
    } else {
      assert (actions + [a])[0] == actions[0] && (actions + [a])[1..] == actions[1..] + [a];
      PossibleSnoc(Apply(s, actions[0]), actions[1..], a);
    }
  }

  /** Each run attempts at most one delivery, and exactly one once its goroutine has ended. */
  lemma OneDelivery(actions: seq<Action>, id: nat)
    requires Possible(INITIAL, actions) && id in After(INITIAL, actions).runs
    ensures var run := After(INITIAL, actions).runs[id];
      run.attempts <= 1 && (run.go.Exited? ==> run.attempts == 1)
  {
    InvAlways(INITIAL, actions);
  }

  /** A run is cancelled exactly when a stop request removed it, or is about to: none is removed and left running on. */
  lemma CancelledIffStopped(actions: seq<Action>, id: nat)
    requires Possible(INITIAL, actions)
    ensures var s := After(INITIAL, actions);
      id in s.runs && s.runs[id].cancelled <==> id in s.stopped || BeingStopped(s, id)
  {
    InvAlways(INITIAL, actions);
  }

  predicate OfGoroutine(a: Action, id: nat) {
    a == ExecutableReturns(id) || a == ExecutablePanics(id) || a == DeferredDone(id) || a == RemoveExecution(id)
    || a == CallerReceives(id)
  }

  predicate OfCaller(a: Action, id: nat) {
    a == CallerLooksUp(id) || a == CallerAttaches(id) || a == CallerWaits(id) || a == CallerLeaves(id)
  }

  predicate OfRequest(a: Action, request: nat) {
    a == StopCancels(request) || a == StopRemoves(request)
  }

  /**
   Who is held up: a goroutine only on its send to a caller that does not wait, a caller that has its handle
   never, since it may leave at any time, and a stop request never.
   */
  lemma WhoCanMove(s: State, id: nat, request: nat)
    requires id in s.runs && request in s.stoppers
    ensures var go, caller := s.runs[id].go, s.runs[id].caller;
      && ((exists a :: OfGoroutine(a, id) && Enabled(s, a)) <==>
            !go.Exited? && (go.Sending? || go.PanicSending? ==> caller.Waiting?))
      && ((exists a :: OfCaller(a, id) && Enabled(s, a)) <==>
            caller.Spawned? || caller.Found? || caller.Attached? || caller.Waiting?)
      && ((exists a :: OfRequest(a, request) && Enabled(s, a)) <==>
            s.stoppers[request].StopFound? || s.stoppers[request].StopCancelled?)
  {
    var go, caller := s.runs[id].go, s.runs[id].caller;
    var step := match go
      case Executing => ExecutableReturns(id)
      case ExecutableReturned => RemoveExecution(id)
      case Sending => CallerReceives(id)
      case Delivered => DeferredDone(id)
      case Panicking => DeferredDone(id)
      case PanicDone => RemoveExecution(id)
      case PanicSending => CallerReceives(id)
      case Exited(_) => CallerReceives(id);
    assert OfGoroutine(step, id);
    assert OfCaller(CallerLooksUp(id), id) && OfCaller(CallerAttaches(id), id) && OfCaller(CallerLeaves(id), id);
    assert OfRequest(StopCancels(request), request) && OfRequest(StopRemoves(request), request);
    if caller.Spawned? {
      assert Enabled(s, CallerLooksUp(id));
    } else if caller.Found? {
      assert Enabled(s, CallerAttaches(id));
    } else if caller.Attached? || caller.Waiting? {
      assert Enabled(s, CallerLeaves(id));
    }
    if s.stoppers[request].StopFound? {
      assert Enabled(s, StopCancels(request));
    } else if s.stoppers[request].StopCancelled? {
      assert Enabled(s, StopRemoves(request));
    }
  }

  /** When the waiter receives, the execution is no longer listed, and it never is again. */
  lemma ReceivedIsUnlisted(actions: seq<Action>, later: seq<Action>, id: nat)
    requires Possible(INITIAL, actions + [CallerReceives(id)])
    requires Possible(After(INITIAL, actions + [CallerReceives(id)]), later)
    ensures id !in After(After(INITIAL, actions + [CallerReceives(id)]), later).current
  {
    PossibleSnoc(INITIAL, actions, CallerReceives(id));
    InvAlways(INITIAL, actions);
    var s := After(INITIAL, actions + [CallerReceives(id)]);
    ApplyKeepsInv(After(INITIAL, actions), CallerReceives(id));
    UnlistedStays(s, later, id);
  }

  lemma {:induction false} UnlistedStays(s: State, actions: seq<Action>, id: nat)
    requires Inv(s) && Possible(s, actions) && id in s.used && id !in s.current
    ensures id !in After(s, actions).current
    decreases |actions|
  {
    if actions == [] {
    } else {
      ApplyKeepsInv(s, actions[0]);
      UnlistedStays(Apply(s, actions[0]), actions[1..], id);
    }
  }

  /** A zero count means: every run that did not panic was removed and its result was received. */
  lemma ZeroCountMeansDrained(actions: seq<Action>, id: nat)
    requires Possible(INITIAL, actions) && After(INITIAL, actions).waitGroup == 0
    requires id in After(INITIAL, actions).runs
    ensures var s := After(INITIAL, actions);
      var go := s.runs[id].go;
      && (go.PanicDone? || go.PanicSending? || go.Exited?)
      && (go == Exited(false) ==> id !in s.current && s.runs[id].caller.Received? && s.runs[id].attempts == 1)
  {
    InvAlways(INITIAL, actions);
    assert id !in Pending(After(INITIAL, actions));
  }

  /** The lookup in ExecuteAsync finds no entry exactly when the run has already removed it itself. */
  lemma NoHandleIffRemoved(actions: seq<Action>, id: nat)
    requires Possible(INITIAL, actions) && Enabled(After(INITIAL, actions), CallerLooksUp(id))
    ensures var s := After(INITIAL, actions);
      && (Apply(s, CallerLooksUp(id)).runs[id].caller.NoHandle? <==> HasRemoved(s.runs[id].go))
      && id !in s.stopped
  {
    InvAlways(INITIAL, actions);
  }

  /** A caller without a handle stays without one, and its run is out of the registry by its own doing. */
  lemma NoHandleMeansRemoved(actions: seq<Action>, id: nat)
    requires Possible(INITIAL, actions) && id in After(INITIAL, actions).runs
    requires After(INITIAL, actions).runs[id].caller.NoHandle?
    ensures var s := After(INITIAL, actions);
      id !in s.current && id !in s.stopped && HasRemoved(s.runs[id].go)
  {
    InvAlways(INITIAL, actions);
  }

  /** It does happen: a fast run is gone before its own caller looks it up, which then gets no handle. */
  lemma FastRunLosesItsHandle()
    ensures exists actions ::
      && Possible(INITIAL, actions)
      && 0 in After(INITIAL, actions).runs && After(INITIAL, actions).runs[0].caller.NoHandle?
  {
    var s1 := Apply(INITIAL, AddExecution(0));
    var s2 := Apply(s1, ExecuteAsync(0));
    var s3 := Apply(s2, ExecutableReturns(0));
    var s4 := Apply(s3, RemoveExecution(0));
    var s5 := Apply(s4, CallerLooksUp(0));
    var a5, a4 := [CallerLooksUp(0)], [RemoveExecution(0), CallerLooksUp(0)];
    var a3 := [ExecutableReturns(0)] + a4;
    var a2 := [ExecuteAsync(0)] + a3;
    var a1 := [AddExecution(0)] + a2;
    assert a5[1..] == [] && a4[1..] == a5 && a3[1..] == a4 && a2[1..] == a3 && a1[1..] == a2;
    assert Possible(s5, []) && After(s5, []) == s5;
    assert Possible(s4, a5) && After(s4, a5) == s5;
    assert Possible(s3, a4) && After(s3, a4) == s5;
    assert Possible(s2, a3) && After(s2, a3) == s5;
    assert Possible(s1, a2) && After(s1, a2) == s5;
    assert Possible(INITIAL, a1) && After(INITIAL, a1) == s5;
  }

  /** A returned run whose result nobody will receive: it is, or will be, stuck on its send. */
  ghost predicate Abandoned(s: State, id: nat) {
    && id in s.runs
    && (s.runs[id].go.ExecutableReturned? || s.runs[id].go.Sending?)
    && (s.runs[id].caller.NoHandle? || s.runs[id].caller.Left?
        || (s.runs[id].caller.Spawned? && s.runs[id].go.Sending?))
  }

  /** Such a run keeps its slot in the wait group for ever, so a shutdown can only end by its timeout. */
  lemma {:induction false} AbandonedRunNeverDrains(s: State, actions: seq<Action>, id: nat)
    requires Inv(s) && Possible(s, actions) && Abandoned(s, id)
    ensures Abandoned(After(s, actions), id) && After(s, actions).waitGroup > 0
    decreases |actions|
  {
    if actions != [] {
      ApplyKeepsInv(s, actions[0]);
      AbandonedRunNeverDrains(Apply(s, actions[0]), actions[1..], id);
    } else {
      assert id in Pending(s);
    }
  }

  /**
   A run that has not reached its hand-over and whose caller will not receive: it got no handle, threw it away,
   stopped waiting, or is going to find the entry gone.
   */
  ghost predicate Lost(s: State, id: nat) {
    && id in s.runs
    && (s.runs[id].go.Executing? || s.runs[id].go.ExecutableReturned? || s.runs[id].go.Sending?)
    && (s.runs[id].caller.NoHandle? || s.runs[id].caller.Left? || (s.runs[id].caller.Spawned? && id !in s.current))
  }

  /** Lost, or lost and then panicked. */
  ghost predicate NeverDelivers(s: State, id: nat) {
    Lost(s, id) || (id in s.runs && (s.runs[id].go.Panicking? || s.runs[id].go.PanicDone?
                                     || s.runs[id].go.PanicSending? || s.runs[id].go == Exited(true)))
  }

  lemma NeverDeliversStep(s: State, a: Action, id: nat)
    requires Inv(s) && Enabled(s, a) && NeverDelivers(s, id)
    ensures NeverDelivers(Apply(s, a), id)
  {
  }

  /** Whatever happens later, such a run never ends regularly. */
  lemma {:induction false} LostRunNeverExits(s: State, actions: seq<Action>, id: nat)
    requires Inv(s) && Possible(s, actions) && NeverDelivers(s, id)
    ensures id in After(s, actions).runs && After(s, actions).runs[id].go != Exited(false)
    decreases |actions|
  {
    if actions == [] {
    } else {
      ApplyKeepsInv(s, actions[0]);
      NeverDeliversStep(s, actions[0], id);
      LostRunNeverExits(Apply(s, actions[0]), actions[1..], id);
    }
  }

  /** A run whose caller threw the handle away or stopped waiting while it was executing never ends regularly. */
  lemma DiscardedRunNeverExits(actions: seq<Action>, later: seq<Action>, id: nat)
    requires Possible(INITIAL, actions) && id in After(INITIAL, actions).runs
    requires After(INITIAL, actions).runs[id].go.Executing? && After(INITIAL, actions).runs[id].caller.Left?
    requires Possible(After(INITIAL, actions), later)
    ensures var end := After(After(INITIAL, actions), later);
      id in end.runs && end.runs[id].go != Exited(false)
  {
    InvAlways(INITIAL, actions);
    LostRunNeverExits(After(INITIAL, actions), later, id);
  }

  ghost predicate Drains(s: State, actions: seq<Action>, id: nat) {
    && Possible(s, actions)
    && id in After(s, actions).runs && After(s, actions).runs[id].go == Exited(false)
  }

  ghost predicate CanDrain(s: State, id: nat) {
    exists actions :: Drains(s, actions, id)
  }

  lemma CanDrainVia(s: State, a: Action, id: nat)
    requires Enabled(s, a) && CanDrain(Apply(s, a), id)
    ensures CanDrain(s, id)
  {
    var rest :| Drains(Apply(s, a), rest, id);
    assert ([a] + rest)[1..] == rest;
    assert Drains(s, [a] + rest, id);
  }

  lemma WaitingDrains(s: State, id: nat)
    requires id in s.runs && s.runs[id].caller.Waiting? && s.runs[id].go.Sending?
    ensures CanDrain(s, id)
  {
    var s1 := Apply(s, CallerReceives(id));
    var s2 := Apply(s1, DeferredDone(id));
    assert Drains(s2, [], id);
    CanDrainVia(s1, DeferredDone(id), id);
    CanDrainVia(s, CallerReceives(id), id);
  }

  lemma WaitedForDrains(s: State, id: nat)
    requires id in s.runs && s.runs[id].caller.Waiting?
    requires s.runs[id].go.Executing? || s.runs[id].go.ExecutableReturned? || s.runs[id].go.Sending?
    ensures CanDrain(s, id)
  {
    var s1 := if s.runs[id].go.Executing? then Apply(s, ExecutableReturns(id)) else s;
    var s2 := if s1.runs[id].go.ExecutableReturned? then Apply(s1, RemoveExecution(id)) else s1;
    WaitingDrains(s2, id);
    if s1.runs[id].go.ExecutableReturned? {
      CanDrainVia(s1, RemoveExecution(id), id);
    }
    if s.runs[id].go.Executing? {
      CanDrainVia(s, ExecutableReturns(id), id);
    }
  }

  lemma FoundDrains(s: State, id: nat)
    requires id in s.runs && (s.runs[id].caller.Found? || s.runs[id].caller.Attached? || s.runs[id].caller.Waiting?)
    requires s.runs[id].go.Executing? || s.runs[id].go.ExecutableReturned? || s.runs[id].go.Sending?
    ensures CanDrain(s, id)
  {
    var s1 := if s.runs[id].caller.Found? then Apply(s, CallerAttaches(id)) else s;
    var s2 := if s1.runs[id].caller.Attached? then Apply(s1, CallerWaits(id)) else s1;
    WaitedForDrains(s2, id);
    if s1.runs[id].caller.Attached? {
      CanDrainVia(s1, CallerWaits(id), id);
    }
    if s.runs[id].caller.Found? {
      CanDrainVia(s, CallerAttaches(id), id);
    }
  }

  /** Before the hand-over a run can still end regularly exactly when it is not lost. */
  lemma DrainsIffNotLost(s: State, id: nat)
    requires Inv(s) && id in s.runs
    requires s.runs[id].go.Executing? || s.runs[id].go.ExecutableReturned? || s.runs[id].go.Sending?
    ensures CanDrain(s, id) <==> !Lost(s, id)
  {
    if Lost(s, id) {
      forall actions | Possible(s, actions)
        ensures !Drains(s, actions, id)
      {
        LostRunNeverExits(s, actions, id);
      }
    } else if s.runs[id].caller.Spawned? {
      FoundDrains(Apply(s, CallerLooksUp(id)), id);
      CanDrainVia(s, CallerLooksUp(id), id);
    } else {
      FoundDrains(s, id);
    }
  }
}
