/**
 The responseNode branch of the webhook handler and the run goroutine it waits for, interleaved step by
 step. Both write the response through one sync.Once; the goroutine then notifies the handler on an
 unbuffered channel that only Wait's select receives from.
 */
module WebhookReply {

  /** The goroutine: inside the once it writes, then blocks until notified, then releases. */
  datatype Worker =
    | NotStarted
    | Working
    | Writing
    | Notifying
    | Notified
    | SendingError
    | SendingData(failed: bool)
    | Ended

  datatype Handler =
    | Starting
    | InWait
    | HandleError
    | CheckData(failed: bool)
    | DefaultReply
    | Returned

  datatype Once = Free | Held | Done

  datatype Reply = StartError | NodeResponse | RunError | DataError | Success

  datatype State = State(worker: Worker, handler: Handler, once: Once, written: seq<Reply>, cancelled: bool)

  datatype Action =
    | StartFails
    | StartSucceeds
    | EnterRespondNode
    | SkipRespondNode
    | WriteResponse
    | ReleaseOnce
    | RunEndsWithError
    | RunEndsWithData(failed: bool)
    | Cancel
    | WaitSeesCancel
    | WaitSeesError
    | WaitSeesData
    | WaitSeesResponse
    | ReplyError
    | ReplyDataError
    | ReplyDefault

  const INITIAL := State(NotStarted, Starting, Free, [], false)

  predicate Enabled(s: State, a: Action) {
    match a
    case StartFails => s.handler.Starting?
    case StartSucceeds => s.handler.Starting?
    case EnterRespondNode => s.worker.Working? && s.once.Free?
    case SkipRespondNode => s.worker.Working? && s.once.Done?
    case WriteResponse => s.worker.Writing?
    case ReleaseOnce => s.worker.Notified?
    case RunEndsWithError => s.worker.Working?
    case RunEndsWithData(_) => s.worker.Working?
    case Cancel => true
    case WaitSeesCancel => s.handler.InWait? && s.cancelled
    case WaitSeesError => s.handler.InWait? && s.worker.SendingError?
    case WaitSeesData => s.handler.InWait? && s.worker.SendingData?
    case WaitSeesResponse => s.handler.InWait? && s.worker.Notifying?
    case ReplyError => s.handler.HandleError? && !s.once.Held?
    case ReplyDataError => s.handler.CheckData? && (s.handler.failed ==> !s.once.Held?)
    case ReplyDefault => s.handler.DefaultReply? && !s.once.Held?
  }

  /** The handler's own Do: writes unless some writer came first. */
  function DoOnce(s: State, reply: Reply): State {
    if s.once.Free? then s.(once := Done, written := s.written + [reply]) else s
  }

  function Apply(s: State, a: Action): State
    requires Enabled(s, a)
  {
    match a
    case StartFails => s.(handler := Returned, written := s.written + [StartError])
    case StartSucceeds => s.(handler := InWait, worker := Working)
    case EnterRespondNode => s.(worker := Writing, once := Held)
    case SkipRespondNode => s
    case WriteResponse => s.(worker := Notifying, written := s.written + [NodeResponse])
    case ReleaseOnce => s.(worker := Working, once := Done)
    case RunEndsWithError => s.(worker := SendingError)
    case RunEndsWithData(failed) => s.(worker := SendingData(failed))
    case Cancel => s.(cancelled := true)
    case WaitSeesCancel => s.(handler := HandleError)
    case WaitSeesError => s.(handler := HandleError, worker := Ended)
    case WaitSeesData => s.(handler := CheckData(s.worker.failed), worker := Ended)
    case WaitSeesResponse => s.(handler := CheckData(false), worker := Notified)
    case ReplyError => DoOnce(s, RunError).(handler := CheckData(false))
    case ReplyDataError => (if s.handler.failed then DoOnce(s, DataError) else s).(handler := DefaultReply)
    case ReplyDefault => DoOnce(s, Success).(handler := Returned)
  }

  ghost predicate Possible(s: State, actions: seq<Action>)
    decreases |actions|
  {
    actions == [] || (Enabled(s, actions[0]) && Possible(Apply(s, actions[0]), actions[1..]))
  }

  ghost function After(s: State, actions: seq<Action>): State
    requires Possible(s, actions)
    decreases |actions|
  {
    if actions == [] then s else After(Apply(s, actions[0]), actions[1..])
  }

  // ----- the inductive invariant -----

  predicate InOnce(w: Worker) {
    w.Writing? || w.Notifying? || w.Notified?
  }

  /** The handler has left Wait without having returned. */
  predicate PastWait(h: Handler) {
    h.HandleError? || h.CheckData? || h.DefaultReply?
  }

  predicate StartFailed(s: State) {
    s.handler.Returned? && s.worker.NotStarted?
  }

  predicate Inv(s: State) {
    && (s.once.Held? <==> InOnce(s.worker))
    && (|s.written| == if s.once.Done? || s.worker.Notifying? || s.worker.Notified? || StartFailed(s) then 1 else 0)
    && (s.handler.Starting? ==> s.worker.NotStarted? && s.once.Free?)
    && (s.worker.NotStarted? ==> (s.handler.Starting? || s.handler.Returned?) && s.once.Free?)
    && (s.handler.Returned? && !s.worker.NotStarted? ==> s.once.Done?)
    && (s.worker.Notified? || s.worker.Ended? ==> !s.handler.InWait?)
    && (PastWait(s.handler) && !s.cancelled ==> s.worker.Ended? || s.once.Done? || s.worker.Notified?)
  }

  lemma ApplyKeepsInv(s: State, a: Action)
    requires Inv(s) && Enabled(s, a)
    ensures Inv(Apply(s, a))
  {
  }

  lemma {:induction false} InvAlways(s: State, actions: seq<Action>)
    requires Inv(s) && Possible(s, actions)
    ensures Inv(After(s, actions))
    decreases |actions|
  {
    if actions == [] {
    } else {
      ApplyKeepsInv(s, actions[0]);
      InvAlways(Apply(s, actions[0]), actions[1..]);
    }
  }

  // ----- one reply -----

  /** At most one response is ever written, and exactly one has been when the handler returns. */
  lemma ReplyExactlyOnce(actions: seq<Action>)
    requires Possible(INITIAL, actions)
    ensures |After(INITIAL, actions).written| <= 1
    ensures After(INITIAL, actions).handler.Returned? ==> |After(INITIAL, actions).written| == 1
  {
    InvAlways(INITIAL, actions);
  }

  /** Respond nodes that run after the handler returned write nothing more. */
  lemma {:induction false} NothingAfterReturn(s: State, later: seq<Action>)
    requires Inv(s) && s.handler.Returned? && Possible(s, later)
    ensures |After(s, later).written| == 1 && After(s, later).handler.Returned?
    decreases |later|
  {
    if later == [] {
    } else {
      ApplyKeepsInv(s, later[0]);
      NothingAfterReturn(Apply(s, later[0]), later[1..]);
    }
  }

  predicate OfWorker(a: Action) {
    a.EnterRespondNode? || a.WriteResponse? || a.ReleaseOnce? || a.RunEndsWithError? || a.RunEndsWithData?
    || a.WaitSeesError? || a.WaitSeesData? || a.WaitSeesResponse?
  }

  predicate OfHandler(a: Action) {
    a.StartFails? || a.StartSucceeds? || a.WaitSeesCancel? || a.WaitSeesError? || a.WaitSeesData?
    || a.WaitSeesResponse? || a.ReplyError? || a.ReplyDataError? || a.ReplyDefault?
  }

  /** What the goroutine has for the handler that waits. */
  predicate Offers(w: Worker) {
    w.Notifying? || w.SendingError? || w.SendingData?
  }

  /**
   Who is held up: the goroutine only while nobody receives what it sends; the handler while it waits and has
   neither an offer nor a cancellation, or while it needs the once and the goroutine holds it.
   */
  lemma WhoCanMove(s: State)
    ensures (exists a :: OfWorker(a) && Enabled(s, a)) <==>
              !s.worker.NotStarted? && !s.worker.Ended? && (Offers(s.worker) ==> s.handler.InWait?)
    ensures (exists a :: OfHandler(a) && Enabled(s, a)) <==>
              && !s.handler.Returned?
              && (s.handler.InWait? ==> Offers(s.worker) || s.cancelled)
              && (PastWait(s.handler) && s.handler != CheckData(false) ==> !s.once.Held?)
  {
    var work := match s.worker
      case NotStarted => WriteResponse
      case Working => RunEndsWithError
      case Writing => WriteResponse
      case Notifying => WaitSeesResponse
      case Notified => ReleaseOnce
      case SendingError => WaitSeesError
      case SendingData(_) => WaitSeesData
      case Ended => WriteResponse;
    assert OfWorker(work);
    var handle := match s.handler
      case Starting => StartSucceeds
      case InWait => if Offers(s.worker) then work else WaitSeesCancel
      case HandleError => ReplyError
      case CheckData(_) => ReplyDataError
      case DefaultReply => ReplyDefault
      case Returned => ReplyDefault;
    assert OfHandler(handle);
    assert Enabled(s, handle) || forall a :: OfHandler(a) ==> !Enabled(s, a);
  }

  // ----- which reply -----

  /** Wait ended with the cancellation of the request or of the run, or with the error of the run. */
  predicate SawError(past: seq<Action>) {
    WaitSeesCancel in past || WaitSeesError in past
  }

  /** What the goroutine and the handler have done so far is what their positions say. */
  predicate PositionsMatch(past: seq<Action>, s: State) {
    && (StartFails in past <==> StartFailed(s))
    && (SawError(past) || WaitSeesData in past ==> PastWait(s.handler) || s.handler.Returned?)
    && (WaitSeesData in past || WaitSeesError in past ==> s.worker.Ended?)
    && !(WaitSeesData in past && SawError(past))
    && (s.worker.SendingData? ==>
          RunEndsWithData(s.worker.failed) in past && RunEndsWithData(!s.worker.failed) !in past)
    && (RunEndsWithData(true) in past || RunEndsWithData(false) in past ==> s.worker.SendingData? || s.worker.Ended?)
    && (WaitSeesData in past ==> (RunEndsWithData(true) in past <==> RunEndsWithData(false) !in past))
    && (s.handler.HandleError? ==> SawError(past) && WaitSeesData !in past)
  }

  /** While nobody has written, the handler's position tells what it has seen. */
  predicate UnwrittenMatches(past: seq<Action>, s: State) {
    s.once.Free? && (s.handler.CheckData? || s.handler.DefaultReply?) ==>
      && s.worker.Ended? && !SawError(past) && WaitSeesData in past
      && (RunEndsWithData(true) in past <==> s.handler == CheckData(true))
  }

  function ReplyFor(past: seq<Action>): Reply {
    if StartFails in past then StartError
    else if WriteResponse in past then NodeResponse
    else if SawError(past) then RunError
    else if RunEndsWithData(true) in past then DataError
    else Success
  }

  predicate RepliesMatch(past: seq<Action>, s: State) {
    && (WriteResponse in past <==> NodeResponse in s.written)
    && (s.once.Free? ==> s.written == if StartFailed(s) then [StartError] else [])
    && (s.once.Held? ==> s.written == if s.worker.Writing? then [] else [NodeResponse])
    && (s.once.Done? ==>
          && !s.handler.InWait? && s.written == [ReplyFor(past)]
          && (WriteResponse in past || SawError(past) || WaitSeesData in past))
  }

  predicate LogInv(past: seq<Action>, s: State) {
    Inv(s) && PositionsMatch(past, s) && UnwrittenMatches(past, s) && RepliesMatch(past, s)
  }

  lemma PositionsStep(past: seq<Action>, s: State, a: Action)
    requires Inv(s) && PositionsMatch(past, s) && UnwrittenMatches(past, s) && Enabled(s, a)
    ensures PositionsMatch(past + [a], Apply(s, a))
  {
    assert forall b :: b in past + [a] <==> b in past || b == a;
  }

  lemma UnwrittenStep(past: seq<Action>, s: State, a: Action)
    requires Inv(s) && PositionsMatch(past, s) && UnwrittenMatches(past, s) && Enabled(s, a)
    ensures UnwrittenMatches(past + [a], Apply(s, a))
  {
    assert forall b :: b in past + [a] <==> b in past || b == a;
  }

  lemma RepliesStep(past: seq<Action>, s: State, a: Action)
    requires LogInv(past, s) && Enabled(s, a)
    ensures RepliesMatch(past + [a], Apply(s, a))
  {
    assert forall b :: b in past + [a] <==> b in past || b == a;
  }

  lemma ApplyKeepsLog(past: seq<Action>, s: State, a: Action)
    requires LogInv(past, s) && Enabled(s, a)
    ensures LogInv(past + [a], Apply(s, a))
  {
    ApplyKeepsInv(s, a);
    PositionsStep(past, s, a);
    UnwrittenStep(past, s, a);
    RepliesStep(past, s, a);
  }

  lemma {:induction false} LogAlways(past: seq<Action>, s: State, actions: seq<Action>)
    requires LogInv(past, s) && Possible(s, actions)
    ensures LogInv(past + actions, After(s, actions))
    decreases |actions|
  {
    if actions == [] {
      assert past + actions == past;
    } else {
      ApplyKeepsLog(past, s, actions[0]);
      LogAlways(past + [actions[0]], Apply(s, actions[0]), actions[1..]);
      assert past + [actions[0]] + actions[1..] == past + actions;
    }
  }

  /**
   The reply that stands when the handler returns: the respond node's if it wrote one, otherwise that of what
   Wait ended with. A run that failed is never answered as a success.
   */
  lemma WhichReply(actions: seq<Action>)
    requires Possible(INITIAL, actions) && After(INITIAL, actions).handler.Returned?
    ensures var written := After(INITIAL, actions).written;
            var silent := StartFails !in actions && WriteResponse !in actions;
      && (written == [StartError] <==> StartFails in actions)
      && (written == [NodeResponse] <==> WriteResponse in actions)
      && (written == [RunError] <==> silent && (WaitSeesCancel in actions || WaitSeesError in actions))
      && (written == [DataError] <==> silent && WaitSeesData in actions && RunEndsWithData(true) in actions)
      && (written == [Success] <==> silent && WaitSeesData in actions && RunEndsWithData(false) in actions)
  {
    LogAlways([], INITIAL, actions);
    assert [] + actions == actions;
    var s := After(INITIAL, actions);
    assert StartFails !in actions ==> s.once.Done? && s.written == [ReplyFor(actions)];
    assert StartFails in actions ==> s.written == [StartError];
  }

  // ----- when the handler returns at all -----

  /**
   The handler left Wait while the goroutine is inside the once and still has to notify: the goroutine
   waits for a receiver, the handler for the once.
   */
  predicate Doomed(s: State) {
    PastWait(s.handler) && (s.worker.Writing? || s.worker.Notifying?)
  }

  lemma {:induction false} DoomedStays(s: State, actions: seq<Action>)
    requires Inv(s) && Doomed(s) && Possible(s, actions)
    ensures Doomed(After(s, actions))
    decreases |actions|
  {
    if actions == [] {
    } else {
      ApplyKeepsInv(s, actions[0]);
      DoomedStays(Apply(s, actions[0]), actions[1..]);
    }
  }

  ghost predicate CanReturn(s: State) {
    exists actions :: Possible(s, actions) && After(s, actions).handler.Returned?
  }

  lemma CanReturnVia(s: State, a: Action)
    requires Enabled(s, a) && CanReturn(Apply(s, a))
    ensures CanReturn(s)
  {
    var rest :| Possible(Apply(s, a), rest) && After(Apply(s, a), rest).handler.Returned?;
    var actions := [a] + rest;
    assert actions[1..] == rest;
    assert Possible(s, actions) && After(s, actions) == After(Apply(s, a), rest);
  }

  lemma ReturnedCanReturn(s: State)
    requires s.handler.Returned?
    ensures CanReturn(s)
  {
    assert Possible(s, []) && After(s, []) == s;
  }

  lemma PastWaitReturns(s: State)
    requires Inv(s) && PastWait(s.handler) && !s.once.Held?
    ensures CanReturn(s)
  {
    var s1 := if s.handler.HandleError? then Apply(s, ReplyError) else s;
    var s2 := if s1.handler.CheckData? then Apply(s1, ReplyDataError) else s1;
    ReturnedCanReturn(Apply(s2, ReplyDefault));
    CanReturnVia(s2, ReplyDefault);
    if s1.handler.CheckData? {
      CanReturnVia(s1, ReplyDataError);
    }
    if s.handler.HandleError? {
      CanReturnVia(s, ReplyError);
    }
  }

  lemma NotifyingReturns(s: State)
    requires Inv(s) && s.handler.InWait? && s.worker.Notifying?
    ensures CanReturn(s)
  {
    var s1 := Apply(s, WaitSeesResponse);
    ApplyKeepsInv(s, WaitSeesResponse);
    ApplyKeepsInv(s1, ReleaseOnce);
    PastWaitReturns(Apply(s1, ReleaseOnce));
    CanReturnVia(s1, ReleaseOnce);
    CanReturnVia(s, WaitSeesResponse);
  }

  lemma InWaitReturns(s: State)
    requires Inv(s) && s.handler.InWait?
    ensures CanReturn(s)
  {
    if s.worker.Notifying? {
      NotifyingReturns(s);
    } else if s.worker.Writing? {
      ApplyKeepsInv(s, WriteResponse);
      NotifyingReturns(Apply(s, WriteResponse));
      CanReturnVia(s, WriteResponse);
    } else if s.worker.SendingError? {
      ApplyKeepsInv(s, WaitSeesError);
      PastWaitReturns(Apply(s, WaitSeesError));
      CanReturnVia(s, WaitSeesError);
    } else {
      var s1 := if s.worker.Working? then Apply(s, RunEndsWithData(false)) else s;
      if s.worker.Working? {
        ApplyKeepsInv(s, RunEndsWithData(false));
      }
      ApplyKeepsInv(s1, WaitSeesData);
      PastWaitReturns(Apply(s1, WaitSeesData));
      CanReturnVia(s1, WaitSeesData);
      if s.worker.Working? {
        CanReturnVia(s, RunEndsWithData(false));
      }
    }
  }

  /** From a reachable state the handler can still return exactly when it is not doomed. */
  lemma ReturnsIffNotDoomed(s: State)
    requires Inv(s)
    ensures CanReturn(s) <==> !Doomed(s)
  {
    if Doomed(s) {
      forall actions | Possible(s, actions)
        ensures !After(s, actions).handler.Returned?
      {
        DoomedStays(s, actions);
      }
    } else if s.handler.Returned? {
      ReturnedCanReturn(s);
    } else if s.handler.Starting? {
      ReturnedCanReturn(Apply(s, StartFails));
      CanReturnVia(s, StartFails);
    } else if s.handler.InWait? {
      InWaitReturns(s);
    } else if s.once.Held? {
      ApplyKeepsInv(s, ReleaseOnce);
      PastWaitReturns(Apply(s, ReleaseOnce));
      CanReturnVia(s, ReleaseOnce);
    } else {
      PastWaitReturns(s);
    }
  }

  /** Without a cancellation of the request or of the run the handler is never doomed. */
  lemma DoomNeedsCancel(actions: seq<Action>)
    requires Possible(INITIAL, actions) && Doomed(After(INITIAL, actions))
    ensures Cancel in actions
  {
    InvAlways(INITIAL, actions);
    if Cancel !in actions {
      NeverCancelled(INITIAL, actions);
    }
  }

  lemma {:induction false} NeverCancelled(s: State, actions: seq<Action>)
    requires Possible(s, actions) && !s.cancelled && Cancel !in actions
    ensures !After(s, actions).cancelled
    decreases |actions|
  {
    if actions == [] {
    } else {
      assert actions[0] != Cancel;
      NeverCancelled(Apply(s, actions[0]), actions[1..]);
    }
  }

  /** With one it can be: the select picks the cancelled context while a respond node is about to notify. */
  lemma CancelCanDoom()
    ensures exists actions :: Possible(INITIAL, actions) && Doomed(After(INITIAL, actions))
  {
    var a5 := [WaitSeesCancel];
    var a4 := [Cancel] + a5;
    var a3 := [WriteResponse] + a4;
    var a2 := [EnterRespondNode] + a3;
    var a1 := [StartSucceeds] + a2;
    assert a5[1..] == [] && a4[1..] == a5 && a3[1..] == a4 && a2[1..] == a3 && a1[1..] == a2;
    var s1 := Apply(INITIAL, StartSucceeds);
    var s2 := Apply(s1, EnterRespondNode);
    var s3 := Apply(s2, WriteResponse);
    var s4 := Apply(s3, Cancel);
    var s5 := Apply(s4, WaitSeesCancel);
    assert Possible(s5, []) && After(s5, []) == s5;
    assert Possible(s4, a5) && After(s4, a5) == s5;
    assert Possible(s3, a4) && After(s3, a4) == s5;
    assert Possible(s2, a3) && After(s2, a3) == s5;
    assert Possible(s1, a2) && After(s1, a2) == s5;
    assert Possible(INITIAL, a1) && After(INITIAL, a1) == s5;
  }
}
