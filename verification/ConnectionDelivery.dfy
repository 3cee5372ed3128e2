/** What the protocol does if nobody stops it: handlers tell their users, and the loop opens the next session.
  */
module ConnectionDelivery {
  import opened CallbackTrace
  import opened Common
  import opened ConnectionProtocol
  import opened ConnectionRuns

  // ---------------------------------------------------------------------------
  // A dispatched handler calls its callback.

  /** What a handler without an error tells its user. */
  function Told(h: Handler): seq<Event> {
    match h
    case Establish => [NewConnection]
    case Read => [ReadSocket]
    case Write => [DataSent]
    case UserTimer => [TimerFired]
    case IdleTimer | Signal => []
  }

  predicate Tells(h: Handler) { h.Establish? || h.Read? || h.Write? }

  /** In the handler `h`, dispatched at the trace `t`, or on the way from it back to `run()`.  `well` says that
      it reports no error and nobody has stopped the session so far. */
  predicate Handling(t: seq<Event>, h: Handler, well: bool, s: State) {
    match s.point
    case Begin(g, error, _) => g == h && s.trace == t && (well ==> error.Off?) && s.user.NoUser? && s.call == NoCall
    case Test(g, error, _) => g == h && Tells(h) && s.trace == t && (well ==> error.Off? && s.call == NoCall) && s.user.NoUser?
    case Connect(_, _) => h.Establish? && s.trace == t
    case Deliver(g, _, _) => g == h && Tells(h) && s.trace == t && (h.Establish? ==> s.connected.On?)
    case NextRead(g) => g == h && Done(t, h, s)
    case Run => Done(t, h, s) || (!well && s.trace == t)
    case _ => false
  }

  predicate Done(t: seq<Event>, h: Handler, s: State) {
    s.trace == t + Told(h) && (h.Establish? ==> s.connected.On?)
  }

  lemma DispatchIs(s: State, c: Choice)
    requires AtRun(s) && WorkerEnabled(s, c) && WorkerStep(s, c).point.Begin?
    ensures var s' := WorkerStep(s, c);
      s'.trace == s.trace && s'.user.NoUser? && s'.call == NoCall && s'.point.late == s.sessionStop
  {
  }

  lemma Dispatched(s: State, s': State)
    requires AtRun(s) && s'.point.Begin? && (Next(s, s') || Reset(s, s'))
    ensures Handling(s.trace, s'.point.h, s'.point.error.Off?, s')
  {
    hide Next, Reset, WorkerStep, WorkerEnabled;
    if WorkerMoves(s, s') {
      var c :| WorkerEnabled(s, c) && s' == WorkerStep(s, c);
      DispatchIs(s, c);
    } else {
      OthersLeaveWorker(s, s');
    }
  }

  lemma HandlingCall(t: seq<Event>, h: Handler, well: bool, s: State, c: Choice)
    requires Handling(t, h, well, s) && WorkerEnabled(s, c) && (s.call != NoCall || s.user.InUser?)
    ensures Handling(t, h, well, WorkerStep(s, c))
  {
  }

  lemma HandlingMove(t: seq<Event>, h: Handler, well: bool, s: State, c: Choice)
    requires Handling(t, h, well, s) && !s.point.Run? && s.user.NoUser? && s.call == NoCall
    requires well ==> s.sessionStop.Off?
    ensures Handling(t, h, well, HandlerStep(s, c))
  {
  }

  /** Steps of others change neither where the worker is nor whether it is connected. */
  lemma OthersKeepHandling(t: seq<Event>, h: Handler, well: bool, s: State, s': State)
    requires Handling(t, h, well, s) && (Next(s, s') || Reset(s, s')) && !WorkerMoves(s, s')
    ensures Handling(t, h, well, s')
  {
    hide WorkerMoves, CallerStep, CallerEnabled;
    if CallerMoves(s, s') {
      var i :| CallerEnabled(s, i) && s' == CallerStep(s, i);
      CallerKeepsWorker(s, i);
    }
  }

  lemma CallerKeepsWorker(s: State, i: int)
    requires CallerEnabled(s, i)
    ensures var s' := CallerStep(s, i);
      && s'.point == s.point && s'.trace == s.trace && s'.user == s.user && s'.call == s.call
      && s'.connected == s.connected && s'.pendingEstablish == s.pendingEstablish && s'.pendingRead == s.pendingRead
  {
  }

  lemma WellLess(t: seq<Event>, h: Handler, well: bool, still: bool, s: State)
    requires Handling(t, h, well, s) && (still ==> well)
    ensures Handling(t, h, still, s)
  {
  }

  lemma HandlingStep(t: seq<Event>, h: Handler, well: bool, s: State, s': State)
    requires Handling(t, h, well, s) && !AtRun(s) && (Next(s, s') || Reset(s, s'))
    requires well ==> s.sessionStop.Off?
    ensures Handling(t, h, well, s')
  {
    hide Next, Reset, WorkerStep, WorkerEnabled, Handling, HandlerStep;
    if WorkerMoves(s, s') {
      var c :| WorkerEnabled(s, c) && s' == WorkerStep(s, c);
      if s.call != NoCall || s.user.InUser? {
        HandlingCall(t, h, well, s, c);
      } else {
        HandlingPoint(t, h, well, s);
        HandlingMove(t, h, well, s, c);
        HandlerMoves(s, c);
      }
    } else {
      OthersKeepHandling(t, h, well, s, s');
    }
  }

  lemma HandlingPoint(t: seq<Event>, h: Handler, well: bool, s: State)
    requires Handling(t, h, well, s)
    ensures s.point.InHandler() || s.point.Run?
  {
  }

  lemma HandlerMoves(s: State, c: Choice)
    requires s.point.InHandler() && s.user.NoUser? && s.call == NoCall && WorkerEnabled(s, c)
    ensures WorkerStep(s, c) == HandlerStep(s, c)
  {
  }

  /** No stop reached the session in the states from `i` to `j`. */
  predicate Unstopped(run: seq<State>, i: nat, j: nat)
    requires j < |run|
  {
    forall k :: i <= k <= j ==> run[k].sessionStop.Off?
  }

  lemma {:induction false} HandlerRun(run: seq<State>, i: nat, j: nat)
    requires IsRun(run) && i < j < |run|
    requires AtRun(run[i]) && run[i + 1].point.Begin?
    requires forall k :: i < k < j ==> !AtRun(run[k])
    ensures Handling(run[i].trace, run[i + 1].point.h, run[i + 1].point.error.Off? && Unstopped(run, i, j), run[j])
    decreases j
  {
    hide Inv, Next, Reset, Handling, AtRun, Init;
    var before := run[j - 1];
    var h, error := run[i + 1].point.h, run[i + 1].point.error;
    var well := error.Off? && Unstopped(run, i, j);
    assert Next(before, run[j]) || Reset(before, run[j]);
    if j == i + 1 {
      Dispatched(run[i], run[j]);
      WellLess(run[i].trace, h, error.Off?, well, run[j]);
    } else {
      HandlerRun(run, i, j - 1);
      WellLess(run[i].trace, h, error.Off? && Unstopped(run, i, j - 1), well, before);
      HandlingStep(run[i].trace, h, well, before, run[j]);
    }
  }

  /** Over whole runs, from the dispatch of a handler to the next time the worker is in `run()` with nothing under
      way.  Whatever happens meanwhile, at most one callback is called, and that is the handler's own.  If the
      handler reports no error and nobody stops the session meanwhile, it is called: a connection that was accepted
      or made is announced and counts as connected, data that was read is delivered, data that was sent is reported.
    */
  lemma HandlerDelivers(run: seq<State>, i: nat, j: nat, h: Handler, error: Flag, late: Flag)
    requires IsRun(run) && i < j < |run|
    requires AtRun(run[i]) && AtRun(run[j]) && run[i + 1].point == Begin(h, error, late)
    requires forall k :: i < k < j ==> !AtRun(run[k])
    ensures run[j].trace == run[i].trace || run[j].trace == run[i].trace + Told(h)
    ensures error.Off? && (forall k :: i <= k <= j ==> run[k].sessionStop.Off?) ==>
      && (h.Establish? ==> run[j].trace == run[i].trace + [NewConnection] && run[j].connected.On?)
      && (h.Read? ==> run[j].trace == run[i].trace + [ReadSocket])
      && (h.Write? ==> run[j].trace == run[i].trace + [DataSent])
      && (h.UserTimer? ==> run[j].trace == run[i].trace + [TimerFired])
  {
    hide IsRun;
    HandlerRun(run, i, j);
  }

  // ---------------------------------------------------------------------------
  // A closing handler closes.

  /** The handlers that end the session: errors, the idle timer and the system signals. */
  predicate Ends(h: Handler, error: Flag) {
    if h.IdleTimer? || h.Signal? then error.Off? else Tells(h) && error.On?
  }

  predicate SocketClosed(s: State) { s.socket != Socket(On) }

  /** How far a closing that has got to `step` has brought the session. */
  predicate ClosedTo(s: State, step: Closing) {
    match step
    case Entering | FlagSession => true
    case CloseSocket => s.sessionStop.On?
    case StopService => s.sessionStop.On? && SocketClosed(s)
    case Leaving => s.sessionStop.On? && SocketClosed(s) && s.io != Service(Off)
  }

  /** In a handler that ends the session, or back in `run()` with the session ended. */
  predicate Shutting(h: Handler, error: Flag, s: State) {
    match s.point
    case Begin(g, e, _) => g == h && e == error && s.call == NoCall && s.user.NoUser?
    case Test(_, _, _) | Run =>
      && s.user.NoUser?
      && (if h.Signal? then s.call.SetFullStop? || (s.fullStop.On? && ShutTo(s, On)) else ShutTo(s, Off))
    case _ => false
  }

  predicate ShutTo(s: State, full: Flag) {
    match s.call
    case SetFullStop => false
    case InClose(step, f) => f == full && ClosedTo(s, step)
    case NoCall => ClosedTo(s, Leaving) && (full.On? ==> s.stopFinished.On?)
  }

  lemma ShuttingBegins(h: Handler, error: Flag, s: State, c: Choice)
    requires Shutting(h, error, s) && Ends(h, error) && s.point.Begin?
    ensures Shutting(h, error, HandlerStart(s, c, h, error, s.point.late))
  {
  }

  lemma ShuttingTested(h: Handler, error: Flag, s: State, c: Choice)
    requires Shutting(h, error, s) && s.point.Test? && s.call == NoCall
    ensures Shutting(h, error, HandlerStep(s, c))
  {
    hide HandlerStart;
  }

  lemma ShuttingCall(h: Handler, error: Flag, s: State)
    requires Shutting(h, error, s) && s.call != NoCall
    ensures Shutting(h, error, CallStep(s))
  {
  }

  lemma ShuttingPoint(h: Handler, error: Flag, s: State)
    requires Shutting(h, error, s) && !AtRun(s)
    ensures s.user.NoUser? && (s.call == NoCall ==> (s.point.Begin? && s.point.h == h && s.point.error == error) || s.point.Test?)
  {
  }

  lemma ShuttingWorker(h: Handler, error: Flag, s: State, c: Choice)
    requires Shutting(h, error, s) && Ends(h, error) && !AtRun(s) && WorkerEnabled(s, c)
    ensures Shutting(h, error, WorkerStep(s, c))
  {
    hide Shutting, AtRun, Ends, WorkerEnabled, CallStep, HandlerStart, EntryStep, SetupStep, CleanupStep, SessionStep;
    ShuttingPoint(h, error, s);
    if s.call != NoCall { ShuttingCall(h, error, s); }
    else if s.point.Begin? { ShuttingBegins(h, error, s, c); }
    else { ShuttingTested(h, error, s, c); }
  }

  /** Other threads only ever bring a session closer to its end. */
  lemma CallerOnlyCloses(s: State, i: int)
    requires CallerEnabled(s, i)
    ensures var s' := CallerStep(s, i);
      && s'.point == s.point && s'.user == s.user && s'.call == s.call
      && (s.sessionStop.On? ==> s'.sessionStop.On?) && (s.fullStop.On? ==> s'.fullStop.On?)
      && (s.stopFinished.On? ==> s'.stopFinished.On?)
      && (SocketClosed(s) ==> SocketClosed(s')) && (s.io != Service(Off) ==> s'.io != Service(Off))
  {
  }

  lemma CallerCloses(h: Handler, error: Flag, s: State, i: int)
    requires Shutting(h, error, s) && CallerEnabled(s, i)
    ensures Shutting(h, error, CallerStep(s, i))
  {
    hide CallerStep, CallerEnabled, SocketClosed;
    CallerOnlyCloses(s, i);
  }

  lemma ShuttingStep(h: Handler, error: Flag, s: State, s': State)
    requires Shutting(h, error, s) && Ends(h, error) && !AtRun(s) && (Next(s, s') || Reset(s, s'))
    ensures Shutting(h, error, s')
  {
    hide WorkerStep, WorkerEnabled, CallerStep, CallerEnabled;
    if WorkerMoves(s, s') {
      var c :| WorkerEnabled(s, c) && s' == WorkerStep(s, c);
      ShuttingWorker(h, error, s, c);
    } else if CallerMoves(s, s') {
      var i :| CallerEnabled(s, i) && s' == CallerStep(s, i);
      CallerCloses(h, error, s, i);
    }
  }

  lemma {:induction false} ShuttingRun(run: seq<State>, i: nat, j: nat)
    requires IsRun(run) && i < j < |run|
    requires AtRun(run[i]) && run[i + 1].point.Begin? && Ends(run[i + 1].point.h, run[i + 1].point.error)
    requires forall k :: i < k < j ==> !AtRun(run[k])
    ensures Shutting(run[i + 1].point.h, run[i + 1].point.error, run[j])
    decreases j
  {
    hide Next, Reset, Handling, Shutting, AtRun, Init, Ends;
    assert Next(run[j - 1], run[j]) || Reset(run[j - 1], run[j]);
    if j == i + 1 {
      Dispatched(run[i], run[j]);
      ShuttingStarts(run[i].trace, run[j]);
    } else {
      ShuttingRun(run, i, j - 1);
      ShuttingStep(run[i + 1].point.h, run[i + 1].point.error, run[j - 1], run[j]);
    }
  }

  lemma ShuttingStarts(t: seq<Event>, s: State)
    requires s.point.Begin? && Handling(t, s.point.h, s.point.error.Off?, s)
    ensures Shutting(s.point.h, s.point.error, s)
  {
  }

  /** Over whole runs: after the idle timer, a system signal or an error in a handler the worker is in `run()`
      again only with its session flagged, its socket closed and its `io_service` stopped; after a signal the
      whole connection has been stopped.
    */
  lemma HandlerCloses(run: seq<State>, i: nat, j: nat, h: Handler, error: Flag, late: Flag)
    requires IsRun(run) && i < j < |run|
    requires AtRun(run[i]) && AtRun(run[j]) && run[i + 1].point == Begin(h, error, late)
    requires forall k :: i < k < j ==> !AtRun(run[k])
    requires (error.On? && (h.Establish? || h.Read? || h.Write?)) || (error.Off? && (h.IdleTimer? || h.Signal?))
    ensures run[j].sessionStop.On? && run[j].socket != Socket(On) && run[j].io == Service(On)
    ensures h.Signal? ==> run[j].fullStop.On? && run[j].stopFinished.On?
  {
    hide IsRun, Inv;
    RunKeepsInv(run);
    ShuttingRun(run, i, j);
    LiveService(run[j]);
  }

  lemma LiveService(s: State)
    requires Inv(s) && s.point.Run?
    ensures s.io.Service?
  {
  }

  // ---------------------------------------------------------------------------
  // What opens a session is waiting.

  /** In a session, before the end of `run()`, with accepting or connecting still to be done. */
  predicate Waits(s: State) {
    (s.point.Before? || s.point.Run? || s.point.InHandler()) && s.pendingEstablish.On?
  }

  predicate Establishing(s: State) { s.point.Begin? && s.point.h.Establish? }

  lemma WaitsAfterStep(s: State, c: Choice)
    requires Waits(s) && WorkerEnabled(s, c)
    ensures var s' := WorkerStep(s, c); Waits(s') || Establishing(s') || s'.point.AfterRun?
  {
  }

  lemma WaitsAfterOther(s: State, s': State)
    requires Waits(s) && (Next(s, s') || Reset(s, s')) && !WorkerMoves(s, s')
    ensures Waits(s')
  {
    hide WorkerMoves, CallerStep, CallerEnabled;
    if CallerMoves(s, s') {
      var i :| CallerEnabled(s, i) && s' == CallerStep(s, i);
      CallerKeepsWorker(s, i);
    }
  }

  lemma WaitsAfterAny(s: State, s': State)
    requires Waits(s) && (Next(s, s') || Reset(s, s')) && !Establishing(s') && !s'.point.AfterRun?
    ensures Waits(s')
  {
    hide Next, Reset, WorkerStep, WorkerEnabled, Waits;
    if WorkerMoves(s, s') {
      var c :| WorkerEnabled(s, c) && s' == WorkerStep(s, c);
      WaitsAfterStep(s, c);
    } else {
      WaitsAfterOther(s, s');
    }
  }

  lemma PostedWaits(s: State, s': State)
    requires s.point.PostTask? && s'.point.Before? && (Next(s, s') || Reset(s, s'))
    ensures Waits(s')
  {
    if !WorkerMoves(s, s') { OthersLeaveWorker(s, s'); }
  }

  /** A new accept that was asked for replaces the next read, on a closed socket, and is asked for once. */
  lemma AcceptWaits(s: State, s': State)
    requires s.point == NextRead(Read) && s.newAccept.On? && s'.point.Run? && (Next(s, s') || Reset(s, s'))
    ensures Waits(s') && s'.newAccept.Off? && SocketClosed(s') && s'.pendingRead == s.pendingRead
  {
    if !WorkerMoves(s, s') { OthersLeaveWorker(s, s'); }
  }

  /** Between the states `i` and `j` the worker neither began to accept or connect nor left `run()`. */
  predicate NotYet(run: seq<State>, i: nat, j: nat)
    requires j < |run|
  {
    forall k :: i < k <= j ==> !run[k].point.AfterRun? && !Establishing(run[k])
  }

  lemma {:induction false} StillWaits(run: seq<State>, i: nat, j: nat)
    requires IsRun(run) && i < j < |run| && Waits(run[i + 1]) && NotYet(run, i, j)
    ensures Waits(run[j])
    decreases j
  {
    hide Next, Reset, Waits, Init, Establishing;
    if i + 1 < j {
      StillWaits(run, i, j - 1);
      assert Next(run[j - 1], run[j]) || Reset(run[j - 1], run[j]);
      WaitsAfterAny(run[j - 1], run[j]);
    }
  }

  /** `run()` can go on into the handler of accepting or connecting. */
  ghost predicate CanEstablish(s: State, error: Flag) {
    exists s' :: WorkerMoves(s, s') && s'.point == Begin(Establish, error, s.sessionStop)
  }

  lemma Dispatches(s: State, error: Flag)
    requires AtRun(s) && s.io == Service(Off) && s.pendingEstablish.On?
    ensures CanEstablish(s, error)
  {
    var c := Choice(Off, 0, Off, Establish, error, Off);
    assert WorkerEnabled(s, c) && WorkerMoves(s, WorkerStep(s, c));
  }

  /** Over whole runs: the work that opens a session, posted before `run()` or again for a new accept, is never lost.
      Until it is dispatched or `run()` is left, it is waiting, and as long as nobody stops the `io_service`,
      `run()` can dispatch it. */
  lemma TaskWaits(run: seq<State>, i: nat, j: nat)
    requires IsRun(run) && i < j < |run|
    requires
      || (run[i].point.PostTask? && run[i + 1].point.Before?)
      || (run[i].point == NextRead(Read) && run[i].newAccept.On? && run[i + 1].point.Run?)
    requires forall k :: i < k <= j ==> !run[k].point.AfterRun? && !(run[k].point.Begin? && run[k].point.h.Establish?)
    ensures run[j].pendingEstablish.On?
    ensures AtRun(run[j]) && run[j].io == Service(Off) ==> forall error :: CanEstablish(run[j], error)
  {
    hide Next, Reset, Init, CanEstablish, AtRun;
    assert Next(run[i], run[i + 1]) || Reset(run[i], run[i + 1]);
    if run[i].point.PostTask? { PostedWaits(run[i], run[i + 1]); } else { AcceptWaits(run[i], run[i + 1]); }
    StillWaits(run, i, j);
    if AtRun(run[j]) && run[j].io == Service(Off) {
      forall error ensures CanEstablish(run[j], error) { Dispatches(run[j], error); }
    }
  }

  // ---------------------------------------------------------------------------
  // So is a read that was asked for.

  predicate ReadWaits(s: State) {
    (s.point.Run? || s.point.InHandler()) && s.pendingRead.On?
  }

  /** Where a read stops waiting: it is dispatched, `run()` is left, or the next one is asked for. */
  predicate ReadOver(s: State) {
    s.point.AfterRun? || s.point.NextRead? || (s.point.Begin? && s.point.h.Read?)
  }

  lemma ReadWaitsAfterStep(s: State, c: Choice)
    requires ReadWaits(s) && !s.point.NextRead? && WorkerEnabled(s, c)
    ensures ReadWaits(WorkerStep(s, c)) || ReadOver(WorkerStep(s, c))
  {
  }

  lemma ReadWaitsAfterAny(s: State, s': State)
    requires ReadWaits(s) && !s.point.NextRead? && (Next(s, s') || Reset(s, s')) && !ReadOver(s')
    ensures ReadWaits(s')
  {
    hide WorkerStep, WorkerEnabled, CallerStep, CallerEnabled;
    if WorkerMoves(s, s') {
      var c :| WorkerEnabled(s, c) && s' == WorkerStep(s, c);
      ReadWaitsAfterStep(s, c);
    } else if CallerMoves(s, s') {
      var i :| CallerEnabled(s, i) && s' == CallerStep(s, i);
      CallerKeepsWorker(s, i);
    }
  }

  lemma {:induction false} StillReads(run: seq<State>, i: nat, j: nat)
    requires IsRun(run) && i < j < |run| && ReadWaits(run[i + 1]) && forall k :: i < k <= j ==> !ReadOver(run[k])
    ensures ReadWaits(run[j])
    decreases j
  {
    hide Next, Reset, ReadWaits, Init;
    if i + 1 < j {
      StillReads(run, i, j - 1);
      assert Next(run[j - 1], run[j]) || Reset(run[j - 1], run[j]);
      assert !ReadOver(run[j - 1]);
      ReadWaitsAfterAny(run[j - 1], run[j]);
    }
  }

  /** `run()` can go on into the handler of reading. */
  ghost predicate CanRead(s: State, error: Flag) {
    exists s' :: WorkerMoves(s, s') && s'.point == Begin(Read, error, s.sessionStop)
  }

  lemma DispatchesRead(s: State, error: Flag)
    requires AtRun(s) && s.io == Service(Off) && s.pendingRead.On?
    ensures CanRead(s, error)
  {
    var c := Choice(Off, 0, Off, Read, error, Off);
    assert WorkerEnabled(s, c) && WorkerMoves(s, WorkerStep(s, c));
  }

  /** After a connection or a read, if no new accept is wanted, the user can ask for another read. */
  lemma CanAskForRead(s: State)
    requires s.point.NextRead? && s.user.NoUser? && s.call == NoCall && (s.point.h.Read? ==> s.newAccept.Off?)
    ensures exists s' :: WorkerMoves(s, s') && s'.pendingRead.On? && AtRun(s') && s'.socket == s.socket
  {
    var c := Choice(Off, 0, Off, Read, Off, On);
    assert WorkerEnabled(s, c) && WorkerMoves(s, WorkerStep(s, c));
  }

  /** Over whole runs: a read that was asked for is never lost.  Until it is dispatched, the next one is asked for or
      `run()` is left, it is waiting, and as long as nobody stops the `io_service`, `run()` can dispatch it. */
  lemma ReadIsKept(run: seq<State>, i: nat, j: nat)
    requires IsRun(run) && i < j < |run|
    requires run[i].point.NextRead? && run[i + 1].point.Run? && run[i + 1].pendingRead.On?
    requires forall k :: i < k <= j ==>
      !run[k].point.AfterRun? && !run[k].point.NextRead? && !(run[k].point.Begin? && run[k].point.h.Read?)
    ensures run[j].pendingRead.On?
    ensures AtRun(run[j]) && run[j].io == Service(Off) ==> forall error :: CanRead(run[j], error)
  {
    hide IsRun, CanRead, AtRun;
    StillReads(run, i, j);
    if AtRun(run[j]) && run[j].io == Service(Off) {
      forall error ensures CanRead(run[j], error) { DispatchesRead(run[j], error); }
    }
  }

  // ---------------------------------------------------------------------------
  // close_current_session closes the session it finds.

  predicate Shut(s: State, step: Closing) { s.point.Live() ==> ClosedTo(s, step) }

  /** Every closing under way has done to the session what comes before the step it is at. */
  ghost predicate CloseInv(s: State) {
    && (s.call.InClose? ==> Shut(s, s.call.step))
    && (forall i :: i in s.callers && s.callers[i].Closes? ==> Shut(s, s.callers[i].step))
  }

  /** Only the thread that holds the mutex is inside a closing. */
  lemma CloseKeptBySession(s: State, c: Choice)
    requires LockInv(s) && CloseInv(s) && WorkerEnabled(s, c) && s.call == NoCall && s.user.NoUser?
    requires !s.point.InCleanup() && !s.point.InSetup() && !s.point.InEntry()
    ensures CloseInv(LoopStep(s, c))
  {
  }

  lemma CloseKeptByLoop(s: State, c: Choice)
    requires LockInv(s) && CloseInv(s) && WorkerEnabled(s, c) && s.call == NoCall && s.user.NoUser?
    requires s.point.InCleanup() || s.point.InSetup() || s.point.InEntry()
    ensures CloseInv(LoopStep(s, c))
  {
  }

  lemma CloseKeptByCall(s: State, c: Choice)
    requires LockInv(s) && CloseInv(s) && WorkerEnabled(s, c) && (s.call != NoCall || s.user.InUser?)
    ensures CloseInv(WorkerStep(s, c))
  {
  }

  lemma CloseKeptByCaller(s: State, i: int)
    requires LockInv(s) && CloseInv(s) && CallerEnabled(s, i)
    ensures CloseInv(CallerStep(s, i))
  {
  }

  lemma CloseKeptByOther(s: State, s': State)
    requires LockInv(s) && CloseInv(s) && (Environment(s, s') || Start(s, s') || Reset(s, s'))
    ensures CloseInv(s')
  {
  }

  lemma CloseKept(s: State, s': State)
    requires Inv(s) && CloseInv(s) && (Next(s, s') || Reset(s, s'))
    ensures CloseInv(s')
  {
    InvIsLock(s);
    hide Inv, LockInv, CloseInv, WorkerEnabled, CallerStep, CallerEnabled, LoopStep, CallStep, UserStep, Environment, Start, Reset;
    if WorkerMoves(s, s') {
      var c :| WorkerEnabled(s, c) && s' == WorkerStep(s, c);
      if s.call != NoCall || s.user.InUser? { CloseKeptByCall(s, c); }
      else if s.point.InCleanup() || s.point.InSetup() || s.point.InEntry() { CloseKeptByLoop(s, c); }
      else { CloseKeptBySession(s, c); }
    } else if CallerMoves(s, s') {
      var i :| CallerEnabled(s, i) && s' == CallerStep(s, i);
      CloseKeptByCaller(s, i);
    } else {
      CloseKeptByOther(s, s');
    }
  }

  lemma InvIsLock(s: State)
    requires Inv(s)
    ensures LockInv(s)
  {
  }

  lemma {:induction false} RunCloses(run: seq<State>, j: nat)
    requires IsRun(run) && j < |run|
    ensures CloseInv(run[j])
  {
    hide Inv, Next, Reset;
    if j > 0 {
      RunCloses(run, j - 1);
      RunKeepsInv(run);
      assert Next(run[j - 1], run[j]) || Reset(run[j - 1], run[j]);
      CloseKept(run[j - 1], run[j]);
    }
  }

  /** Over whole runs: when a `close_current_session`, called by any thread, is about to return, any session there is
      has been flagged, its socket closed and its `io_service` stopped. */
  lemma CloseIsWhole(run: seq<State>, j: nat)
    requires IsRun(run) && j < |run| && run[j].point.Live()
    requires
      || (run[j].call.InClose? && run[j].call.step.Leaving?)
      || (exists i :: i in run[j].callers && run[j].callers[i].Closes? && run[j].callers[i].step.Leaving?)
    ensures run[j].sessionStop.On? && run[j].socket == Socket(Off) && run[j].io == Service(On)
  {
    hide IsRun, LockInv, StopInv, LateInv, PhaseInv;
    RunCloses(run, j);
    RunKeepsInv(run);
    assert Inv(run[j]);
  }

  // ---------------------------------------------------------------------------
  // Nothing but the mutex blocks.

  /** In every state the worker can go on, whatever `run()` dispatches next or with no more to do, unless it waits for
      the mutex, and then the thread that holds it can go on.  In user code, and on the way into a stopping call, it
      is never blocked. */
  lemma NeverDeadlocked(s: State)
    requires Inv(s) && !s.point.Idle? && !s.point.Finished()
    ensures (exists c :: WorkerEnabled(s, c)) || (s.lock.HeldByCaller? && CallerEnabled(s, s.lock.id))
    ensures s.call == SetFullStop || (s.call == NoCall && s.user.InUser?) ==> forall c :: WorkerEnabled(s, c)
  {
    hide PhaseInv, StopInv, LateInv;
    assert s.lock.HeldByCaller? ==> s.lock == HeldByCaller(s.lock.id);
    assert s.io.Service? ==> s.io == Service(if s.io.stopped.On? then On else Off);
    var c := Choice(Off, 0, Off, Establish, Off, On);
    assert WorkerEnabled(s, c) || (s.lock.HeldByCaller? && CallerEnabled(s, s.lock.id));
  }

  // ---------------------------------------------------------------------------
  // stop() before run().

  /** Over whole runs: once a `stop()` has begun, no `run()` or `run_async()` starts before a `reset()`. */
  lemma {:induction false} NoStartAfterStop(run: seq<State>, k: nat, j: nat, i: int)
    requires IsRun(run) && k < j && j + 1 < |run|
    requires i in run[k].callers && run[k].callers[i].MarkDirty?
    requires i in run[k + 1].callers && run[k + 1].callers[i].StoreFullStop?
    requires forall m :: k < m <= j ==> Next(run[m - 1], run[m])
    ensures run[j].clean.Off? && !Start(run[j], run[j + 1])
    decreases j
  {
    hide Init, Next, Start;
    assert Next(run[j - 1], run[j]);
    if j == k + 1 { DirtyMarked(run[k], run[j], i); } else {
      NoStartAfterStop(run, k, j - 1, i);
      StaysDirty(run[j - 1], run[j]);
    }
    DirtyCannotStart(run[j], run[j + 1]);
  }

  lemma DirtyMarked(s: State, s': State, i: int)
    requires Next(s, s') && i in s.callers && s.callers[i].MarkDirty? && i in s'.callers && s'.callers[i].StoreFullStop?
    ensures s'.clean.Off?
  {
    if WorkerMoves(s, s') {
      var c :| WorkerEnabled(s, c) && s' == WorkerStep(s, c);
      WorkerKeepsClean(s, c);
    }
  }

  lemma WorkerKeepsClean(s: State, c: Choice)
    requires WorkerEnabled(s, c)
    ensures WorkerStep(s, c).clean == s.clean && WorkerStep(s, c).callers == s.callers
  {
    hide WorkerEnabled, CallStep, UserStep, HandlerStep, EntryStep, SetupStep, CleanupStep, SessionStep;
    StepsKeepClean(s, c);
    HandlerKeepsClean(s, c);
    if s.call != NoCall { CallKeepsClean(s); }
    if s.user.InUser? { UserKeepsClean(s, c); }
  }

  lemma StepsKeepClean(s: State, c: Choice)
    ensures EntryStep(s, c).clean == SetupStep(s, c).clean == CleanupStep(s, c).clean == SessionStep(s, c).clean == s.clean
    ensures EntryStep(s, c).callers == SetupStep(s, c).callers == CleanupStep(s, c).callers == SessionStep(s, c).callers == s.callers
  {
  }

  lemma HandlerKeepsClean(s: State, c: Choice)
    ensures HandlerStep(s, c).clean == s.clean && HandlerStep(s, c).callers == s.callers
  {
  }

  lemma CallKeepsClean(s: State)
    requires s.call != NoCall
    ensures CallStep(s).clean == s.clean && CallStep(s).callers == s.callers
  {
  }

  lemma UserKeepsClean(s: State, c: Choice)
    requires s.user.InUser?
    ensures UserStep(s, c).clean == s.clean && UserStep(s, c).callers == s.callers
  {
  }

  lemma StaysDirty(s: State, s': State)
    requires Next(s, s') && s.clean.Off?
    ensures s'.clean.Off?
  {
    hide WorkerStep, WorkerEnabled;
    if WorkerMoves(s, s') {
      var c :| WorkerEnabled(s, c) && s' == WorkerStep(s, c);
      WorkerKeepsClean(s, c);
    }
  }

  lemma DirtyCannotStart(s: State, s': State)
    requires s.clean.Off?
    ensures !Start(s, s')
  {
  }

  // ---------------------------------------------------------------------------
  // Opening the next session.

  /** From the end of a session to the first callback of the next, and how far there is to go. */
  function ToOpen(p: Point): nat {
    match p
    case LoopEnd => 13
    case Sleep => 12
    case LoopTest => 11
    case OpenLog => 10
    case SetupLock => 9
    case Recheck => 8
    case ClearSessionStop => 7
    case ClearConnectedFlag => 6
    case NewService => 5
    case NewSocket => 4
    case SetupUnlock => 3
    case PostTask => 2
    case Before => 1
    case _ => 0
  }

  predicate Opening(s: State) {
    ToOpen(s.point) > 0 && s.user.NoUser? && s.call == NoCall && (s.point.Before? ==> s.pendingEstablish.On?)
  }

  /** At this step the worker's connection is to be made again and neither its log file nor its address fails. */
  ghost predicate Willing(run: nat -> State, i: nat) {
    Moves(run, i) && Opening(run(i)) ==> WillingMove(run(i), run(i + 1))
  }

  ghost predicate WillingMove(s: State, s': State) {
    exists c: Choice :: c.flag.Off? && c.throws.Off? && WorkerEnabled(s, c) && s' == WorkerStep(s, c)
  }

  lemma OpeningStep(s: State, c: Choice)
    requires Opening(s) && s.fullStop.Off? && c.flag.Off? && c.throws.Off? && WorkerEnabled(s, c)
    ensures var s' := WorkerStep(s, c);
      if s.point.Before? then s'.trace == s.trace + [BeforeNewConnection] && Waits(s')
      else Opening(s') && ToOpen(s'.point) < ToOpen(s.point) && s'.trace == s.trace
  {
  }

  lemma OpeningMove(s: State, s': State)
    requires Opening(s) && s.fullStop.Off? && WillingMove(s, s')
    ensures if s.point.Before? then s'.trace == s.trace + [BeforeNewConnection] && Waits(s')
      else Opening(s') && ToOpen(s'.point) < ToOpen(s.point) && s'.trace == s.trace
  {
    hide Opening, WorkerStep, WorkerEnabled, Waits, ToOpen;
    var c: Choice :| c.flag.Off? && c.throws.Off? && WorkerEnabled(s, c) && s' == WorkerStep(s, c);
    OpeningStep(s, c);
  }

  lemma OthersKeepOpening(s: State, s': State)
    requires Opening(s) && Next(s, s') && !WorkerMoves(s, s')
    ensures Opening(s') && s'.point == s.point && s'.trace == s.trace
  {
    hide WorkerMoves, CallerStep, CallerEnabled;
    if CallerMoves(s, s') {
      var i :| CallerEnabled(s, i) && s' == CallerStep(s, i);
      CallerKeepsWorker(s, i);
    }
  }

  lemma {:induction false} StaysOpening(run: nat -> State, i: nat, m: nat)
    requires IsEndless(run) && i <= m && Opening(run(i)) && forall k :: i <= k < m ==> !Moves(run, k)
    ensures Opening(run(m)) && run(m).point == run(i).point && run(m).trace == run(i).trace
    decreases m - i
  {
    hide Next, WorkerMoves, Opening;
    if i < m {
      assert Steps(run, i) && !Moves(run, i);
      OthersKeepOpening(run(i), run(i + 1));
      StaysOpening(run, i + 1, m);
    }
  }

  lemma {:induction false} Opens(run: nat -> State, i: nat) returns (n: nat)
    requires IsEndless(run) && Scheduled(run) && Opening(run(i))
    requires forall k :: Willing(run, k)
    requires forall k :: run(k).fullStop.Off?
    ensures run(n).trace == run(i).trace + [BeforeNewConnection] && Waits(run(n))
    decreases ToOpen(run(i).point)
  {
    hide IsEndless, Scheduled, Opening, Moves, WillingMove, ToOpen, Waits;
    OpeningIsOpen(run(i));
    var m := NextMove(run, i);
    StaysOpening(run, i, m);
    assert Willing(run, m);
    OpeningMove(run(m), run(m + 1));
    n := m + 1;
    if !run(m).point.Before? { n := Opens(run, m + 1); }
  }

  lemma OpeningIsOpen(s: State)
    requires Opening(s)
    ensures !s.point.Finished()
  {
  }

  /** A worker at the end of a session whose connection is to be made again, and that nobody stops, begins another
      session in every endless run in which it is scheduled: after nothing else it calls `on_before_new_connection`,
      with accepting or connecting posted. */
  lemma OpensAnotherSession(run: nat -> State)
    requires IsEndless(run) && Scheduled(run) && Inv(run(0)) && (run(0).point.LoopEnd? || run(0).point.LoopTest?)
    requires forall k :: Willing(run, k)
    requires forall k :: run(k).fullStop.Off?
    ensures exists n :: run(n).trace == run(0).trace + [BeforeNewConnection] && run(n).pendingEstablish.On?
  {
    hide IsEndless, Scheduled, Willing;
    assert Opening(run(0));
    var n := Opens(run, 0);
  }
}
