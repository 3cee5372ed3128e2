/** The worker loop of `NetworkConnection` (network/network-connection.cpp) racing with any number of
    concurrent `stop()`, `stop_work()` and `close_current_session()` calls.

    A state holds the shared fields and where every thread stands.  One step is one access to the
    shared fields, so a run of steps is an interleaving of the threads.
  */
module ConnectionProtocol {
  import opened CallbackTrace
  import opened Common

  function When(b: bool): Flag { if b then On else Off }

  /** `session_resources_mutex`. */
  datatype Mutex = Free | HeldByWorker | HeldByCaller(id: int)

  /** `io_service`: a null pointer, or an object whose `run()` blocks only while it is not stopped. */
  datatype Service = NoService | Service(stopped: Flag)

  datatype Socket = NoSocket | Socket(open: Flag)

  /** What `io_service->run()` dispatches; accepting and connecting share one handler body. */
  datatype Handler = Establish | Read | Write | IdleTimer | UserTimer | Signal

  /** Inside `close_current_session`: wait for the mutex, then four steps holding it. */
  datatype Closing = Entering | FlagSession | CloseSocket | StopService | Leaving

  /** A stopping call the worker makes itself: the store that begins `stop_work`, then the closing. */
  datatype Call = NoCall | SetFullStop | InClose(step: Closing, full: Flag)

  /** User code inside a callback, which is going to make this many more stopping calls. */
  datatype User = NoUser | InUser(calls: nat)

  /** Points of `main_loop` and of the handlers that `run()` calls.  In a handler, `late` records
      that `session_stop_flag` was already set when the handler started. */
  datatype Point =
    | Idle | LoopTest | OpenLog | SetupLock | Recheck | BreakUnlock
    | ClearSessionStop | ClearConnectedFlag | NewService | NewSocket | SetupUnlock
    | PostTask | Before | Run | AfterRun | CloseCallback | ClearConnected | EndCallback
    | CleanLock | Cleanup | CleanUnlock | LoopEnd | Sleep | Exited | Thrown
    | Begin(h: Handler, error: Flag, late: Flag)
    | Test(h: Handler, error: Flag, late: Flag)
    | Connect(error: Flag, late: Flag)
    | Deliver(h: Handler, error: Flag, late: Flag)
    | NextRead(h: Handler)
  {
    predicate Finished() { Exited? || Thrown? }

    /** A session has been set up and not cleaned up. */
    predicate Live() {
      PostTask? || Before? || Run? || AfterRun? || CloseCallback? || ClearConnected? || EndCallback?
      || CleanLock? || Cleanup? || Begin? || Test? || Connect? || Deliver? || NextRead?
    }

    /** Past the second test of `full_stop_flag`, building a session under the mutex. */
    predicate SettingUp() {
      ClearSessionStop? || ClearConnectedFlag? || NewService? || NewSocket? || SetupUnlock?
    }

    predicate InEntry() { LoopTest? || OpenLog? || SetupLock? || Recheck? || BreakUnlock? }

    predicate InSetup() { SettingUp() || PostTask? }

    predicate InSession() {
      Before? || Run? || AfterRun? || CloseCallback? || ClearConnected? || EndCallback? || Idle? || Finished()
    }

    predicate InCleanup() { CleanLock? || Cleanup? || CleanUnlock? || LoopEnd? || Sleep? }

    predicate InHandler() { Begin? || Test? || Connect? || Deliver? || NextRead? }

    predicate Holds() { SettingUp() || Recheck? || BreakUnlock? || Cleanup? || CleanUnlock? }
  }

  /** A thread calling `stop()`, `stop_work()` or `close_current_session()` once. */
  datatype CallerPc = MarkDirty | StoreFullStop | Closes(step: Closing, full: Flag) | Returned(full: Flag) {
    predicate Holds() { Closes? && !step.Entering? }
  }

  datatype State = State(
    fullStop: Flag,
    sessionStop: Flag,
    connected: Flag,
    clean: Flag,
    io: Service,
    socket: Socket,
    lock: Mutex,
    pendingEstablish: Flag,
    pendingRead: Flag,
    newAccept: Flag,
    point: Point,          // where the worker is, or where it goes on after what it is calling:
    user: User,            // user code
    call: Call,            // a stopping call
    callers: map<int, CallerPc>,
    trace: seq<Event>,
    stopFinished: Flag)    // some stop_work has finished
  {
    predicate WorkerHolds() { point.Holds() || (call.InClose? && !call.step.Entering?) }
  }

  /** Everything the code leaves to its environment at one step. */
  datatype Choice = Choice(throws: Flag, calls: nat, full: Flag, handler: Handler, error: Flag, flag: Flag)

  // ---------------------------------------------------------------------------
  // close_current_session, shared by all threads.

  function AfterClosing(step: Closing): Closing {
    match step
    case Entering => FlagSession
    case FlagSession => CloseSocket
    case CloseSocket => StopService
    case StopService => Leaving
    case Leaving => Leaving
  }

  function CloseEffect(s: State, who: Mutex, step: Closing, full: Flag): State {
    match step
    case Entering => s.(lock := who)
    case FlagSession => s.(sessionStop := On)
    case CloseSocket => s.(socket := if s.socket.Socket? then Socket(Off) else s.socket)
    case StopService => s.(io := if s.io == Service(Off) then Service(On) else s.io)
    case Leaving => s.(lock := Free, stopFinished := When(s.stopFinished.On? || full.On?))
  }

  // ---------------------------------------------------------------------------
  // The worker.

  predicate WorkerEnabled(s: State, c: Choice) {
    if s.call.InClose? then s.call.step.Entering? ==> s.lock.Free?
    else if s.call.SetFullStop? || s.user.InUser? then true
    else
      match s.point
      case Idle | Exited | Thrown => false
      case SetupLock | CleanLock => s.lock.Free?
      case Run => s.io == Service(On) || (s.io == Service(Off) && DispatchReady(s, c))
      case _ => true
  }

  /** Without `flag` a handler is ready; with it `run()` has run out of work. */
  predicate DispatchReady(s: State, c: Choice) {
    c.flag.On? || ((c.handler.Establish? ==> s.pendingEstablish.On?) && (c.handler.Read? ==> s.pendingRead.On?))
  }

  function WorkerStep(s: State, c: Choice): State
    requires WorkerEnabled(s, c)
  {
    if s.call != NoCall then CallStep(s)
    else if s.user.InUser? then UserStep(s, c)
    else LoopStep(s, c)
  }

  function CallStep(s: State): State
    requires s.call != NoCall
  {
    match s.call
    case SetFullStop => s.(fullStop := On, call := InClose(Entering, On))
    case InClose(step, full) =>
      CloseEffect(s, HeldByWorker, step, full).(call := if step.Leaving? then NoCall else InClose(AfterClosing(step), full))
  }

  function UserStep(s: State, c: Choice): State
    requires s.user.InUser?
  {
    s.(user := if s.user.calls == 0 then NoUser else InUser(s.user.calls - 1),
       call := if s.user.calls == 0 then NoCall else if c.full.On? then SetFullStop else InClose(Entering, Off))
  }

  function Emit(s: State, e: Event, c: Choice, next: Point): State {
    s.(trace := s.trace + [e], user := InUser(c.calls), point := next)
  }

  function LoopStep(s: State, c: Choice): State {
    if s.point.InEntry() then EntryStep(s, c)
    else if s.point.InSetup() then SetupStep(s, c)
    else if s.point.InHandler() then HandlerStep(s, c)
    else if s.point.InCleanup() then CleanupStep(s, c)
    else SessionStep(s, c)
  }

  /** From the loop test to the second test of `full_stop_flag`. */
  function EntryStep(s: State, c: Choice): State {
    match s.point
    case LoopTest => s.(point := if s.fullStop.On? then Exited else OpenLog)
    case OpenLog => s.(point := if c.throws.On? then Thrown else SetupLock)
    case SetupLock => s.(lock := HeldByWorker, point := Recheck)
    case Recheck => s.(point := if s.fullStop.On? then BreakUnlock else ClearSessionStop)
    case BreakUnlock => s.(lock := Free, point := Exited)
    case _ => s
  }

  /** `setup_session_resources` and the posting of the session's first task. */
  function SetupStep(s: State, c: Choice): State {
    match s.point
    case ClearSessionStop => s.(sessionStop := Off, point := ClearConnectedFlag)
    case ClearConnectedFlag => s.(connected := Off, point := NewService)
    case NewService => s.(io := Service(Off), pendingEstablish := Off, pendingRead := Off, point := NewSocket)
    case NewSocket => s.(socket := Socket(On), point := SetupUnlock)
    case SetupUnlock => s.(lock := Free, point := PostTask)
    case PostTask => s.(pendingEstablish := When(c.throws.Off?), point := if c.throws.On? then Thrown else Before)
    case _ => s
  }

  /** From the first callback to the last, handlers apart. */
  function SessionStep(s: State, c: Choice): State {
    match s.point
    case Before => Emit(s, BeforeNewConnection, c, Run)
    case Run =>
      var leaves := s.io == Service(On) || c.flag.On?;
      s.(io := if leaves then Service(On) else s.io,
         pendingEstablish := When(s.pendingEstablish.On? && (leaves || !c.handler.Establish?)),
         pendingRead := When(s.pendingRead.On? && (leaves || !c.handler.Read?)),
         point := if leaves then AfterRun else Begin(c.handler, c.error, s.sessionStop))
    case AfterRun => s.(point := if s.connected.On? then CloseCallback else ClearConnected)
    case CloseCallback => Emit(s, CloseConnection, c, ClearConnected)
    case ClearConnected => s.(connected := Off, point := EndCallback)
    case EndCallback => Emit(s, SessionEnd, c, CleanLock)
    case _ => s
  }

  /** From the end of a session to the next loop test. */
  function CleanupStep(s: State, c: Choice): State {
    match s.point
    case CleanLock => s.(lock := HeldByWorker, point := Cleanup)
    // cleanup_session_resources
    case Cleanup => s.(sessionStop := Off, connected := Off, io := NoService, socket := NoSocket, point := CleanUnlock)
    case CleanUnlock => s.(lock := Free, point := LoopEnd)
    case LoopEnd => s.(point := if c.flag.On? || s.fullStop.On? then Exited else Sleep)
    case Sleep => s.(point := LoopTest)
    case _ => s
  }

  function HandlerStep(s: State, c: Choice): State {
    match s.point
    case Begin(h, error, late) => HandlerStart(s, c, h, error, late)
    case Test(h, error, late) =>
      s.(point := if s.sessionStop.On? then Run else if h.Establish? then Connect(error, late) else Deliver(h, error, late))
    case Connect(error, late) => s.(connected := On, point := Deliver(Establish, error, late))
    case Deliver(h, error, late) =>
      Emit(s, if h.Establish? then NewConnection else if h.Read? then ReadSocket else DataSent, c,
           if h.Write? then Run else NextRead(h))
    case NextRead(h) =>
      var again := h.Read? && s.newAccept.On?;
      s.(socket := if again && s.socket.Socket? then Socket(Off) else s.socket,
         pendingEstablish := When(s.pendingEstablish.On? || again),
         newAccept := When(s.newAccept.On? && !again),
         pendingRead := if again then s.pendingRead else c.flag,
         point := Run)
    case _ => s
  }

  /** The head of each handler.  With `flag` a read or write error is one of those that only
      report and return. */
  function HandlerStart(s: State, c: Choice, h: Handler, error: Flag, late: Flag): State {
    var fires := h.UserTimer? && error.Off?;
    s.(call := if (h.Establish? || h.Read? || h.Write?) && error.On? then InClose(Entering, Off)
               else if h.IdleTimer? && error.Off? then InClose(Entering, Off)
               else if h.Signal? && error.Off? then SetFullStop
               else NoCall,
       user := if fires then InUser(c.calls) else s.user,
       trace := if fires then s.trace + [TimerFired] else s.trace,
       point := if h.Establish? || ((h.Read? || h.Write?) && !(error.On? && c.flag.On?)) then Test(h, error, late) else Run)
  }

  // ---------------------------------------------------------------------------
  // The other threads.

  predicate CallerEnabled(s: State, i: int) {
    && i in s.callers && !s.callers[i].Returned?
    && (s.callers[i].Closes? && s.callers[i].step.Entering? ==> s.lock.Free?)
  }

  function CallerStep(s: State, i: int): State
    requires CallerEnabled(s, i)
  {
    match s.callers[i]
    case MarkDirty => s.(clean := Off, callers := s.callers[i := StoreFullStop])
    case StoreFullStop => s.(fullStop := On, callers := s.callers[i := Closes(Entering, On)])
    case Closes(step, full) =>
      CloseEffect(s, HeldByCaller(i), step, full).(
        callers := s.callers[i := if step.Leaving? then Returned(full) else Closes(AfterClosing(step), full)])
  }

  /** `run()` or `run_async()`: only once after construction or `reset()`. */
  predicate Start(s: State, s': State) {
    s.clean.On? && s.point.Idle? && s' == s.(clean := Off, point := LoopTest)
  }

  /** `reset()` after the worker has been joined and while no stopping call is under way. */
  predicate Reset(s: State, s': State) {
    && (s.point.Idle? || s.point.Finished()) && (forall i :: i in s.callers ==> s.callers[i].Returned?)
    && s' == s.(fullStop := Off, sessionStop := Off, connected := Off, clean := On,
                io := NoService, socket := NoSocket, point := Idle, stopFinished := Off)
  }

  /** A new thread begins a call, or a derived class asks for a new accept. */
  ghost predicate Environment(s: State, s': State) {
    || (exists i: int, pc :: i !in s.callers && NewCall(pc) && s' == s.(callers := s.callers[i := pc]))
    || s' == s.(newAccept := On)
  }

  predicate NewCall(pc: CallerPc) {
    pc == MarkDirty || pc == StoreFullStop || pc == Closes(Entering, Off)
  }

  ghost predicate WorkerMoves(s: State, s': State) {
    exists c :: WorkerEnabled(s, c) && s' == WorkerStep(s, c)
  }

  ghost predicate CallerMoves(s: State, s': State) {
    exists i :: CallerEnabled(s, i) && s' == CallerStep(s, i)
  }

  ghost predicate Next(s: State, s': State) {
    WorkerMoves(s, s') || CallerMoves(s, s') || Start(s, s') || Environment(s, s')
  }

  predicate Init(s: State) {
    s == State(Off, Off, Off, On, NoService, NoSocket, Free, Off, Off, s.newAccept,
               Idle, NoUser, NoCall, map[], [], Off)
  }

  /** A run: any interleaving, with resets in between. */
  ghost predicate IsRun(run: seq<State>) {
    && run != [] && Init(run[0])
    && forall i :: 0 < i < |run| ==> Next(run[i - 1], run[i]) || Reset(run[i - 1], run[i])
  }

  // ---------------------------------------------------------------------------
  // Invariants.

  ghost predicate LockInv(s: State) {
    && (s.call != NoCall || s.user.InUser? ==> s.point.Test? || s.point.Run? || s.point.NextRead? || s.point.ClearConnected? || s.point.CleanLock?)
    && (s.point.Test? ==> s.user.NoUser?)
    && (s.lock.HeldByWorker? <==> s.WorkerHolds())
    && (forall i: int :: s.lock == HeldByCaller(i) <==> i in s.callers && s.callers[i].Holds())
  }

  ghost predicate ResourceInv(s: State) {
    && (s.point.Live() || s.point.NewSocket? || s.point.SetupUnlock? ==> s.io.Service?)
    && (s.point.Live() || s.point.SetupUnlock? ==> s.socket.Socket?)
  }

  /** No session is being built and any session there is has been told to stop. */
  predicate Stopped(s: State) {
    !s.point.SettingUp() && (s.point.Live() ==> s.io == Service(On))
  }

  ghost predicate StopInv(s: State) {
    && (s.stopFinished.On? ==> s.fullStop.On? && Stopped(s))
    && (s.call.InClose? && s.call.full.On? ==> s.fullStop.On?)
    && (s.call.InClose? && s.call.step.Leaving? ==> Stopped(s))
    && (forall i :: i in s.callers ==> CallerStopInv(s, s.callers[i]))
  }

  predicate CallerStopInv(s: State, pc: CallerPc) {
    && (pc.Closes? && pc.full.On? ==> s.fullStop.On?)
    && (pc.Closes? && pc.step.Leaving? ==> Stopped(s))
  }

  ghost predicate LateInv(s: State) {
    && (s.point.Begin? || s.point.Test? ==> s.point.late.On? ==> s.sessionStop.On?)
    && (s.point.Connect? || s.point.Deliver? ==> s.point.late.Off? && s.point.error.Off?)
    && (s.point.Test? && s.point.error.On? && s.call == NoCall ==> s.sessionStop.On?)
    && (s.call.InClose? && !s.call.step.Entering? && !s.call.step.FlagSession? ==> s.sessionStop.On?)
  }

  ghost predicate PhaseInv(s: State) {
    var p := PhaseOf(s.trace);
    match s.point
    case NewService | NewSocket | SetupUnlock | PostTask | Before =>
      p == Outside && s.connected.Off? && (!s.point.NewService? ==> s.pendingRead.Off?)
    case Run | AfterRun | Connect(_, _) => p == InSession(s.connected.On?) && (s.pendingRead.On? ==> s.connected.On?)
    case Begin(h, _, _) => p == InSession(s.connected.On?) && (s.pendingRead.On? || h.Read? ==> s.connected.On?)
    case Test(h, _, _) =>
      p == InSession(s.connected.On?) && (s.pendingRead.On? || h.Read? ==> s.connected.On?) && (h.Establish? || h.Read? || h.Write?)
    case Deliver(h, _, _) =>
      && p.InSession? && (h.Establish? || h.Read? || h.Write?) && (s.pendingRead.On? || !h.Write? ==> s.connected.On?)
      && (!h.Establish? ==> p == InSession(s.connected.On?))
    case NextRead(_) => p == InSession(true) && s.connected.On?
    case CloseCallback => p == InSession(true) && s.connected.On?
    case ClearConnected => p == if s.connected.On? then Closed else InSession(false)
    case EndCallback => p == Closed || p == InSession(false)
    case _ => p == Outside
  }

  ghost predicate Inv(s: State) {
    LockInv(s) && ResourceInv(s) && StopInv(s) && LateInv(s) && PhaseInv(s)
  }

  lemma EntryKeepsInv(s: State, c: Choice)
    requires Inv(s) && WorkerEnabled(s, c) && s.call == NoCall && s.user.NoUser? && s.point.InEntry()
    ensures Inv(EntryStep(s, c))
  {
    TraceGrows(s.trace);
    hide PhaseOf;
  }

  lemma SetupKeepsInv(s: State, c: Choice)
    requires Inv(s) && WorkerEnabled(s, c) && s.call == NoCall && s.user.NoUser? && s.point.InSetup()
    ensures Inv(SetupStep(s, c))
  {
    TraceGrows(s.trace);
    hide PhaseOf;
  }

  lemma SessionKeepsInv(s: State, c: Choice)
    requires Inv(s) && WorkerEnabled(s, c) && s.call == NoCall && s.user.NoUser? && s.point.InSession()
    ensures Inv(SessionStep(s, c))
  {
    TraceGrows(s.trace);
    hide PhaseOf;
  }

  lemma CleanupKeepsInv(s: State, c: Choice)
    requires Inv(s) && WorkerEnabled(s, c) && s.call == NoCall && s.user.NoUser? && s.point.InCleanup()
    ensures Inv(CleanupStep(s, c))
  {
    TraceGrows(s.trace);
    hide PhaseOf;
  }

  lemma BeginKeepsInv(s: State, c: Choice)
    requires Inv(s) && WorkerEnabled(s, c) && s.call == NoCall && s.user.NoUser? && s.point.Begin?
    ensures Inv(HandlerStep(s, c))
  {
    TraceGrows(s.trace);
    hide PhaseOf;
  }

  lemma HandlerKeepsInv(s: State, c: Choice)
    requires Inv(s) && WorkerEnabled(s, c) && s.call == NoCall && s.user.NoUser? && s.point.InHandler() && !s.point.Begin?
    ensures Inv(HandlerStep(s, c))
  {
    TraceGrows(s.trace);
    hide PhaseOf;
  }

  lemma UserKeepsInv(s: State, c: Choice)
    requires Inv(s) && s.call == NoCall && s.user.InUser?
    ensures Inv(UserStep(s, c))
  {
    hide PhaseOf;
  }

  lemma CallKeepsLock(s: State)
    requires LockInv(s) && s.call != NoCall && (s.call.InClose? && s.call.step.Entering? ==> s.lock.Free?)
    ensures LockInv(CallStep(s))
  {
  }

  lemma CallKeepsStop(s: State)
    requires LockInv(s) && ResourceInv(s) && StopInv(s)
    requires s.call != NoCall && (s.call.InClose? && s.call.step.Entering? ==> s.lock.Free?)
    ensures StopInv(CallStep(s))
  {
  }

  lemma CallKeepsRest(s: State)
    requires ResourceInv(s) && LateInv(s) && PhaseInv(s) && s.call != NoCall
    ensures var s' := CallStep(s); ResourceInv(s') && LateInv(s') && PhaseInv(s')
  {
    hide PhaseOf;
  }

  lemma CallerKeepsLock(s: State, i: int)
    requires LockInv(s) && CallerEnabled(s, i)
    ensures LockInv(CallerStep(s, i))
  {
  }

  lemma CallerKeepsStop(s: State, i: int)
    requires LockInv(s) && ResourceInv(s) && StopInv(s) && CallerEnabled(s, i)
    ensures StopInv(CallerStep(s, i))
  {
  }

  lemma CallerKeepsResources(s: State, i: int)
    requires ResourceInv(s) && CallerEnabled(s, i)
    ensures ResourceInv(CallerStep(s, i))
  {
  }

  lemma CallerKeepsLate(s: State, i: int)
    requires ResourceInv(s) && LateInv(s) && CallerEnabled(s, i)
    ensures LateInv(CallerStep(s, i))
  {
  }

  lemma CallerKeepsPhase(s: State, i: int)
    requires PhaseInv(s) && CallerEnabled(s, i)
    ensures PhaseInv(CallerStep(s, i))
  {
    hide PhaseOf;
  }

  lemma WorkerKeepsInv(s: State, c: Choice)
    requires Inv(s) && WorkerEnabled(s, c)
    ensures Inv(WorkerStep(s, c))
  {
    if s.call != NoCall { CallKeepsLock(s); CallKeepsStop(s); CallKeepsRest(s); }
    else if s.user.InUser? { UserKeepsInv(s, c); }
    else if s.point.InEntry() { EntryKeepsInv(s, c); }
    else if s.point.InSetup() { SetupKeepsInv(s, c); }
    else if s.point.Begin? { BeginKeepsInv(s, c); }
    else if s.point.InHandler() { HandlerKeepsInv(s, c); }
    else if s.point.InCleanup() { CleanupKeepsInv(s, c); }
    else { SessionKeepsInv(s, c); }
  }

  lemma StartKeepsInv(s: State, s': State)
    requires Inv(s) && (Start(s, s') || Reset(s, s'))
    ensures Inv(s')
  {
  }

  lemma NewCallKeepsInv(s: State, i: int, pc: CallerPc)
    requires Inv(s) && i !in s.callers && NewCall(pc)
    ensures Inv(s.(callers := s.callers[i := pc]))
  {
    hide PhaseOf;
  }

  lemma EnvironmentKeepsInv(s: State, s': State)
    requires Inv(s) && Environment(s, s')
    ensures Inv(s')
  {
    if s' != s.(newAccept := On) {
      var i, pc :| i !in s.callers && NewCall(pc) && s' == s.(callers := s.callers[i := pc]);
      NewCallKeepsInv(s, i, pc);
    }
  }

  lemma InitInv(s: State)
    requires Init(s)
    ensures Inv(s)
  {
  }

  lemma NextKeepsInv(s: State, s': State)
    requires Inv(s) && (Next(s, s') || Reset(s, s'))
    ensures Inv(s')
  {
    hide Inv, WorkerStep, CallerStep, WorkerEnabled, CallerEnabled, Start, Reset, Environment;
    if WorkerMoves(s, s') {
      var c :| WorkerEnabled(s, c) && s' == WorkerStep(s, c);
      WorkerKeepsInv(s, c);
    } else if CallerMoves(s, s') {
      var i :| CallerEnabled(s, i) && s' == CallerStep(s, i);
      CallerKeepsInv(s, i);
    } else if Environment(s, s') {
      EnvironmentKeepsInv(s, s');
    } else {
      StartKeepsInv(s, s');
    }
  }

  lemma CallerKeepsInv(s: State, i: int)
    requires Inv(s) && CallerEnabled(s, i)
    ensures Inv(CallerStep(s, i))
  {
    CallerKeepsLock(s, i);
    CallerKeepsStop(s, i);
    CallerKeepsResources(s, i);
    CallerKeepsLate(s, i);
    CallerKeepsPhase(s, i);
  }

  /** Every state of every interleaving satisfies the invariant. */
  lemma {:induction false} RunKeepsInv(run: seq<State>)
    requires IsRun(run)
    ensures forall i :: 0 <= i < |run| ==> Inv(run[i])
  {
    hide Inv, Next, Reset, Init;
    if |run| == 1 {
      InitInv(run[0]);
    } else {
      var last := |run| - 1;
      RunKeepsInv(run[..last]);
      assert Inv(run[..last][last - 1]);
      NextKeepsInv(run[last - 1], run[last]);
      forall i | 0 <= i < |run| ensures Inv(run[i]) {
        if i < last { assert run[i] == run[..last][i]; }
      }
    }
  }

  // ---------------------------------------------------------------------------
  // No lost stop.

  /** How far the worker is from leaving `main_loop` once `stop_work` has finished. */
  function Distance(p: Point): nat {
    match p
    case Idle => 30
    case PostTask => 22
    case Before => 21
    case Begin(_, _, _) => 20
    case Test(_, _, _) => 19
    case Connect(_, _) => 18
    case Deliver(_, _, _) => 17
    case NextRead(_) => 16
    case Run => 15
    case AfterRun => 14
    case CloseCallback => 13
    case ClearConnected => 12
    case EndCallback => 11
    case CleanLock => 10
    case Cleanup => 9
    case CleanUnlock => 8
    case LoopEnd => 7
    case Sleep => 6
    case LoopTest => 5
    case OpenLog => 4
    case SetupLock => 3
    case Recheck => 2
    case BreakUnlock => 1
    case _ => 0
  }

  function CallDistance(call: Call): nat {
    match call
    case NoCall => 0
    case SetFullStop => 6
    case InClose(Entering, _) => 5
    case InClose(FlagSession, _) => 4
    case InClose(CloseSocket, _) => 3
    case InClose(StopService, _) => 2
    case InClose(Leaving, _) => 1
  }

  function UserDistance(user: User): nat { if user.NoUser? then 0 else user.calls + 1 }

  /** Lexicographic order on how far the worker has to go. */
  predicate Closer(s': State, s: State) {
    || Distance(s'.point) < Distance(s.point)
    || (Distance(s'.point) == Distance(s.point) && UserDistance(s'.user) < UserDistance(s.user))
    || (s'.point == s.point && s'.user == s.user && CallDistance(s'.call) < CallDistance(s.call))
  }

  lemma CallLeadsOut(s: State)
    requires s.call != NoCall
    ensures Closer(CallStep(s), s) && (s.stopFinished.On? ==> CallStep(s).stopFinished.On?)
  {
  }

  lemma UserLeadsOut(s: State, c: Choice)
    requires s.call == NoCall && s.user.InUser?
    ensures Closer(UserStep(s, c), s) && UserStep(s, c).stopFinished == s.stopFinished
  {
  }

  lemma LoopLeadsOut(s: State, c: Choice)
    requires s.fullStop.On? && Stopped(s) && !s.point.Idle? && !s.point.Finished()
    ensures Distance(LoopStep(s, c).point) < Distance(s.point) && LoopStep(s, c).stopFinished == s.stopFinished
  {
    if s.point.InHandler() { HandlerLeadsOut(s, c); }
    else if s.point.InSession() { SessionLeadsOut(s, c); }
  }

  lemma HandlerLeadsOut(s: State, c: Choice)
    requires s.point.InHandler()
    ensures Distance(HandlerStep(s, c).point) < Distance(s.point) && HandlerStep(s, c).stopFinished == s.stopFinished
  {
  }

  lemma SessionLeadsOut(s: State, c: Choice)
    requires s.point.InSession() && Stopped(s) && !s.point.Idle? && !s.point.Finished()
    ensures Distance(SessionStep(s, c).point) < Distance(s.point) && SessionStep(s, c).stopFinished == s.stopFinished
  {
  }

  /** Once some `stop_work` has finished, every step of the worker brings it closer to the end of
      `main_loop`. */
  lemma StopLeadsOut(s: State, c: Choice)
    requires Inv(s) && s.stopFinished.On? && WorkerEnabled(s, c)
    ensures Closer(WorkerStep(s, c), s)
    ensures WorkerStep(s, c).stopFinished.On?
  {
    hide PhaseInv, LateInv, CallStep, UserStep, LoopStep, Distance, Closer;
    if s.call != NoCall { CallLeadsOut(s); }
    else if s.user.InUser? { UserLeadsOut(s, c); }
    else {
      LoopLeadsOut(s, c);
      assert Closer(WorkerStep(s, c), s) by { LoopCloser(WorkerStep(s, c), s); }
    }
  }

  lemma LoopCloser(s': State, s: State)
    requires Distance(s'.point) < Distance(s.point)
    ensures Closer(s', s)
  {
  }

  /** It cannot block in `run()`, and it can wait for the mutex only while another thread holds it and is
      itself able to go on. */
  lemma StopNeverBlocks(s: State, c: Choice)
    requires Inv(s) && s.stopFinished.On? && !s.point.Idle? && !s.point.Finished()
    ensures !s.point.SettingUp()
    ensures s.point.Run? && s.call == NoCall && s.user.NoUser? ==>
      WorkerEnabled(s, c) && WorkerStep(s, c) == s.(point := AfterRun)
    ensures WorkerEnabled(s, c) || (s.lock.HeldByCaller? && CallerEnabled(s, s.lock.id))
  {
    hide PhaseOf;
  }

  /** A thread inside its critical section leaves it within four of its own steps. */
  lemma CallersLeave(s: State, i: int)
    requires Inv(s) && CallerEnabled(s, i) && s.callers[i].Closes?
    ensures var pc := CallerStep(s, i).callers[i];
      pc.Returned? || (pc.Closes? && CallDistance(InClose(pc.step, pc.full)) < CallDistance(InClose(s.callers[i].step, s.callers[i].full)))
  {
  }

  /** Nothing but the worker moves the worker, and nothing but a `reset` forgets a finished stop. */
  lemma StopIsKept(s: State, s': State)
    requires Inv(s) && s.stopFinished.On? && Next(s, s') && !WorkerMoves(s, s')
    ensures s'.stopFinished.On? && s'.fullStop.On?
    ensures (s'.point == s.point || Start(s, s')) && s'.user == s.user && s'.call == s.call
  {
    hide LockInv, ResourceInv, LateInv, PhaseInv, CallerStep, CallerEnabled, WorkerMoves;
    if CallerMoves(s, s') {
      var i :| CallerEnabled(s, i) && s' == CallerStep(s, i);
      CallerKeepsFinished(s, i);
    }
  }

  lemma CallerKeepsFinished(s: State, i: int)
    requires CallerEnabled(s, i)
    ensures var s' := CallerStep(s, i);
      && (s.stopFinished.On? ==> s'.stopFinished.On?) && (s.fullStop.On? ==> s'.fullStop.On?)
      && s'.point == s.point && s'.user == s.user && s'.call == s.call
  {
  }

  /** Over whole runs: from the end of a `stop_work` until a `reset`, no state of any interleaving sets a
      session up or leaves one running. */
  lemma {:induction false} NoLostStop(run: seq<State>, k: nat, j: nat)
    requires IsRun(run) && k <= j < |run| && run[k].stopFinished.On?
    requires forall i :: k < i <= j ==> Next(run[i - 1], run[i])
    ensures run[j].stopFinished.On? && Stopped(run[j])
  {
    hide IsRun, LockInv, ResourceInv, LateInv, PhaseInv, WorkerStep, WorkerEnabled, CallerMoves, Start, Environment;
    RunKeepsInv(run);
    if k < j {
      NoLostStop(run, k, j - 1);
      assert Next(run[j - 1], run[j]);
      if WorkerMoves(run[j - 1], run[j]) {
        var c :| WorkerEnabled(run[j - 1], c) && run[j] == WorkerStep(run[j - 1], c);
        StopLeadsOut(run[j - 1], c);
      } else {
        StopIsKept(run[j - 1], run[j]);
      }
    }
    assert Inv(run[j]);
  }

  // ---------------------------------------------------------------------------
  // Callback discipline.

  /** In every state of every interleaving the callbacks so far are whole sessions, followed by at most
      one unfinished session; when `main_loop` has been left there is no unfinished one. */
  lemma CallbackDiscipline(run: seq<State>, i: nat)
    requires IsRun(run) && i < |run|
    ensures PhaseOf(run[i].trace) != Broken
    ensures run[i].point.Finished() || run[i].point.Idle? ==> PhaseOf(run[i].trace) == Outside
  {
    RunKeepsInv(run);
    assert Inv(run[i]);
    hide PhaseOf;
  }

  /** A handler that started after `session_stop_flag` was set, or that reports an error, delivers
      nothing: only handlers that are neither call `on_new_connection`, `on_read_socket` or
      `on_async_data_sended`. */
  lemma NoLateDelivery(s: State, c: Choice, e: Event)
    requires Inv(s) && WorkerEnabled(s, c) && WorkerStep(s, c).trace == s.trace + [e]
    requires e == NewConnection || e == ReadSocket || e == DataSent
    ensures s.point.Deliver? && s.point.late.Off? && s.point.error.Off?
  {
    hide PhaseOf, PhaseInv, StopInv, ResourceInv;
    assert s.trace + [e] != s.trace;
    StoppingCallsAreSilent(s, c);
    DeliveryPoint(s, c, e);
  }

  lemma StoppingCallsAreSilent(s: State, c: Choice)
    requires WorkerEnabled(s, c)
    ensures s.call != NoCall || s.user.InUser? ==> WorkerStep(s, c).trace == s.trace
  {
  }

  lemma DeliveryPoint(s: State, c: Choice, e: Event)
    requires LoopStep(s, c).trace == s.trace + [e] && s.trace + [e] != s.trace
    requires e == NewConnection || e == ReadSocket || e == DataSent
    ensures s.point.Deliver?
  {
    hide EntryStep, SetupStep, SessionStep, CleanupStep, HandlerStep;
    forall x ensures s.trace + [x] == s.trace + [e] ==> x == e {
      assert (s.trace + [x])[|s.trace|] == x && (s.trace + [e])[|s.trace|] == e;
    }
    QuietSteps(s, c);
    SessionEvents(s, c);
    if s.point.InHandler() && !s.point.Deliver? { HandlerEvents(s, c); }
  }

  lemma QuietSteps(s: State, c: Choice)
    ensures EntryStep(s, c).trace == SetupStep(s, c).trace == CleanupStep(s, c).trace == s.trace
  {
  }

  lemma SessionEvents(s: State, c: Choice)
    ensures var t := SessionStep(s, c).trace;
      t == s.trace || t == s.trace + [BeforeNewConnection] || t == s.trace + [CloseConnection] || t == s.trace + [SessionEnd]
  {
  }

  lemma HandlerEvents(s: State, c: Choice)
    requires s.point.InHandler() && !s.point.Deliver?
    ensures var t := HandlerStep(s, c).trace; t == s.trace || t == s.trace + [TimerFired]
  {
  }
}
