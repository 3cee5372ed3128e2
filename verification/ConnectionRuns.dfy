/** What holds over whole runs of the protocol, beyond what every state satisfies: a handler that starts too late
    is silent, and a stopped worker leaves its loop.
  */
module ConnectionRuns {
  import opened CallbackTrace
  import opened Common
  import opened ConnectionProtocol

  // ---------------------------------------------------------------------------
  // Late handlers.

  /** In `run()`, with no callback or stopping call under way. */
  predicate AtRun(s: State) { s.point.Run? && s.user.NoUser? && s.call == NoCall }

  predicate IsData(e: Event) { e == NewConnection || e == ReadSocket || e == DataSent }

  /** In a handler that started after `session_stop_flag` was set, or on the way from it back to `run()`. */
  predicate Silent(s: State) { ((s.point.Begin? || s.point.Test?) && s.point.late.On?) || s.point.Run? }

  /** `t` is `s` with nothing but timers added. */
  ghost predicate OnlyTimers(s: seq<Event>, t: seq<Event>) {
    s <= t && forall k :: |s| <= k < |t| ==> t[k] == TimerFired
  }

  lemma OnlyTimersMore(s: seq<Event>, t: seq<Event>, u: seq<Event>)
    requires OnlyTimers(s, t) && (u == t || u == t + [TimerFired])
    ensures OnlyTimers(s, u)
  {
  }

  /** Only the worker's own steps move it while it is in a session, or add to the trace. */
  lemma OthersLeaveWorker(s: State, s': State)
    requires !s.point.Idle? && !s.point.Finished() && (Next(s, s') || Reset(s, s')) && !WorkerMoves(s, s')
    ensures s'.point == s.point && s'.trace == s.trace
  {
    hide WorkerMoves, CallerStep, CallerEnabled;
    if CallerMoves(s, s') {
      var i :| CallerEnabled(s, i) && s' == CallerStep(s, i);
      CallerKeepsTrace(s, i);
    }
  }

  lemma CallerKeepsTrace(s: State, i: int)
    requires CallerEnabled(s, i)
    ensures CallerStep(s, i).point == s.point && CallerStep(s, i).trace == s.trace
  {
  }

  lemma DispatchStep(s: State, c: Choice)
    requires AtRun(s) && s.sessionStop.On? && WorkerEnabled(s, c) && WorkerStep(s, c).point.Begin?
    ensures WorkerStep(s, c).trace == s.trace && Silent(WorkerStep(s, c))
  {
  }

  lemma DispatchedLate(s: State, s': State)
    requires AtRun(s) && s.sessionStop.On? && s'.point.Begin? && (Next(s, s') || Reset(s, s'))
    ensures s'.trace == s.trace && Silent(s')
  {
    hide Next, Reset, WorkerStep, WorkerEnabled;
    if WorkerMoves(s, s') {
      var c :| WorkerEnabled(s, c) && s' == WorkerStep(s, c);
      DispatchStep(s, c);
    } else {
      OthersLeaveWorker(s, s');
    }
  }

  lemma SilentWorkerStep(s: State, c: Choice)
    requires LateInv(s) && Silent(s) && !AtRun(s) && WorkerEnabled(s, c)
    ensures var s' := WorkerStep(s, c); Silent(s') && (s'.trace == s.trace || s'.trace == s.trace + [TimerFired])
  {
  }

  lemma SilentStep(s: State, s': State)
    requires LateInv(s) && Silent(s) && !AtRun(s) && (Next(s, s') || Reset(s, s'))
    ensures Silent(s') && (s'.trace == s.trace || s'.trace == s.trace + [TimerFired])
  {
    hide Next, Reset, WorkerStep, WorkerEnabled, LateInv;
    if WorkerMoves(s, s') {
      var c :| WorkerEnabled(s, c) && s' == WorkerStep(s, c);
      SilentWorkerStep(s, c);
    } else {
      OthersLeaveWorker(s, s');
    }
  }

  lemma InvIsLate(s: State)
    requires Inv(s)
    ensures LateInv(s)
  {
  }

  lemma {:induction false} LateHandler(run: seq<State>, i: nat, j: nat)
    requires IsRun(run) && i < j < |run|
    requires AtRun(run[i]) && run[i].sessionStop.On? && run[i + 1].point.Begin?
    requires forall k :: i < k < j ==> !AtRun(run[k])
    ensures Silent(run[j]) && OnlyTimers(run[i].trace, run[j].trace)
    decreases j
  {
    hide Inv, Next, Reset, Silent, AtRun, Init, LateInv;
    RunKeepsInv(run);
    var before := run[j - 1];
    assert Inv(before) && (Next(before, run[j]) || Reset(before, run[j]));
    if j == i + 1 {
      DispatchedLate(run[i], run[j]);
    } else {
      LateHandler(run, i, j - 1);
      InvIsLate(before);
      SilentStep(before, run[j]);
      OnlyTimersMore(run[i].trace, before.trace, run[j].trace);
    }
  }

  /** Over whole runs: when `run()` dispatches a handler after `session_stop_flag` was set, no
      `on_new_connection`, `on_read_socket` or `on_async_data_sended` is called until the worker is in `run()`
      again with nothing under way.
    */
  lemma LateHandlerDeliversNothing(run: seq<State>, i: nat, j: nat)
    requires IsRun(run) && i < j < |run|
    requires AtRun(run[i]) && run[i].sessionStop.On? && run[i + 1].point.Begin?
    requires forall k :: i < k < j ==> !AtRun(run[k])
    ensures run[i].trace <= run[j].trace
    ensures forall k :: |run[i].trace| <= k < |run[j].trace| ==> !IsData(run[j].trace[k])
  {
    hide IsRun, AtRun;
    LateHandler(run, i, j);
  }

  // ---------------------------------------------------------------------------
  // Leaving the loop.

  /** An endless run without a `reset`. */
  ghost predicate IsEndless(run: nat -> State) {
    forall i :: Steps(run, i)
  }

  ghost predicate Steps(run: nat -> State, i: nat) { Next(run(i), run(i + 1)) }

  ghost predicate Moves(run: nat -> State, i: nat) { WorkerMoves(run(i), run(i + 1)) }

  /** The worker is not left waiting for ever: while it is in its loop it moves again. */
  ghost predicate Scheduled(run: nat -> State) {
    forall i :: !run(i).point.Finished() ==> exists j :: i <= j && Moves(run, j)
  }

  /** A finished stop while the worker is somewhere in its loop. */
  ghost predicate Stopping(s: State) { Inv(s) && s.stopFinished.On? && !s.point.Idle? }

  lemma {:induction false} FirstMove(run: nat -> State, i: nat, j: nat) returns (m: nat)
    requires i <= j && Moves(run, j)
    ensures i <= m <= j && Moves(run, m) && forall k :: i <= k < m ==> !Moves(run, k)
    decreases j - i
  {
    hide Moves;
    if Moves(run, i) { m := i; } else { m := FirstMove(run, i + 1, j); }
  }

  lemma NextMove(run: nat -> State, i: nat) returns (m: nat)
    requires Scheduled(run) && !run(i).point.Finished()
    ensures i <= m && Moves(run, m) && forall k :: i <= k < m ==> !Moves(run, k)
  {
    hide Moves;
    var j :| i <= j && Moves(run, j);
    m := FirstMove(run, i, j);
  }

  /** Steps of others do not move the worker. */
  lemma {:induction false} NobodyMoves(run: nat -> State, i: nat, m: nat)
    requires IsEndless(run) && i <= m && Stopping(run(i)) && forall k :: i <= k < m ==> !Moves(run, k)
    ensures Stopping(run(m))
    ensures run(m).point == run(i).point && run(m).user == run(i).user && run(m).call == run(i).call
    decreases m - i
  {
    hide Inv, Next, WorkerMoves;
    if i < m {
      assert Steps(run, i) && !Moves(run, i);
      NextKeepsInv(run(i), run(i + 1));
      StopIsKept(run(i), run(i + 1));
      assert !Start(run(i), run(i + 1));
      NobodyMoves(run, i + 1, m);
    }
  }

  /** Its own steps bring it closer to the end. */
  lemma WorkerCloser(s: State, s': State)
    requires Stopping(s) && WorkerMoves(s, s')
    ensures Closer(s', s) && Stopping(s')
  {
    hide Inv, WorkerStep, WorkerEnabled, Closer, Distance;
    var c :| WorkerEnabled(s, c) && s' == WorkerStep(s, c);
    StopLeadsOut(s, c);
    WorkerKeepsInv(s, c);
    NotIdleAgain(s', s);
  }

  lemma NotIdleAgain(s': State, s: State)
    requires Closer(s', s) && !s.point.Idle?
    ensures !s'.point.Idle?
  {
  }

  lemma {:induction false} Leaves(run: nat -> State, i: nat) returns (n: nat)
    requires IsEndless(run) && Scheduled(run) && Stopping(run(i))
    ensures i <= n && run(n).point.Finished()
    decreases Distance(run(i).point), UserDistance(run(i).user), CallDistance(run(i).call)
  {
    hide Inv, IsEndless, Scheduled, Stopping, Moves, Next, Distance, UserDistance, CallDistance;
    if run(i).point.Finished() {
      n := i;
    } else {
      var m := NextMove(run, i);
      NobodyMoves(run, i, m);
      MoveIs(run, m);
      WorkerCloser(run(m), run(m + 1));
      n := Leaves(run, m + 1);
    }
  }

  lemma MoveIs(run: nat -> State, m: nat)
    requires Moves(run, m)
    ensures WorkerMoves(run(m), run(m + 1))
  {
  }

  /** Once a `stop_work` has finished, the worker leaves `main_loop` in every endless run in which it is scheduled
      again and again, whatever the other threads, the environment and its own callbacks do.
    */
  lemma LeavesTheLoop(run: nat -> State)
    requires IsEndless(run) && Scheduled(run) && Stopping(run(0))
    ensures exists n :: run(n).point.Finished()
  {
    hide *;
    var n := Leaves(run, 0);
  }
}
