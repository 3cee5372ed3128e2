/** The outgoing side of `TcpSession`, network/tcp-server.cpp: a buffer sent in packages of at most
    `SEND_PACKAGE_SIZE` octets by a chain of asynchronous writes, each started by the handler of the one
    before.

    Boost.Asio is an environment that moves octets of the writes in flight to the wire and calls the write
    handler for each, with or without an error. A write reads the storage that the buffer had when it was
    started; when the buffer outgrows its capacity its storage is freed, and what a write then still puts on
    the wire is up to the environment. `wire`, `reports` and `chains` are histories that only theorems read.
  */
module ChunkedSend {
  import opened Common

  const SEND_PACKAGE_SIZE := 512

  /** A started `async_write`: `octets` octets from place `from` of storage `block`, `moved` of them already on
      the wire.
    */
  datatype Write = Write(from: nat, octets: nat, moved: nat, block: nat)

  /** One call of `on_after_send`: what had been queued by then, and what was on the wire. */
  datatype Report = Report(queued: string, sent: string)

  datatype Session = Session(buffer: string, cursor: nat, sending: Flag, closed: Flag, block: nat, capacity: nat,
                             flights: seq<Write>, wire: string, reports: seq<Report>, chains: nat)

  const START := Session("", 0, Off, Off, 0, 0, [], "", [], 0)

  function Package(left: nat): nat { if left < SEND_PACKAGE_SIZE then left else SEND_PACKAGE_SIZE }

  function Without(flights: seq<Write>, i: nat): (r: seq<Write>)
    requires i < |flights|
    ensures |r| == |flights| - 1
  {
    flights[..i] + flights[i + 1..]
  }

  // ---------------------------------------------------------------------------
  // The steps of a session and of its environment.

  datatype Answer = Started | Refused | NoSocket

  predicate Fits(s: Session, data: string) { |s.buffer| + |data| <= s.capacity }

  /** Appends to the buffer; one that does not fit moves to new storage with `room` octets to spare. */
  function Queue(s: Session, data: string, room: nat): Session {
    var t := s.(buffer := s.buffer + data);
    if Fits(s, data) then t else t.(block := s.block + 1, capacity := |s.buffer| + |data| + room)
  }

  /** `async_send_data()`: what it answers, `NoSocket` being its assertion failure. */
  function SendAnswer(s: Session): Answer {
    if s.sending.On? then Refused else if s.closed.On? then NoSocket else Started
  }

  /** Every `async_write` adds to the writes in flight. */
  function Send(s: Session): Session {
    if SendAnswer(s).Started?
    then s.(sending := On, cursor := 0, flights := s.flights + [Write(0, Package(|s.buffer|), 0, s.block)],
            chains := s.chains + 1)
    else s
  }

  predicate CanTransmit(s: Session, i: nat, octets: string) {
    s.closed.Off? && i < |s.flights| && s.flights[i].moved + |octets| <= s.flights[i].octets
    && s.flights[i].from + s.flights[i].octets <= |s.buffer|
  }

  /** The environment puts the next octets of write `i` on the wire: those of the buffer or, from freed storage,
      any octets at all.
    */
  function Transmit(s: Session, i: nat, octets: string): Session {
    if !CanTransmit(s, i, octets) then s
    else
      var w := s.flights[i];
      var start := w.from + w.moved;
      var read := if w.block == s.block then s.buffer[start..start + |octets|] else octets;
      s.(wire := s.wire + read, flights := s.flights[i := w.(moved := w.moved + |octets|)])
  }

  function Close(s: Session): Session { s.(closed := On) }

  /** `asio_write_handler`, called for write `i`, which is in flight no longer. */
  function WriteHandler(s: Session, i: nat, error: Flag): Session {
    if i >= |s.flights| then s
    else
      var w, t := s.flights[i], s.(flights := Without(s.flights, i));
      if s.closed.On? then t
      else if error.On? || w.moved != w.octets then Close(t)
      else
        var cursor := s.cursor + w.moved;
        if cursor < |s.buffer|
        then t.(cursor := cursor, flights := t.flights + [Write(cursor, Package(|s.buffer| - cursor), 0, s.block)])
        else t.(cursor := cursor, reports := s.reports + [Report(s.buffer, s.wire)])
  }

  datatype Step =
    | QueueStep(data: string, room: nat)
    | SendStep
    | TransmitStep(i: nat, octets: string)
    | WrittenStep(i: nat, error: Flag)
    | CloseStep

  function After(s: Session, step: Step): Session {
    match step
    case QueueStep(data, room) => Queue(s, data, room)
    case SendStep => Send(s)
    case TransmitStep(i, octets) => Transmit(s, i, octets)
    case WrittenStep(i, error) => WriteHandler(s, i, error)
    case CloseStep => Close(s)
  }

  function Run(s: Session, steps: seq<Step>): Session {
    if steps == [] then s else After(Run(s, steps[..|steps| - 1]), steps[|steps| - 1])
  }

  function Queued(steps: seq<Step>): string {
    if steps == [] then ""
    else
      var last := steps[|steps| - 1];
      Queued(steps[..|steps| - 1]) + if last.QueueStep? then last.data else ""
  }

  // ---------------------------------------------------------------------------
  // What every step keeps.

  predicate InPlace(s: Session, w: Write) {
    && s.sending.On? && w.octets <= SEND_PACKAGE_SIZE && w.moved <= w.octets && w.block <= s.block
    && w.from == s.cursor && |s.wire| == w.from + w.moved && w.from + w.octets <= |s.buffer|
  }

  ghost predicate Inv(s: Session) {
    && |s.wire| <= |s.buffer| <= s.capacity
    && |s.flights| <= 1
    && (s.flights != [] ==> InPlace(s, s.flights[0]))
    && (s.sending.Off? ==> s.flights == [] && s.wire == "" && s.reports == [])
    && (s.sending.On? && s.flights == [] && s.closed.Off? ==> s.reports != [])
    && s.chains == (if s.sending.On? then 1 else 0)
    && forall i :: 0 <= i < |s.reports| ==> |s.reports[i].sent| == |s.reports[i].queued|
  }

  lemma WriteHandlerKeepsInv(s: Session, i: nat, error: Flag)
    requires Inv(s)
    ensures Inv(WriteHandler(s, i, error))
  {
  }

  lemma TransmitKeepsInv(s: Session, i: nat, octets: string)
    requires Inv(s)
    ensures Inv(Transmit(s, i, octets))
  {
  }

  lemma StepKeepsInv(s: Session, step: Step)
    requires Inv(s)
    ensures Inv(After(s, step))
  {
    hide WriteHandler, Transmit;
    match step
    case WrittenStep(i, error) => WriteHandlerKeepsInv(s, i, error);
    case TransmitStep(i, octets) => TransmitKeepsInv(s, i, octets);
    case _ =>
  }

  lemma StartInv()
    ensures Inv(START) && Current(START)
  {
  }

  lemma {:induction false} RunKeepsInv(steps: seq<Step>)
    ensures Inv(Run(START, steps))
  {
    hide After, Inv;
    if steps == [] {
      StartInv();
    } else {
      RunKeepsInv(steps[..|steps| - 1]);
      StepKeepsInv(Run(START, steps[..|steps| - 1]), steps[|steps| - 1]);
    }
  }

  lemma StepQueues(s: Session, step: Step)
    ensures After(s, step).buffer == s.buffer + if step.QueueStep? then step.data else ""
  {
  }

  lemma {:induction false} RunQueues(steps: seq<Step>)
    ensures Run(START, steps).buffer == Queued(steps)
  {
    hide After;
    if steps != [] {
      RunQueues(steps[..|steps| - 1]);
      StepQueues(Run(START, steps[..|steps| - 1]), steps[|steps| - 1]);
    }
  }

  /** Over every run: at most one write is in flight, of at most 512 octets; a session has at most one chain of
      writes; and `on_after_send` was only ever called with as many octets on the wire as were queued.
    */
  lemma EveryRun(steps: seq<Step>)
    ensures var s := Run(START, steps);
            && |s.flights| <= 1
            && (forall i :: 0 <= i < |s.flights| ==> s.flights[i].octets <= 512)
            && s.chains <= 1
            && |s.wire| <= |Queued(steps)|
            && (forall i :: 0 <= i < |s.reports| ==> |s.reports[i].sent| == |s.reports[i].queued|)
  {
    hide Run, Queued;
    RunKeepsInv(steps);
    RunQueues(steps);
  }

  // ---------------------------------------------------------------------------
  // What is on the wire.

  /** A write is still going to read the storage that it was given. */
  predicate Reading(s: Session) {
    s.closed.Off? && exists i :: 0 <= i < |s.flights| && s.flights[i].moved < s.flights[i].octets
  }

  /** The wire is right, and the write in flight reads the storage that the buffer has now. */
  ghost predicate Current(s: Session) {
    && s.wire <= s.buffer
    && (s.closed.Off? ==>
        forall i :: 0 <= i < |s.flights| && s.flights[i].moved < s.flights[i].octets ==> s.flights[i].block == s.block)
    && forall i :: 0 <= i < |s.reports| ==> s.reports[i].sent == s.reports[i].queued
  }

  /** The condition for a caller: while a write is reading, only what fits is queued. */
  predicate Respects(s: Session, step: Step) {
    step.QueueStep? && Reading(s) ==> Fits(s, step.data)
  }

  ghost predicate AllRespect(steps: seq<Step>) {
    forall k :: 0 <= k < |steps| ==> Respects(Run(START, steps[..k]), steps[k])
  }

  lemma QueueKeepsCurrent(s: Session, data: string, room: nat)
    requires Inv(s) && Current(s) && (Reading(s) ==> Fits(s, data))
    ensures Current(Queue(s, data, room))
  {
    if s.closed.Off? && s.flights != [] && s.flights[0].moved < s.flights[0].octets { assert Reading(s); }
  }

  lemma TransmitKeepsCurrent(s: Session, i: nat, octets: string)
    requires Inv(s) && Current(s)
    ensures Current(Transmit(s, i, octets))
  {
  }

  lemma WriteHandlerKeepsCurrent(s: Session, i: nat, error: Flag)
    requires Inv(s) && Current(s)
    ensures Current(WriteHandler(s, i, error))
  {
  }

  lemma StepKeepsCurrent(s: Session, step: Step)
    requires Inv(s) && Current(s) && Respects(s, step)
    ensures Current(After(s, step))
  {
    hide WriteHandler, Transmit, Queue, Reading, Fits;
    match step
    case QueueStep(data, room) => QueueKeepsCurrent(s, data, room);
    case WrittenStep(i, error) => WriteHandlerKeepsCurrent(s, i, error);
    case TransmitStep(i, octets) => TransmitKeepsCurrent(s, i, octets);
    case _ =>
  }

  lemma {:induction false} RunKeepsCurrent(steps: seq<Step>)
    requires AllRespect(steps)
    ensures Current(Run(START, steps))
  {
    hide After, Inv, Current, Respects;
    if steps == [] {
      StartInv();
    } else {
      var before, last := steps[..|steps| - 1], |steps| - 1;
      forall k | 0 <= k < |before| ensures Respects(Run(START, before[..k]), before[k]) {
        assert before[..k] == steps[..k];
      }
      RunKeepsCurrent(before);
      RunKeepsInv(before);
      assert Respects(Run(START, steps[..last]), steps[last]);
      StepKeepsCurrent(Run(START, before), steps[last]);
    }
  }

  /** Over every run in which only what fits is queued while a write is reading: the wire carries a prefix of
      all octets queued, and `on_after_send` was only ever called with everything queued on the wire.
    */
  lemma PrefixOnTheWire(steps: seq<Step>)
    requires AllRespect(steps)
    ensures var s := Run(START, steps);
            && s.wire <= Queued(steps)
            && (forall i :: 0 <= i < |s.reports| ==> s.reports[i].sent == s.reports[i].queued)
  {
    hide Run, Queued, AllRespect;
    RunKeepsCurrent(steps);
    RunQueues(steps);
  }

  /** The condition is exact: queueing while a write is reading leaves the wire right, whatever the environment
      does next, exactly if the data fits.
    */
  lemma FittingIsExact(s: Session, data: string, room: nat)
    requires Inv(s) && Current(s) && Reading(s)
    ensures (forall octets :: Transmit(Queue(s, data, room), 0, octets).wire <= s.buffer + data) <==>
      |s.buffer| + |data| <= s.capacity
  {
    var t := Queue(s, data, room);
    StepKeepsInv(s, QueueStep(data, room));
    if Fits(s, data) {
      QueueKeepsCurrent(s, data, room);
      forall octets ensures Transmit(t, 0, octets).wire <= s.buffer + data { TransmitKeepsCurrent(t, 0, octets); }
    } else {
      var place := |s.wire|;
      var wrong: char := if t.buffer[place] == 'x' then 'y' else 'x';
      assert CanTransmit(t, 0, [wrong]);
      assert Transmit(t, 0, [wrong]).wire == s.wire + [wrong];
      assert (s.wire + [wrong])[place] == wrong != t.buffer[place];
    }
  }

  lemma OneMore(steps: seq<Step>, step: Step)
    ensures Run(START, steps + [step]) == After(Run(START, steps), step)
    ensures Queued(steps + [step]) == Queued(steps) + if step.QueueStep? then step.data else ""
  {
    hide After;
    assert (steps + [step])[..|steps|] == steps;
  }

  /** One octet queued and its write started. */
  lemma OneOctetSent()
    ensures var steps := [QueueStep("a", 0), SendStep];
            && Queued(steps) == "a"
            && Run(START, steps) == Session("a", 0, On, Off, 1, 1, [Write(0, 1, 0, 1)], "", [], 1)
  {
    var one := [QueueStep("a", 0)];
    OneMore([], QueueStep("a", 0));
    assert [] + one == one;
    OneMore(one, SendStep);
    assert one + [SendStep] == [QueueStep("a", 0), SendStep];
  }

  /** A run that goes wrong: one octet is being written when a second one moves the buffer. */
  lemma OutgrownRun()
    ensures var steps := [QueueStep("a", 0), SendStep, QueueStep("b", 0), TransmitStep(0, "x")];
            !AllRespect(steps) && Queued(steps) == "ab" && Run(START, steps).wire == "x"
  {
    hide Run, Queued;
    var two := [QueueStep("a", 0), SendStep];
    var three, four := two + [QueueStep("b", 0)], two + [QueueStep("b", 0)] + [TransmitStep(0, "x")];
    OneOctetSent();
    OneMore(two, QueueStep("b", 0));
    OneMore(three, TransmitStep(0, "x"));
    assert four == [QueueStep("a", 0), SendStep, QueueStep("b", 0), TransmitStep(0, "x")];
    assert "a" + "b" == "ab";
    var s := Run(START, three);
    assert s == Session("ab", 0, On, Off, 2, 2, [Write(0, 1, 0, 1)], "", [], 1);
    assert Run(START, four[..2]).flights[0] == Write(0, 1, 0, 1) by { assert four[..2] == two; }
    assert Reading(Run(START, four[..2])) && !Fits(Run(START, four[..2]), "b") && four[2] == QueueStep("b", 0);
    assert !Respects(Run(START, four[..2]), four[2]);
  }

  // ---------------------------------------------------------------------------
  // Progress, and its end.

  /** One write that goes through: the rest of the octets in flight, then the handler. */
  function Round(s: Session): Session {
    if s.flights == [] || s.flights[0].octets < s.flights[0].moved then s
    else WriteHandler(Transmit(s, 0, seq(s.flights[0].octets - s.flights[0].moved, i => ' ')), 0, Off)
  }

  function Rounds(s: Session, k: nat): Session
    decreases k
  {
    if k == 0 then s else Rounds(Round(s), k - 1)
  }

  /** How many packages `left` octets take. */
  function Packages(left: nat): nat { (left + (SEND_PACKAGE_SIZE - 1)) / SEND_PACKAGE_SIZE }

  /** Where the write in flight ends. */
  function End(s: Session): nat { if s.flights == [] then |s.wire| else s.flights[0].from + s.flights[0].octets }

  lemma RestTransmitted(s: Session, octets: string)
    requires Inv(s) && Current(s) && s.flights != [] && s.closed.Off?
    requires |octets| == s.flights[0].octets - s.flights[0].moved
    ensures var t := Transmit(s, 0, octets);
            && Inv(t) && Current(t) && End(s) <= |s.buffer| && t.wire == s.buffer[..End(s)]
            && t == s.(wire := t.wire, flights := [s.flights[0].(moved := s.flights[0].octets)])
  {
    hide Current;
    TransmitKeepsInv(s, 0, octets);
    TransmitKeepsCurrent(s, 0, octets);
    CurrentWire(s);
    CurrentWire(Transmit(s, 0, octets));
    assert CanTransmit(s, 0, octets);
  }

  lemma CurrentWire(s: Session)
    requires Current(s)
    ensures s.wire <= s.buffer
  {
  }

  lemma RoundMoves(s: Session)
    requires Inv(s) && Current(s) && s.flights != [] && s.closed.Off?
    ensures End(s) <= |s.buffer|
    ensures var t := Round(s);
            && Inv(t) && Current(t) && t.closed.Off? && t.buffer == s.buffer && t.wire == s.buffer[..End(s)]
            && (End(s) < |s.buffer| ==>
                t.flights != [] && End(t) == End(s) + Package(|s.buffer| - End(s)) && t.reports == s.reports)
            && (End(s) == |s.buffer| ==> t.flights == [] && t.reports == s.reports + [Report(s.buffer, s.buffer)])
  {
    var octets := seq(s.flights[0].octets - s.flights[0].moved, i => ' ');
    RestTransmitted(s, octets);
    hide Current, Transmit;
    var t := Transmit(s, 0, octets);
    WriteHandlerKeepsInv(t, 0, Off);
    WriteHandlerKeepsCurrent(t, 0, Off);
  }

  /** While writes succeed, the write in flight and one more for each 512 octets left bring the whole buffer
      to the wire and call `on_after_send` once.
    */
  lemma {:induction false} Drains(s: Session)
    requires Inv(s) && Current(s) && s.flights != [] && s.closed.Off? && End(s) <= |s.buffer|
    ensures var t := Rounds(s, 1 + (|s.buffer| - End(s) + 511) / 512);
            t.wire == s.buffer && t.flights == [] && t.reports == s.reports + [Report(s.buffer, s.buffer)]
    decreases |s.buffer| - End(s)
  {
    hide Round, Inv, Current, End;
    RoundMoves(s);
    var left := |s.buffer| - End(s);
    if left > 0 {
      assert Packages(left) == 1 + Packages(left - Package(left));
      Drains(Round(s));
    } else {
      assert Packages(left) == 0;
      assert Rounds(Round(s), 0) == Round(s);
    }
  }

  /** The flag of a chain is never taken back: once a chain is over, by success or by failure, nothing that
      is queued or sent afterwards ever reaches the wire.
    */
  ghost predicate Over(s: Session) { s.sending.On? && s.flights == [] }

  lemma {:induction false} OverForGood(s: Session, steps: seq<Step>)
    requires Over(s)
    ensures Over(Run(s, steps)) && Run(s, steps).wire == s.wire && Run(s, steps).reports == s.reports
  {
    if steps != [] { OverForGood(s, steps[..|steps| - 1]); }
  }

  /** So data that may be queued in an open session reaches the wire, if writes succeed, exactly when the chain
      is not over.
    */
  lemma QueuedGoesOut(s: Session, data: string, room: nat)
    requires Inv(s) && Current(s) && s.closed.Off? && data != "" && (Reading(s) ==> Fits(s, data))
    ensures Over(s) <==> forall k :: Rounds(Send(Queue(s, data, room)), k).wire != s.buffer + data
  {
    var q := Queue(s, data, room);
    var t := Send(q);
    StepKeepsInv(s, QueueStep(data, room));
    QueueKeepsCurrent(s, data, room);
    StepKeepsInv(q, SendStep);
    if Over(s) {
      forall k: nat ensures Rounds(t, k).wire != s.buffer + data { RoundsOver(t, k); }
    } else {
      RoundMoves(t);
      Drains(t);
    }
  }

  // ---------------------------------------------------------------------------
  // Closing.

  /** Only what was in flight when the session was closed is still to be answered. */
  lemma {:induction false} ClosedForGood(s: Session, steps: seq<Step>)
    requires s.closed.On?
    ensures var t := Run(s, steps);
            && t.closed.On? && t.wire == s.wire && t.reports == s.reports && t.chains == s.chains
            && |t.flights| <= |s.flights|
  {
    hide After;
    if steps != [] {
      var before := Run(s, steps[..|steps| - 1]);
      ClosedForGood(s, steps[..|steps| - 1]);
      ClosedStep(before, steps[|steps| - 1]);
    }
  }

  lemma ClosedStep(s: Session, step: Step)
    requires s.closed.On?
    ensures var t := After(s, step);
            && t.closed.On? && t.wire == s.wire && t.reports == s.reports && t.chains == s.chains
            && |t.flights| <= |s.flights|
  {
  }

  /** A handler that is called after closing, or that is told of an error or of a short write, neither reports nor
      starts a write, and nothing that happens afterwards does: the session is closed for good. */
  lemma FailedWriteEnds(s: Session, i: nat, error: Flag, steps: seq<Step>)
    requires i < |s.flights| && (s.closed.On? || error.On? || s.flights[i].moved != s.flights[i].octets)
    ensures var t := Run(After(s, WrittenStep(i, error)), steps);
            && t.closed.On? && t.wire == s.wire && t.reports == s.reports && t.chains == s.chains
            && |t.flights| <= |s.flights| - 1
  {
    ClosedForGood(After(s, WrittenStep(i, error)), steps);
  }

  lemma {:induction false} RoundsOver(s: Session, k: nat)
    requires Over(s)
    ensures Rounds(s, k) == s
  {
    if k > 0 { RoundsOver(s, k - 1); }
  }

  /** Data queued too late: after the only octet has been sent and reported, a second one is refused, and no
      step ever sends it.
    */
  lemma QueuedTooLate(more: seq<Step>)
    ensures var steps := [QueueStep("a", 0), SendStep, TransmitStep(0, "a"), WrittenStep(0, Off), QueueStep("b", 0)];
            var s := Run(START, steps);
            && Queued(steps) == "ab" && s.wire == "a" && SendAnswer(s).Refused? && Run(s, more).wire == "a"
  {
    var two := [QueueStep("a", 0), SendStep];
    var three, four := two + [TransmitStep(0, "a")], two + [TransmitStep(0, "a"), WrittenStep(0, Off)];
    var steps := [QueueStep("a", 0), SendStep, TransmitStep(0, "a"), WrittenStep(0, Off), QueueStep("b", 0)];
    OneOctetSent();
    OneMore(two, TransmitStep(0, "a"));
    OneMore(three, WrittenStep(0, Off));
    assert three + [WrittenStep(0, Off)] == four;
    OneMore(four, QueueStep("b", 0));
    assert four + [QueueStep("b", 0)] == steps;
    assert Run(START, three).wire == "a";
    OverForGood(Run(START, steps), more);
  }

  // ---------------------------------------------------------------------------

  class TcpSession {
    var sendBuffer: string
    var sendBufferCursor: nat
    var asyncSendFlag: Flag
    var isCloseFlag: Flag
    ghost var block: nat
    ghost var capacity: nat
    ghost var flights: seq<Write>
    ghost var wire: string
    ghost var reports: seq<Report>
    ghost var chains: nat

    ghost function State(): Session
      reads this
    {
      Session(sendBuffer, sendBufferCursor, asyncSendFlag, isCloseFlag, block, capacity, flights, wire, reports, chains)
    }

    constructor ()
      ensures State() == START
    {
      sendBuffer, sendBufferCursor, asyncSendFlag, isCloseFlag := "", 0, Off, Off;
      block, capacity, flights, wire, reports, chains := 0, 0, [], "", [], 0;
    }

    ghost method AsyncWrite(from: nat, octets: nat)
      modifies this`flights
      ensures flights == old(flights) + [Write(from, octets, 0, block)]
    {
      flights := flights + [Write(from, octets, 0, block)];
    }

    method AsyncSend() returns (answer: Answer)
      modifies this
      ensures State() == Send(old(State())) && answer == SendAnswer(old(State()))
    {
      if asyncSendFlag.On? { return Refused; }
      if isCloseFlag.On? { return NoSocket; }
      asyncSendFlag := On;
      sendBufferCursor := 0;
      var octetsRequired := Package(|sendBuffer|);
      AsyncWrite(0, octetsRequired);
      chains := chains + 1;
      answer := Started;
    }

    method AsyncSendData(data: string, ghost room: nat) returns (answer: Answer)
      modifies this
      ensures State() == Send(Queue(old(State()), data, room)) && answer == SendAnswer(old(State()))
    {
      if !Fits(State(), data) { block, capacity := block + 1, |sendBuffer| + |data| + room; }
      sendBuffer := sendBuffer + data;
      answer := AsyncSend();
    }

    method CloseSession()
      modifies this
      ensures State() == Close(old(State()))
    {
      isCloseFlag := On;
    }

    /** Called by the environment for write `i`, with what that write has achieved. */
    method AsioWriteHandler(ghost i: nat, error: Flag, transferred: nat, required: nat)
      requires i < |flights| && flights[i].octets == required && flights[i].moved == transferred
      modifies this
      ensures State() == WriteHandler(old(State()), i, error)
    {
      flights := Without(flights, i);
      if isCloseFlag.On? { return; }
      if error.On? || transferred != required {
        CloseSession();
        return;
      }
      sendBufferCursor := sendBufferCursor + transferred;
      if sendBufferCursor < |sendBuffer| {
        var nextOctetsRequired := Package(|sendBuffer| - sendBufferCursor);
        AsyncWrite(sendBufferCursor, nextOctetsRequired);
      } else {
        reports := reports + [Report(sendBuffer, wire)];
      }
    }
  }
}
