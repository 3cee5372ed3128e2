/** The order in which `NetworkConnection` calls its user callbacks, as a property of the whole trace. */
module CallbackTrace {
  /** The user callbacks, in the order they were entered. */
  datatype Event = BeforeNewConnection | NewConnection | ReadSocket | DataSent | TimerFired | CloseConnection | SessionEnd

  /** One BeforeNewConnection and one later SessionEnd per session, and one
      CloseConnection between them exactly when the session saw a NewConnection. */
  datatype Phase = Outside | InSession(seen: bool) | Closed | Broken

  function Advance(p: Phase, e: Event): Phase {
    match e
    case BeforeNewConnection => if p.Outside? then InSession(false) else Broken
    case NewConnection => if p.InSession? then InSession(true) else Broken
    case ReadSocket => if p == InSession(true) then p else Broken
    case DataSent | TimerFired => if p.InSession? then p else Broken
    case CloseConnection => if p == InSession(true) then Closed else Broken
    case SessionEnd => if p == Closed || p == InSession(false) then Outside else Broken
  }

  function PhaseOf(trace: seq<Event>): Phase {
    if trace == [] then Outside else Advance(PhaseOf(trace[..|trace| - 1]), trace[|trace| - 1])
  }

  lemma PhaseOfNext(trace: seq<Event>, e: Event)
    ensures PhaseOf(trace + [e]) == Advance(PhaseOf(trace), e)
  {
    assert (trace + [e])[..|trace|] == trace;
  }

  lemma TraceGrows(trace: seq<Event>)
    ensures forall e :: PhaseOf(trace + [e]) == Advance(PhaseOf(trace), e)
  {
    forall e ensures PhaseOf(trace + [e]) == Advance(PhaseOf(trace), e) { PhaseOfNext(trace, e); }
  }

  /** `t[k..]` is one session as far as it has got: BeforeNewConnection, then no other session boundary;
      `seen` tells whether a NewConnection is among them. */
  ghost predicate OpenSession(t: seq<Event>, k: nat, seen: bool) {
    && k < |t| && t[k] == BeforeNewConnection && PhaseOf(t[..k]) == Outside
    && (forall i :: k < i < |t| ==> t[i] == NewConnection || t[i] == ReadSocket || t[i] == DataSent || t[i] == TimerFired)
    && (seen <==> NewConnection in t[k..])
    && (forall i :: k <= i < |t| && t[i] == ReadSocket ==> NewConnection in t[k..i])
  }

  lemma OpenSessionStarts(t: seq<Event>)
    requires PhaseOf(t) == Outside
    ensures OpenSession(t + [BeforeNewConnection], |t|, false)
  {
    assert (t + [BeforeNewConnection])[..|t|] == t;
  }

  lemma OpenSessionGrows(t: seq<Event>, k: nat, seen: bool, e: Event)
    requires OpenSession(t, k, seen)
    requires e == NewConnection || e == DataSent || e == TimerFired || (e == ReadSocket && seen)
    ensures OpenSession(t + [e], k, seen || e == NewConnection)
  {
    hide PhaseOf;
    var t' := t + [e];
    assert t'[..k] == t[..k] && t'[k..] == t[k..] + [e];
    forall i | k <= i < |t'| && t'[i] == ReadSocket ensures NewConnection in t'[k..i] {
      assert t'[k..i] == t[k..i];
      if i == |t| { assert t[k..i] == t[k..]; }
    }
  }

  lemma {:induction false} OpenSessionShape(t: seq<Event>)
    requires PhaseOf(t).InSession?
    ensures exists k: nat :: OpenSession(t, k, PhaseOf(t).seen)
  {
    var init, e := t[..|t| - 1], t[|t| - 1];
    assert t == init + [e];
    PhaseOfNext(init, e);
    hide PhaseOf, OpenSession;
    if e == BeforeNewConnection {
      OpenSessionStarts(init);
    } else {
      OpenSessionShape(init);
      var k: nat :| OpenSession(init, k, PhaseOf(init).seen);
      OpenSessionGrows(init, k, PhaseOf(init).seen, e);
    }
  }

  /** `t[k..]` is one finished session: a CloseConnection exactly if a NewConnection was in it, and a
      SessionEnd last. */
  ghost predicate WholeSession(t: seq<Event>, k: nat, seen: bool) {
    var body := |t| - (if seen then 2 else 1);
    && k < body && t[|t| - 1] == SessionEnd && (seen ==> t[body] == CloseConnection)
    && OpenSession(t[..body], k, seen)
  }

  /** A trace between sessions is empty, or an earlier trace between sessions and one whole session. */
  lemma WholeSessions(t: seq<Event>)
    requires PhaseOf(t) == Outside && t != []
    ensures exists k: nat, seen: bool :: WholeSession(t, k, seen) && PhaseOf(t[..k]) == Outside
  {
    assert PhaseOf([]) == Outside;
    hide PhaseOf, Advance, OpenSession, WholeSession;
    var init, e := t[..|t| - 1], t[|t| - 1];
    assert t == init + [e];
    PhaseOfNext(init, e);
    Endings(PhaseOf(init), e);
    if PhaseOf(init).InSession? {
      OpenSessionShape(init);
      var k: nat :| OpenSession(init, k, false);
      SessionEnds(init, k);
    } else {
      assert init != [];
      var body, e' := init[..|init| - 1], init[|init| - 1];
      assert init == body + [e'];
      PhaseOfNext(body, e');
      Endings(PhaseOf(body), e');
      OpenSessionShape(body);
      var k: nat :| OpenSession(body, k, true);
      SessionCloses(body, k);
      assert t == body + [CloseConnection, SessionEnd];
    }
  }

  lemma Endings(p: Phase, e: Event)
    ensures Advance(p, e) == Outside ==> e == SessionEnd && (p == Closed || p == InSession(false))
    ensures Advance(p, e) == Closed ==> e == CloseConnection && p == InSession(true)
  {
  }

  lemma SessionEnds(body: seq<Event>, k: nat)
    requires OpenSession(body, k, false)
    ensures var t := body + [SessionEnd]; WholeSession(t, k, false) && PhaseOf(t[..k]) == Outside
  {
    hide PhaseOf;
    var t := body + [SessionEnd];
    assert t[..|t| - 1] == body && t[..k] == body[..k];
  }

  lemma SessionCloses(body: seq<Event>, k: nat)
    requires OpenSession(body, k, true)
    ensures var t := body + [CloseConnection, SessionEnd]; WholeSession(t, k, true) && PhaseOf(t[..k]) == Outside
  {
    hide PhaseOf;
    var t := body + [CloseConnection, SessionEnd];
    assert t[..|t| - 2] == body && t[..k] == body[..k];
  }
}
