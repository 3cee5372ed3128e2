/** Reading the file that `write` has left restores the variables. */
module ConfigRoundTrip {
  import opened Common
  import opened Text
  import opened ConfigText
  import opened ConfigWritten
  import opened ConfigFiles
  import opened Config

  lemma AppliedHolds(s: Settings, v: Settings, a: Action, b: Action)
    requires Holds(a, v) && Holds(b, v) && (a == b || Holds(b, s))
    ensures Holds(b, Applied(s, a))
  {
  }

  lemma HoldsIsSetting(a: Action, v: Settings)
    requires Holds(a, v)
    ensures !a.Fail?
  {
  }

  /** Assignments of values of `v` only: whatever is assigned, or held before, holds at the end. */
  lemma {:induction false} PerformHolds(s: Settings, v: Settings, actions: seq<Action>, strict: Flag, b: Action)
    requires (forall i :: 0 <= i < |actions| ==> Holds(actions[i], v)) && Holds(b, v)
    requires b in actions || Holds(b, s)
    ensures var p := Perform(s, actions, strict); p.thrown.Off? && Holds(b, p.settings)
    decreases |actions|
  {
    hide Applied, Holds;
    if actions != [] {
      var a := actions[0];
      HoldsIsSetting(a, v);
      if a == b || Holds(b, s) { AppliedHolds(s, v, a, b); }
      assert b in actions ==> b == a || b in actions[1..];
      PerformHolds(Applied(s, a), v, actions[1..], strict, b);
    }
  }

  lemma WrittenLine(e: Env, f: string, actions: seq<Action>, i: nat)
    requires AreSettings(actions) && e.files(f) == Some(Written(actions)) && i <= |actions|
    requires forall k :: 0 <= k < |actions| ==> Writable(actions[k], e.names)
    ensures LineCount(e, f) == |actions|
    ensures LineAt(e, f, i) == if i < |actions| then LineOf(actions[i]) else ""
  {
    hide LineOf, Lines, Tail, Writable;
    forall k | 0 <= k < |actions| ensures Without(LineOf(actions[k]), {CR, LF}) { LineMeans(actions[k], e.names); }
    WrittenLines(actions);
  }

  lemma {:induction false} WrittenActions(e: Env, rank: string -> nat, f: string, actions: seq<Action>, i: nat)
    requires Acyclic(e, rank) && AreSettings(actions) && e.files(f) == Some(Written(actions)) && i <= |actions|
    requires forall k :: 0 <= k < |actions| ==> Writable(actions[k], e.names)
    ensures FileActions(e, rank, f, i, 0) == actions[i..]
    decreases |actions| - i
  {
    hide Acyclic, FileActions, IsInclude, LineOf, LineCount, LineAt, Written, Writable, Stripped, Meaning, Lines, Tail;
    WrittenLine(e, f, actions, i);
    if i < |actions| {
      var a := actions[i];
      LineMeans(a, e.names);
      IncludeMeans(e, LineOf(a));
      PlainStep(e, rank, f, i, 0);
      WrittenActions(e, rank, f, actions, i + 1);
      assert actions[i..] == [a] + actions[i + 1..];
    } else {
      NoLines();
      SilentStep(e, rank, f, i, 0);
    }
  }

  /** Reading what was written from `v`, strictly or not and whatever the variables hold before, gives every
      bound variable its value in `v`.
    */
  lemma WriteThenRead(e: Env, rank: string -> nat, f: string, v: Settings, s: Settings, strict: Flag)
    requires Acyclic(e, rank) && AllBound(v, e.names)
    requires e.files(f).Some? && IsFileOf(e.files(f).value, v, e.names)
    requires forall a: Action :: Holds(a, v) && IsAmong(a, e.names) ==> Writable(a, e.names)
    ensures var p := Perform(s, FileActions(e, rank, f, 0, 0), strict);
            && p.thrown.Off?
            && (forall k :: k in e.names.strings ==> k in p.settings.strings && p.settings.strings[k] == v.strings[k])
            && (forall k :: k in e.names.ints ==> k in p.settings.ints && p.settings.ints[k] == v.ints[k])
            && (forall k :: k in e.names.bools ==> k in p.settings.bools && p.settings.bools[k] == v.bools[k])
  {
    hide Acyclic, FileActions, Written, Writable, Perform;
    var actions :| AreSettings(actions) && Lists(actions, v, e.names) && e.files(f).value == Written(actions);
    WrittenActions(e, rank, f, actions, 0);
    assert actions[0..] == actions;
    forall b: Action | Holds(b, v) && IsAmong(b, e.names)
      ensures Perform(s, actions, strict).thrown.Off? && Holds(b, Perform(s, actions, strict).settings)
    {
      PerformHolds(s, v, actions, strict, b);
    }
    assert Perform(s, actions, strict).thrown.Off? by {
      if actions == [] {
        NothingLeft(s, strict);
      } else {
        PerformHolds(s, v, actions, strict, actions[0]);
      }
    }
    var p := Perform(s, actions, strict);
    forall k | k in e.names.strings ensures k in p.settings.strings && p.settings.strings[k] == v.strings[k] {
      assert Holds(SetString(k, v.strings[k]), v);
    }
    forall k | k in e.names.ints ensures k in p.settings.ints && p.settings.ints[k] == v.ints[k] {
      assert Holds(SetInt(k, v.ints[k]), v);
    }
    forall k | k in e.names.bools ensures k in p.settings.bools && p.settings.bools[k] == v.bools[k] {
      assert Holds(SetBool(k, v.bools[k]), v);
    }
  }
}
