/** `ConfigParser` of common/conf-parser.cpp: reading with `!include`, which closes the file, reads the other
    one, opens the file again and skips the lines already done; and writing.
  */
module Config {
  import opened Common
  import opened Text
  import opened ConfigText
  import opened ConfigWritten
  import opened ConfigFiles

  // ---------------------------------------------------------------------------
  // The parser.

  /** How many numbers above `skip` the lines of `f` have: what is left to read. */
  function Left(e: Env, f: string, skip: nat): nat
    requires e.files(f).Some?
  {
    if skip <= LineCount(e, f) then LineCount(e, f) + 1 - skip else 0
  }

  lemma LineSplit(text: string, k: nat)
    requires k < |text| && Without(text[..k], {LF}) && text[k] == LF
    ensures HasLine(text) && FirstLine(text) == NoCR(text[..k]) && AfterLine(text) == text[k + 1..]
  {
    FieldLengthIs(text, k, {LF});
  }

  lemma NoLineLeft(text: string)
    requires Without(text, {LF})
    ensures !HasLine(text) && FirstLine(text) == NoCR(text)
  {
    assert text[..|text|] == text;
    FieldLengthIs(text, |text|, {LF});
  }

  lemma OneApplied(s: Settings, a: Action, strict: Flag)
    ensures Perform(s, [a], strict) == if a.Fail? && strict.On? then Performed(s, On) else Performed(Applied(s, a), Off)
  {
    hide Applied;
    assert [a][1..] == [];
  }

  lemma {:induction false} LenientNeverThrows(s: Settings, actions: seq<Action>)
    ensures Perform(s, actions, Off).thrown.Off?
    decreases |actions|
  {
    hide Applied;
    if actions != [] { LenientNeverThrows(Applied(s, actions[0]), actions[1..]); }
  }

  lemma NothingLeft(s: Settings, strict: Flag)
    ensures Perform(s, [], strict) == Performed(s, Off)
  {
  }

  lemma ThenNothing(s: Settings, thrown: Flag, more: seq<Action>, strict: Flag)
    ensures thrown.On? ==> Then(Performed(s, thrown), more, strict) == Performed(s, thrown)
    ensures thrown.Off? ==> Then(Performed(s, thrown), more, strict) == Perform(s, more, strict)
  {
  }

  lemma LeftLess(e: Env, f: string, i: nat, skip: nat)
    requires e.files(f).Some? && i <= LineCount(e, f) && skip < LineNumber(e, f, i)
    ensures Left(e, f, LineNumber(e, f, i)) < Left(e, f, skip)
  {
  }

  /** `rest` is what is left of the file after `k` lines. */
  predicate Reached(e: Env, f: string, k: nat, rest: string)
    requires e.files(f).Some?
  {
    var text := e.files(f).value;
    k <= LineCount(e, f) && Lines(rest) == Lines(text)[k..] && Tail(rest) == Tail(text)
  }

  lemma ReachedStart(e: Env, f: string)
    requires e.files(f).Some?
    ensures Reached(e, f, 0, e.files(f).value)
  {
    hide Lines, Tail;
  }

  lemma ReachedMore(e: Env, f: string, k: nat, rest: string)
    requires e.files(f).Some? && Reached(e, f, k, rest)
    ensures FirstLine(rest) == LineAt(e, f, k)
    ensures HasLine(rest) ==> k < LineCount(e, f) && LineNumber(e, f, k) == k + 2 && Reached(e, f, k + 1, AfterLine(rest))
    ensures !HasLine(rest) ==> k == LineCount(e, f) && LineNumber(e, f, k) == k + 1
  {
    hide FirstLine, HasLine;
    var text := e.files(f).value;
    if HasLine(rest) {
      assert Lines(rest)[1..] == Lines(text)[k + 1..];
    }
  }

  class ConfigParser {
    const exceptionsEnabled: Flag
    const files: Files
    const names: Names

    var myFilename: string
    var myFolder: string
    var values: Settings

    var file: Flag
    var rest: string
    var lineNum: nat
    var skipLines: nat
    var eof: Flag

    constructor (strict: Flag, disk: Files, bound: Names, filename: string, folder: string, initial: Settings)
      ensures exceptionsEnabled == strict && files == disk && names == bound
      ensures myFilename == filename && myFolder == folder && values == initial
      ensures file.Off? && skipLines == 0
    {
      exceptionsEnabled, files, names := strict, disk, bound;
      myFilename, myFolder, values := filename, folder, initial;
      file, rest, lineNum, skipLines, eof := Off, "", 0, 0, On;
    }

    function TheEnv(): Env
      reads this`myFolder
    {
      Env(files, myFolder, names)
    }

    /** One line without its carriage returns; at the end of the file, what is left of it. */
    method LineRead() returns (line: string)
      requires file.On? && eof.Off?
      modifies this`rest, this`lineNum, this`eof
      ensures line == FirstLine(old(rest))
      ensures HasLine(old(rest)) ==> eof.Off? && rest == AfterLine(old(rest)) && lineNum == old(lineNum) + 1
      ensures !HasLine(old(rest)) ==> eof.On? && lineNum == old(lineNum)
    {
      hide FirstLine, HasLine, AfterLine, NoCR;
      line := "";
      ghost var text, k := rest, 0;
      assert text[..0] == "";
      NoCRNothing("");
      while file.On? && eof.Off?
        invariant k <= |text| && rest == text[k..] && eof.Off? && lineNum == old(lineNum)
        invariant Without(text[..k], {LF}) && line == NoCR(text[..k])
        decreases |rest|
      {
        if rest == "" {
          eof := On;
          assert text[..k] == text;
          NoLineLeft(text);
          break;
        }
        var byte := rest[0];
        rest := rest[1..];
        if byte == LF {
          lineNum := lineNum + 1;
          LineSplit(text, k);
          break;
        }
        assert text[..k + 1] == text[..k] + [byte];
        NoCRMore(text[..k], byte);
        k := k + 1;
        if byte != CR { line := line + [byte]; }
      }
    }

    /** An error ends the reading if the parser is strict, or if it must. */
    method Error(forceStop: bool) returns (thrown: Flag)
      modifies this`eof, this`file
      ensures thrown == if exceptionsEnabled.On? || forceStop then On else Off
      ensures thrown.Off? ==> eof == old(eof) && file == old(file)
      ensures thrown.On? ==> eof.On? && file.Off?
    {
      thrown := Off;
      if exceptionsEnabled.On? || forceStop {
        eof, file, thrown := On, Off, On;
      }
    }

    /** What a line leaves to be done: its own action or, for an include, the actions of the included file and
        then of the rest of this one.
      */
    ghost function LineTarget(rank: string -> nat, line: string): seq<Action>
      requires Acyclic(TheEnv(), rank) && files(myFilename).Some?
      reads this
    {
      var a := Meaning(names, line);
      if a.Include? then IncludeTarget(rank, a.name) else [a]
    }

    ghost function IncludeTarget(rank: string -> nat, name: string): seq<Action>
      requires Acyclic(TheEnv(), rank) && files(myFilename).Some?
      reads this
    {
      IncludeActions(TheEnv(), rank, myFolder + name)
      + FileActions(TheEnv(), rank, myFilename, 0, lineNum)
    }

    lemma LineTargetIs(rank: string -> nat, line: string)
      requires Acyclic(TheEnv(), rank) && files(myFilename).Some?
      ensures var a := Meaning(names, line);
              LineTarget(rank, line)
              == if !a.Include? then [a]
                 else (IncludeActions(TheEnv(), rank, myFolder + a.name)
                       + FileActions(TheEnv(), rank, myFilename, 0, lineNum))
    {
      hide Meaning, Acyclic, IncludeActions, FileActions;
    }

    lemma EnvIs()
      ensures TheEnv() == Env(files, myFolder, names)
    {
    }

    /** Does what a stripped line says. */
    method Understand(line: string, ghost rank: string -> nat) returns (thrown: Flag)
      requires Acyclic(TheEnv(), rank) && files(myFilename).Some? && line != ""
      requires var a := Meaning(names, line); a.Include? ==> rank(myFolder + a.name) < rank(myFilename)
      modifies this`myFilename, this`file, this`rest, this`lineNum, this`skipLines, this`eof, this`values
      ensures Performed(values, thrown) == Perform(old(values), old(LineTarget(rank, line)), exceptionsEnabled)
      ensures !Meaning(names, line).Include? && thrown.Off? ==>
              myFilename == old(myFilename) && file == old(file) && rest == old(rest)
              && lineNum == old(lineNum) && skipLines == old(skipLines) && eof == old(eof)
      ensures Meaning(names, line).Include? && thrown.Off? ==>
              myFilename == old(myFilename) && file.Off?
              && skipLines == SkipAfter(TheEnv(), myFilename, 0, old(lineNum))
      decreases rank(myFilename), Left(TheEnv(), myFilename, lineNum), 2, 0
    {
      hide Perform, Word, TrimLeft, CString, Atoi, Acyclic, FileActions, IncludeActions, Left, IncludeTarget, SkipAfter;
      OneApplied(values, Meaning(names, line), exceptionsEnabled);
      thrown := Off;
      var key := Word(line);
      if key == "" {
        thrown := Error(false);
      } else if |key| >= |line| {
        if key in names.strings {
          values := values.(strings := values.strings[key := ""]);
        } else if key in names.bools {
          values := values.(bools := values.bools[key := On]);
        } else {
          thrown := Error(false);
        }
      } else {
        var value := TrimLeft(CString(line[|key|..]));
        if key in names.strings {
          values := values.(strings := values.strings[key := value]);
        } else if key in names.ints {
          values := values.(ints := values.ints[key := Atoi(value)]);
        } else if key == INCLUDE {
          thrown := IncludeParse(value, rank);
        } else if key in names.bools {
          if value == "0" || value == "false" || value == "off" {
            values := values.(bools := values.bools[key := Off]);
          } else if value == "1" || value == "true" || value == "on" {
            values := values.(bools := values.bools[key := On]);
          }
        } else {
          thrown := Error(false);
        }
      }
    }

    /** The `!include` callback: the exception of a failed reading is caught and reported as an error. */
    method IncludeParse(name: string, ghost rank: string -> nat) returns (thrown: Flag)
      requires Acyclic(TheEnv(), rank) && files(myFilename).Some?
      requires rank(myFolder + name) < rank(myFilename)
      modifies this`myFilename, this`file, this`rest, this`lineNum, this`skipLines, this`eof, this`values
      ensures Performed(values, thrown) == Perform(old(values), old(IncludeTarget(rank, name)), exceptionsEnabled)
      ensures thrown.Off? ==>
              myFilename == old(myFilename) && file.Off?
              && skipLines == SkipAfter(TheEnv(), myFilename, 0, old(lineNum))
      decreases rank(myFilename), Left(TheEnv(), myFilename, lineNum), 1, 0
    {
      hide Perform, Acyclic, FileActions, Left, SkipAfter;
      var tmpLineNum, tmpFname := lineNum, myFilename;
      ghost var e, g := TheEnv(), myFolder + name;
      ghost var start, included := values, IncludeActions(e, rank, g);
      PerformBoth(start, included, FileActions(e, rank, myFilename, 0, lineNum), exceptionsEnabled);
      OneApplied(start, Fail, exceptionsEnabled);
      file, myFilename, skipLines := Off, myFolder + name, 0;
      thrown := Read(rank);
      if thrown.On? {
        thrown := Error(false);
        LenientNeverThrows(start, included);
        assert Performed(values, thrown) == Perform(start, included, exceptionsEnabled);
        if thrown.On? { return; }
      }
      file, myFilename, skipLines := Off, tmpFname, tmpLineNum;
      thrown := Read(rank);
    }

    /** Reads the file named `my_filename`, above line number `skip_lines`. */
    method Read(ghost rank: string -> nat) returns (thrown: Flag)
      requires Acyclic(TheEnv(), rank)
      modifies this`myFilename, this`file, this`rest, this`lineNum, this`skipLines, this`eof, this`values
      ensures old(files(myFilename).None?) ==> thrown.On? && values == old(values)
      ensures old(files(myFilename).Some?) ==>
              Performed(values, thrown)
              == Perform(old(values), old(FileActions(TheEnv(), rank, myFilename, 0, skipLines)),
                         exceptionsEnabled)
      ensures thrown.Off? ==>
              myFilename == old(myFilename) && file.Off?
              && skipLines == SkipAfter(TheEnv(), myFilename, 0, old(skipLines))
      decreases rank(myFilename),
                if files(myFilename).Some? then Left(TheEnv(), myFilename, skipLines) else 0, 0, 0
    {
      hide *;
      EnvIs();
      if files(myFilename).None? {
        thrown := Error(true);
        return;
      }
      ghost var e, f, skip := TheEnv(), myFilename, skipLines;
      ghost var target := Perform(values, FileActions(e, rank, f, 0, skip), exceptionsEnabled);
      file, rest, lineNum, eof, thrown := On, files(myFilename).value, 1, Off, Off;
      ghost var k := 0;
      ReachedStart(e, f);
      while file.On? && eof.Off?
        invariant thrown.Off? && myFilename == f && TheEnv() == e
        invariant file.On? ==> skipLines == skip
        invariant file.On? && eof.Off? ==>
          k <= LineCount(e, f) && lineNum == k + 1 && Reached(e, f, k, rest)
          && target == Perform(values, FileActions(e, rank, f, k, skip), exceptionsEnabled)
          && SkipAfter(e, f, k, skip) == SkipAfter(e, f, 0, skip)
        invariant file.Off? || eof.On? ==>
          target == Performed(values, Off) && skipLines == SkipAfter(e, f, 0, skip)
        decreases if file.On? && eof.Off? then 1 else 0, |rest|
      {
        ReachedMore(e, f, k, rest);
        ghost var raw, was, i := LineAt(e, f, k), values, k;
        var line := LineRead();
        line := LineStrip(line);
        if eof.Off? { k := k + 1; }
        ghost var more := if i < LineCount(e, f) then FileActions(e, rank, f, k, skip) else [];
        NothingLeft(values, exceptionsEnabled);
        SkipAfterStep(e, f, i, skip);
        IncludeMeans(e, raw);
        if line == "" || lineNum <= skipLines {
          SilentStep(e, rank, f, i, skip);
          continue;
        }
        LeftLess(e, f, i, skip);
        if Meaning(names, line).Include? {
          IncludeStep(e, rank, f, i, skip);
          LineTargetIs(rank, line);
          assert LineTarget(rank, line) == FileActions(e, rank, f, i, skip);
        } else {
          PlainStep(e, rank, f, i, skip);
          LineTargetIs(rank, line);
          PerformBoth(values, [Meaning(names, line)], more, exceptionsEnabled);
        }
        thrown := Understand(line, rank);
        assert !Meaning(names, line).Include? ==> target == Then(Performed(values, thrown), more, exceptionsEnabled);
        ThenNothing(values, thrown, more, exceptionsEnabled);
        if thrown.On? { return; }
        NothingLeft(values, exceptionsEnabled);
      }
      file := Off;
    }

    /** The text of the file that `write` leaves: the strings, then the numbers, then the flags. */
    method Write() returns (text: string)
      requires AllBound(values, names)
      ensures IsFileOf(text, values, names)
    {
      hide LineOf, Lists, Written, CString, Decimal;
      text := "";
      ghost var actions: seq<Action> := [];
      ghost var done := Names({}, {}, {});
      NothingListed(values);
      var left := names.strings;
      while left != {}
        invariant left <= names.strings && done == Names(names.strings - left, {}, {})
        invariant AreSettings(actions) && Lists(actions, values, done) && text == Written(actions)
      {
        var key :| key in left;
        left := left - {key};
        ghost var a := SetString(key, values.strings[key]);
        ListsMore(actions, values, done, a);
        LineOfIs(a);
        text := text + (CString(key) + " " + CString(values.strings[key]) + "\n");
        actions, done := actions + [a], With(done, a);
      }
      left := names.ints;
      while left != {}
        invariant left <= names.ints && done == Names(names.strings, names.ints - left, {})
        invariant AreSettings(actions) && Lists(actions, values, done) && text == Written(actions)
      {
        var key :| key in left;
        left := left - {key};
        ghost var a := SetInt(key, values.ints[key]);
        ListsMore(actions, values, done, a);
        LineOfIs(a);
        text := text + (CString(key) + " " + Decimal(values.ints[key]) + "\n");
        actions, done := actions + [a], With(done, a);
      }
      left := names.bools;
      while left != {}
        invariant left <= names.bools && done == Names(names.strings, names.ints, names.bools - left)
        invariant AreSettings(actions) && Lists(actions, values, done) && text == Written(actions)
      {
        var key :| key in left;
        left := left - {key};
        ghost var a := SetBool(key, values.bools[key]);
        ListsMore(actions, values, done, a);
        var digit := if values.bools[key].On? then "1" else "0";
        LineOfIs(a);
        text := text + (CString(key) + " " + digit + "\n");
        actions, done := actions + [a], With(done, a);
      }
      assert done == names;
    }
  }
}
