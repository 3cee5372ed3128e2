/** What a configuration file means to `ConfigParser::read` of common/conf-parser.cpp: which lines are looked
    at when the file is opened again after each `!include`, and what they do.

    Files are a function from names to texts, unchanged while they are read. The variables bound to the
    parser are one value, `Settings`.
  */
module ConfigFiles {
  import opened Common
  import opened Text
  import opened ConfigText
  import opened ConfigWritten

  type Files = string -> Option<string>

  /** Everything that stays fixed while a configuration is read. */
  datatype Env = Env(files: Files, folder: string, names: Names)

  datatype Performed = Performed(settings: Settings, thrown: Flag)

  /** The actions in order; if the parser is strict, the first failure ends everything. */
  function Perform(s: Settings, actions: seq<Action>, strict: Flag): Performed
    decreases |actions|
  {
    if actions == [] then Performed(s, Off)
    else if actions[0].Fail? && strict.On? then Performed(s, On)
    else Perform(Applied(s, actions[0]), actions[1..], strict)
  }

  function Then(p: Performed, actions: seq<Action>, strict: Flag): Performed {
    if p.thrown.On? then p else Perform(p.settings, actions, strict)
  }

  lemma {:induction false} PerformBoth(s: Settings, a: seq<Action>, b: seq<Action>, strict: Flag)
    ensures Perform(s, a + b, strict) == Then(Perform(s, a, strict), b, strict)
    decreases |a|
  {
    hide Applied;
    if a == [] {
      assert a + b == b;
    } else {
      assert (a + b)[1..] == a[1..] + b;
      if !(a[0].Fail? && strict.On?) { PerformBoth(Applied(s, a[0]), a[1..], b, strict); }
    }
  }

  // ---------------------------------------------------------------------------
  // The meaning of a file.

  predicate IsInclude(e: Env, line: string) {
    Stripped(line) != "" && Meaning(e.names, Stripped(line)).Include?
  }

  function IncludedFile(e: Env, line: string): string
    requires IsInclude(e, line)
  {
    e.folder + Meaning(e.names, Stripped(line)).name
  }

  predicate IsLineOf(text: string, line: string) { line in Lines(text) || line == Tail(text) }

  /** No file includes itself, at any depth: included files have a smaller rank. */
  ghost predicate Acyclic(e: Env, rank: string -> nat) {
    forall f, line ::
      e.files(f).Some? && IsLineOf(e.files(f).value, line) && IsInclude(e, line)
      ==> rank(IncludedFile(e, line)) < rank(f)
  }

  /** The actions of one line, those of the file it includes if it is an include. */
  ghost function LineActions(e: Env, rank: string -> nat, f: string, line: string): seq<Action>
    requires Acyclic(e, rank) && e.files(f).Some? && IsLineOf(e.files(f).value, line)
    decreases rank(f), 0, 0
  {
    if Stripped(line) == "" then []
    else if IsInclude(e, line) then
      IncludeActions(e, rank, IncludedFile(e, line))
    else [Meaning(e.names, Stripped(line))]
  }

  /** An included file that cannot be read is a failure. */
  ghost function IncludeActions(e: Env, rank: string -> nat, g: string): seq<Action>
    requires Acyclic(e, rank)
    decreases rank(g), 2, 0
  {
    if e.files(g).Some? then FileActions(e, rank, g, 0, 0) else [Fail]
  }

  function LineCount(e: Env, f: string): nat
    requires e.files(f).Some?
  {
    |Lines(e.files(f).value)|
  }

  function LineAt(e: Env, f: string, i: nat): (line: string)
    requires e.files(f).Some?
    ensures IsLineOf(e.files(f).value, line)
  {
    if i < LineCount(e, f) then Lines(e.files(f).value)[i] else Tail(e.files(f).value)
  }

  /** The number that the program has counted up to when it looks at line `i`. */
  function LineNumber(e: Env, f: string, i: nat): nat
    requires e.files(f).Some?
  {
    if i < LineCount(e, f) then i + 2 else LineCount(e, f) + 1
  }

  /** The actions of a file from line `i` on: a line counts only if its number is above `skip_lines`, the number
      of a line that ends in a line feed being one more than its place. An include sets `skip_lines` to its own
      number.
    */
  ghost function FileActions(e: Env, rank: string -> nat, f: string, i: nat, skip: nat): seq<Action>
    requires Acyclic(e, rank) && e.files(f).Some?
    decreases rank(f), 1, LineCount(e, f) - i
  {
    var line, number := LineAt(e, f, i), LineNumber(e, f, i);
    var seen := skip < number;
    var actions := if seen then LineActions(e, rank, f, line) else [];
    var next := if seen && IsInclude(e, line) then number else skip;
    if i < LineCount(e, f) then actions + FileActions(e, rank, f, i + 1, next) else actions
  }

  lemma FileStep(e: Env, rank: string -> nat, f: string, i: nat, skip: nat)
    requires Acyclic(e, rank) && e.files(f).Some?
    ensures var line, number := LineAt(e, f, i), LineNumber(e, f, i);
            var rest := if i < LineCount(e, f) then FileActions(e, rank, f, i + 1, skip) else [];
            var after := if i < LineCount(e, f) then FileActions(e, rank, f, i + 1, number) else [];
            && (number <= skip || Stripped(line) == "" ==> FileActions(e, rank, f, i, skip) == rest)
            && (skip < number && IsInclude(e, line) ==>
                FileActions(e, rank, f, i, skip) == LineActions(e, rank, f, line) + after)
            && (skip < number && !IsInclude(e, line) ==>
                FileActions(e, rank, f, i, skip) == LineActions(e, rank, f, line) + rest)
  {
    hide Stripped, Meaning, Lines, Tail, Acyclic;
  }

  /** Reading again from the start, past lines already done, is going on after them. */
  lemma {:induction false} SkippedStart(e: Env, rank: string -> nat, f: string, i: nat, skip: nat)
    requires Acyclic(e, rank) && e.files(f).Some? && i <= LineCount(e, f) && i < skip
    ensures FileActions(e, rank, f, 0, skip) == FileActions(e, rank, f, i, skip)
  {
    hide FileActions, IsInclude, Acyclic;
    if i > 0 {
      SkippedStart(e, rank, f, i - 1, skip);
      FileStep(e, rank, f, i - 1, skip);
    }
  }

  /** A line that says nothing or is skipped. */
  lemma SilentStep(e: Env, rank: string -> nat, f: string, i: nat, skip: nat)
    requires Acyclic(e, rank) && e.files(f).Some?
    requires LineNumber(e, f, i) <= skip || Stripped(LineAt(e, f, i)) == ""
    ensures FileActions(e, rank, f, i, skip)
         == if i < LineCount(e, f) then FileActions(e, rank, f, i + 1, skip) else []
  {
    hide *;
    FileStep(e, rank, f, i, skip);
  }

  lemma LineCases(e: Env, rank: string -> nat, f: string, i: nat)
    requires Acyclic(e, rank) && e.files(f).Some? && Stripped(LineAt(e, f, i)) != ""
    ensures var line := LineAt(e, f, i);
            var actions := LineActions(e, rank, f, line);
            && (!IsInclude(e, line) ==> actions == [Meaning(e.names, Stripped(line))])
            && (IsInclude(e, line) ==>
                actions == IncludeActions(e, rank, IncludedFile(e, line))
                && rank(IncludedFile(e, line)) < rank(f))
  {
    hide Stripped, Meaning, Lines, Tail, LineAt;
  }

  /** The tests and the numbers of the program, from the definitions. */
  lemma IncludeMeans(e: Env, line: string)
    ensures IsInclude(e, line) <==> Stripped(line) != "" && Meaning(e.names, Stripped(line)).Include?
    ensures IsInclude(e, line) ==> IncludedFile(e, line) == e.folder + Meaning(e.names, Stripped(line)).name
  {
    hide Stripped, Meaning;
  }

  lemma NumberOf(e: Env, f: string, i: nat)
    requires e.files(f).Some?
    ensures LineNumber(e, f, i) == if i < LineCount(e, f) then i + 2 else LineCount(e, f) + 1
    ensures LineCount(e, f) == |Lines(e.files(f).value)|
    ensures i >= LineCount(e, f) ==> LineAt(e, f, i) == Tail(e.files(f).value)
  {
    hide Lines, Tail;
  }

  lemma PlainStep(e: Env, rank: string -> nat, f: string, i: nat, skip: nat)
    requires Acyclic(e, rank) && e.files(f).Some? && skip < LineNumber(e, f, i)
    requires Stripped(LineAt(e, f, i)) != "" && !IsInclude(e, LineAt(e, f, i))
    ensures FileActions(e, rank, f, i, skip)
         == [Meaning(e.names, Stripped(LineAt(e, f, i)))]
          + if i < LineCount(e, f) then FileActions(e, rank, f, i + 1, skip) else []
  {
    hide *;
    FileStep(e, rank, f, i, skip);
    LineCases(e, rank, f, i);
  }

  /** An include: the included file, and then this one again, above the number of the include. */
  lemma IncludeStep(e: Env, rank: string -> nat, f: string, i: nat, skip: nat)
    requires Acyclic(e, rank) && e.files(f).Some? && i <= LineCount(e, f) && skip < LineNumber(e, f, i)
    requires IsInclude(e, LineAt(e, f, i))
    ensures FileActions(e, rank, f, i, skip)
         == IncludeActions(e, rank, IncludedFile(e, LineAt(e, f, i)))
          + FileActions(e, rank, f, 0, LineNumber(e, f, i))
    ensures rank(IncludedFile(e, LineAt(e, f, i))) < rank(f)
  {
    hide *;
    var number, line := LineNumber(e, f, i), LineAt(e, f, i);
    IncludeMeans(e, line);
    LineCases(e, rank, f, i);
    FileStep(e, rank, f, i, skip);
    NumberOf(e, f, i);
    if i < LineCount(e, f) {
      SkippedStart(e, rank, f, i + 1, number);
    } else {
      SkippedStart(e, rank, f, i, number);
      SilentStep(e, rank, f, i, number);
    }
  }

  /** What `skip_lines` is after reading `f` from line `i` on: the number of the last include read, if any. */
  function SkipAfter(e: Env, f: string, i: nat, skip: nat): nat
    requires e.files(f).Some?
    decreases LineCount(e, f) - i
  {
    var line, number := LineAt(e, f, i), LineNumber(e, f, i);
    var next := if skip < number && IsInclude(e, line) then number else skip;
    if i < LineCount(e, f) then SkipAfter(e, f, i + 1, next) else next
  }

  lemma {:induction false} SkipAfterStart(e: Env, f: string, i: nat, skip: nat)
    requires e.files(f).Some? && i <= LineCount(e, f) && i < skip
    ensures SkipAfter(e, f, 0, skip) == SkipAfter(e, f, i, skip)
  {
    hide IsInclude, LineAt, LineCount;
    if i > 0 { SkipAfterStart(e, f, i - 1, skip); }
  }

  /** The three steps again, for `skip_lines`. */
  lemma SkipAfterStep(e: Env, f: string, i: nat, skip: nat)
    requires e.files(f).Some? && i <= LineCount(e, f)
    ensures var line, number := LineAt(e, f, i), LineNumber(e, f, i);
            && (number <= skip || !IsInclude(e, line) ==>
                SkipAfter(e, f, i, skip) == if i < LineCount(e, f) then SkipAfter(e, f, i + 1, skip) else skip)
            && (skip < number && IsInclude(e, line) ==>
                SkipAfter(e, f, i, skip) == SkipAfter(e, f, 0, number))
  {
    hide IsInclude, LineAt, LineCount, SkipAfter;
    var number := LineNumber(e, f, i);
    SkipAfterUnfolds(e, f, i, skip);
    if i < LineCount(e, f) {
      SkipAfterStart(e, f, i + 1, number);
    } else {
      SkipAfterStart(e, f, i, number);
      SkipAfterUnfolds(e, f, i, number);
    }
  }

  lemma SkipAfterUnfolds(e: Env, f: string, i: nat, skip: nat)
    requires e.files(f).Some?
    ensures var number := LineNumber(e, f, i);
            var next := if skip < number && IsInclude(e, LineAt(e, f, i)) then number else skip;
            SkipAfter(e, f, i, skip) == if i < LineCount(e, f) then SkipAfter(e, f, i + 1, next) else next
  {
    hide IsInclude, LineAt, LineCount, LineNumber;
  }
}
