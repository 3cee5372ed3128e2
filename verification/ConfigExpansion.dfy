/** Reading by opening again and skipping, compared with the text that has all includes expanded in place;
    and reading a second time.
  */
module ConfigExpansion {
  import opened Common
  import opened Text
  import opened ConfigText
  import opened ConfigWritten
  import opened ConfigFiles

  // ---------------------------------------------------------------------------
  // Expansion in place.

  /** A last line without a line feed right after an include is lost. */
  predicate LosesTail(e: Env, f: string)
    requires e.files(f).Some?
  {
    var n := LineCount(e, f);
    n > 0 && IsInclude(e, LineAt(e, f, n - 1))
  }

  /** Which last lines an expansion keeps. */
  datatype Tails = All | Kept

  /** The actions of a line with all includes expanded in place, at every depth. */
  ghost function LineExpansion(e: Env, rank: string -> nat, tails: Tails, f: string, line: string): seq<Action>
    requires Acyclic(e, rank) && e.files(f).Some? && IsLineOf(e.files(f).value, line)
    decreases rank(f), 0, 0
  {
    if Stripped(line) == "" then []
    else if !IsInclude(e, line) then [Meaning(e.names, Stripped(line))]
    else if e.files(IncludedFile(e, line)).None? then [Fail]
    else Expansion(e, rank, tails, IncludedFile(e, line), 0)
  }

  /** The actions of a file from line `i` on, line by line. */
  ghost function Expansion(e: Env, rank: string -> nat, tails: Tails, f: string, i: nat): seq<Action>
    requires Acyclic(e, rank) && e.files(f).Some?
    decreases rank(f), 1, LineCount(e, f) - i
  {
    if i < LineCount(e, f)
    then LineExpansion(e, rank, tails, f, LineAt(e, f, i)) + Expansion(e, rank, tails, f, i + 1)
    else if tails.Kept? && LosesTail(e, f) then []
    else LineExpansion(e, rank, tails, f, LineAt(e, f, LineCount(e, f)))
  }

  lemma ExpansionStep(e: Env, rank: string -> nat, tails: Tails, f: string, i: nat)
    requires Acyclic(e, rank) && e.files(f).Some? && i <= LineCount(e, f)
    ensures Expansion(e, rank, tails, f, i)
         == if i < LineCount(e, f)
            then LineExpansion(e, rank, tails, f, LineAt(e, f, i)) + Expansion(e, rank, tails, f, i + 1)
            else if tails.Kept? && LosesTail(e, f) then []
            else LineExpansion(e, rank, tails, f, LineAt(e, f, i))
  {
    hide Acyclic, LineAt, LineCount, LosesTail, LineExpansion;
  }

  lemma LineExpansionCases(e: Env, rank: string -> nat, tails: Tails, f: string, line: string)
    requires Acyclic(e, rank) && e.files(f).Some? && IsLineOf(e.files(f).value, line)
    ensures var actions := LineExpansion(e, rank, tails, f, line);
            && (Stripped(line) == "" ==> actions == [])
            && (Stripped(line) != "" && !IsInclude(e, line) ==> actions == [Meaning(e.names, Stripped(line))])
            && (IsInclude(e, line) ==>
                rank(IncludedFile(e, line)) < rank(f)
                && actions == if e.files(IncludedFile(e, line)).None? then [Fail]
                              else Expansion(e, rank, tails, IncludedFile(e, line), 0))
  {
    hide Stripped, Meaning, Lines, Tail, Expansion;
  }

  lemma LineActionsCases(e: Env, rank: string -> nat, f: string, line: string)
    requires Acyclic(e, rank) && e.files(f).Some? && IsLineOf(e.files(f).value, line)
    ensures var actions := LineActions(e, rank, f, line);
            && (Stripped(line) == "" ==> actions == [])
            && (Stripped(line) != "" && !IsInclude(e, line) ==> actions == [Meaning(e.names, Stripped(line))])
            && (IsInclude(e, line) ==>
                rank(IncludedFile(e, line)) < rank(f)
                && actions == if e.files(IncludedFile(e, line)).None? then [Fail]
                              else FileActions(e, rank, IncludedFile(e, line), 0, 0))
  {
    hide Stripped, Meaning, Lines, Tail, FileActions;
  }

  // ---------------------------------------------------------------------------
  // What skipping performs.

  lemma {:induction false} LinesAgree(e: Env, rank: string -> nat, f: string, line: string)
    requires Acyclic(e, rank) && e.files(f).Some? && IsLineOf(e.files(f).value, line)
    ensures LineActions(e, rank, f, line) == LineExpansion(e, rank, Kept, f, line)
    decreases rank(f), 0, 0
  {
    hide *;
    IncludeMeans(e, line);
    LineActionsCases(e, rank, f, line);
    LineExpansionCases(e, rank, Kept, f, line);
    if IsInclude(e, line) && e.files(IncludedFile(e, line)).Some? {
      FilesAgree(e, rank, IncludedFile(e, line), 0, 0);
    }
  }

  /** From line `i` on, `skip` being the number of the line before if that is an include, and lower if not. */
  lemma {:induction false} FilesAgree(e: Env, rank: string -> nat, f: string, i: nat, skip: nat)
    requires Acyclic(e, rank) && e.files(f).Some? && i <= LineCount(e, f)
    requires skip <= i + 1 && (skip == i + 1 <==> i > 0 && IsInclude(e, LineAt(e, f, i - 1)))
    ensures FileActions(e, rank, f, i, skip) == Expansion(e, rank, Kept, f, i)
    decreases rank(f), 1, LineCount(e, f) - i
  {
    hide *;
    var line := LineAt(e, f, i);
    NumberOf(e, f, i);
    FileStep(e, rank, f, i, skip);
    ExpansionStep(e, rank, Kept, f, i);
    LinesAgree(e, rank, f, line);
    if i < LineCount(e, f) {
      FilesAgree(e, rank, f, i + 1, if IsInclude(e, line) then i + 2 else skip);
    } else {
      TailLost(e, f);
    }
  }

  lemma TailLost(e: Env, f: string)
    requires e.files(f).Some?
    ensures var n := LineCount(e, f); LosesTail(e, f) <==> n > 0 && IsInclude(e, LineAt(e, f, n - 1))
  {
  }

  /** Over all files: reading by skipping performs the text with all includes expanded in place, each once and
      in order, save the last lines that are lost, in this file and in every file included at any depth.
    */
  lemma SkippingKeepsTheRest(e: Env, rank: string -> nat, f: string)
    requires Acyclic(e, rank) && e.files(f).Some?
    ensures FileActions(e, rank, f, 0, 0) == Expansion(e, rank, Kept, f, 0)
  {
    hide *;
    FilesAgree(e, rank, f, 0, 0);
  }

  // ---------------------------------------------------------------------------
  // When nothing is lost.

  /** No file reached from this line loses a last line that does something. */
  ghost predicate LineHarmless(e: Env, rank: string -> nat, f: string, line: string)
    requires Acyclic(e, rank) && e.files(f).Some? && IsLineOf(e.files(f).value, line)
    decreases rank(f), 0, 0
  {
    IsInclude(e, line) && e.files(IncludedFile(e, line)).Some? ==> Harmless(e, rank, IncludedFile(e, line), 0)
  }

  ghost predicate Harmless(e: Env, rank: string -> nat, f: string, i: nat)
    requires Acyclic(e, rank) && e.files(f).Some?
    decreases rank(f), 1, LineCount(e, f) - i
  {
    var tail := LineAt(e, f, LineCount(e, f));
    if i < LineCount(e, f) then LineHarmless(e, rank, f, LineAt(e, f, i)) && Harmless(e, rank, f, i + 1)
    else if LosesTail(e, f) then LineExpansion(e, rank, All, f, tail) == []
    else LineHarmless(e, rank, f, tail)
  }

  lemma HarmlessStep(e: Env, rank: string -> nat, f: string, i: nat)
    requires Acyclic(e, rank) && e.files(f).Some? && i <= LineCount(e, f)
    ensures Harmless(e, rank, f, i)
       <==> if i < LineCount(e, f) then LineHarmless(e, rank, f, LineAt(e, f, i)) && Harmless(e, rank, f, i + 1)
            else if LosesTail(e, f) then LineExpansion(e, rank, All, f, LineAt(e, f, i)) == []
            else LineHarmless(e, rank, f, LineAt(e, f, i))
  {
    hide Acyclic, LineAt, LineCount, LosesTail, LineExpansion, LineHarmless;
  }

  lemma LineHarmlessCases(e: Env, rank: string -> nat, f: string, line: string)
    requires Acyclic(e, rank) && e.files(f).Some? && IsLineOf(e.files(f).value, line)
    ensures LineHarmless(e, rank, f, line)
       <==> (IsInclude(e, line) && e.files(IncludedFile(e, line)).Some? ==> Harmless(e, rank, IncludedFile(e, line), 0))
  {
    hide Stripped, Meaning, Lines, Tail, Harmless;
  }

  /** What is kept is no longer than the whole, and equal to it exactly if nothing is lost. */
  ghost predicate Shortened(kept: seq<Action>, whole: seq<Action>, harmless: bool) {
    |kept| <= |whole| && (|kept| == |whole| <==> harmless) && (harmless ==> kept == whole)
  }

  lemma ShortenedBoth(a: seq<Action>, b: seq<Action>, p: bool, c: seq<Action>, d: seq<Action>, q: bool)
    requires Shortened(a, b, p) && Shortened(c, d, q)
    ensures Shortened(a + c, b + d, p && q)
  {
  }

  lemma SameShortened(a: seq<Action>)
    ensures Shortened(a, a, true) && Shortened([], a, a == [])
  {
  }

  lemma ShortenedIff(a: seq<Action>, b: seq<Action>, p: bool)
    requires Shortened(a, b, p)
    ensures a == b <==> p
  {
  }

  lemma {:induction false} LineShortened(e: Env, rank: string -> nat, f: string, line: string)
    requires Acyclic(e, rank) && e.files(f).Some? && IsLineOf(e.files(f).value, line)
    ensures Shortened(LineExpansion(e, rank, Kept, f, line), LineExpansion(e, rank, All, f, line),
                      LineHarmless(e, rank, f, line))
    decreases rank(f), 0, 0
  {
    hide *;
    IncludeMeans(e, line);
    LineExpansionCases(e, rank, Kept, f, line);
    LineExpansionCases(e, rank, All, f, line);
    LineHarmlessCases(e, rank, f, line);
    if IsInclude(e, line) && e.files(IncludedFile(e, line)).Some? {
      FileShortened(e, rank, IncludedFile(e, line), 0);
    } else {
      SameShortened(LineExpansion(e, rank, All, f, line));
    }
  }

  lemma {:induction false} FileShortened(e: Env, rank: string -> nat, f: string, i: nat)
    requires Acyclic(e, rank) && e.files(f).Some? && i <= LineCount(e, f)
    ensures Shortened(Expansion(e, rank, Kept, f, i), Expansion(e, rank, All, f, i), Harmless(e, rank, f, i))
    decreases rank(f), 1, LineCount(e, f) - i
  {
    hide *;
    var line := LineAt(e, f, i);
    ExpansionStep(e, rank, Kept, f, i);
    ExpansionStep(e, rank, All, f, i);
    HarmlessStep(e, rank, f, i);
    if i < LineCount(e, f) {
      LineShortened(e, rank, f, line);
      FileShortened(e, rank, f, i + 1);
      ShortenedBoth(LineExpansion(e, rank, Kept, f, line), LineExpansion(e, rank, All, f, line), LineHarmless(e, rank, f, line),
                    Expansion(e, rank, Kept, f, i + 1), Expansion(e, rank, All, f, i + 1), Harmless(e, rank, f, i + 1));
    } else if LosesTail(e, f) {
      SameShortened(LineExpansion(e, rank, All, f, line));
    } else {
      LineShortened(e, rank, f, line);
    }
  }

  /** Reading by skipping is expansion in place exactly if no file that is reached loses, right after an include,
      a last line that does something.
    */
  lemma SkippingIsInPlace(e: Env, rank: string -> nat, f: string)
    requires Acyclic(e, rank) && e.files(f).Some?
    ensures FileActions(e, rank, f, 0, 0) == Expansion(e, rank, All, f, 0) <==> Harmless(e, rank, f, 0)
  {
    hide *;
    SkippingKeepsTheRest(e, rank, f);
    FileShortened(e, rank, f, 0);
    ShortenedIff(Expansion(e, rank, Kept, f, 0), Expansion(e, rank, All, f, 0), Harmless(e, rank, f, 0));
  }

  // ---------------------------------------------------------------------------
  // Reading a second time.

  /** Line `i` is looked at when the file is read from its start. */
  predicate Seen(e: Env, f: string, i: nat)
    requires e.files(f).Some?
  {
    i < LineCount(e, f) || (i == LineCount(e, f) && !LosesTail(e, f))
  }

  /** `skip_lines` when line `i` is looked at: the number of the last include before it, or 0. */
  function SkipAt(e: Env, f: string, i: nat): nat
    requires e.files(f).Some?
  {
    if i == 0 then 0 else if IsInclude(e, LineAt(e, f, i - 1)) then i + 1 else SkipAt(e, f, i - 1)
  }

  /** The actions of the lines before line `i`. */
  ghost function Before(e: Env, rank: string -> nat, f: string, i: nat): seq<Action>
    requires Acyclic(e, rank) && e.files(f).Some?
  {
    if i == 0 then [] else Before(e, rank, f, i - 1) + LineActions(e, rank, f, LineAt(e, f, i - 1))
  }

  lemma {:induction false} SkipAtIs(e: Env, f: string, i: nat)
    requires e.files(f).Some?
    ensures SkipAt(e, f, i) <= i + 1 && SkipAt(e, f, i) != 1
    ensures SkipAt(e, f, i) == i + 1 <==> i > 0 && IsInclude(e, LineAt(e, f, i - 1))
    ensures forall k :: 0 <= k < i && IsInclude(e, LineAt(e, f, k)) ==> k + 2 <= SkipAt(e, f, i)
    ensures SkipAt(e, f, i) != 0 ==>
            var j := SkipAt(e, f, i) - 2; IsInclude(e, LineAt(e, f, j)) && SkipAt(e, f, j + 1) == SkipAt(e, f, i)
  {
    hide IsInclude, LineAt;
    if i > 0 { SkipAtIs(e, f, i - 1); }
  }

  lemma {:induction false} FirstReading(e: Env, rank: string -> nat, f: string, i: nat)
    requires Acyclic(e, rank) && e.files(f).Some? && i <= LineCount(e, f)
    ensures FileActions(e, rank, f, 0, 0) == Before(e, rank, f, i) + FileActions(e, rank, f, i, SkipAt(e, f, i))
    ensures SkipAfter(e, f, 0, 0) == SkipAfter(e, f, i, SkipAt(e, f, i))
  {
    hide *;
    if i == 0 {
      NothingBefore(e, rank, f);
    } else {
      var k, skip := i - 1, SkipAt(e, f, i - 1);
      FirstReading(e, rank, f, k);
      SkipAtIs(e, f, k);
      SkipAtMore(e, f, k);
      NumberOf(e, f, k);
      FileStep(e, rank, f, k, skip);
      SkipAfterUnfolds(e, f, k, skip);
      BeforeMore(e, rank, f, k);
      Joined(Before(e, rank, f, k), LineActions(e, rank, f, LineAt(e, f, k)), FileActions(e, rank, f, i, SkipAt(e, f, i)));
    }
  }

  lemma Joined(a: seq<Action>, b: seq<Action>, c: seq<Action>)
    ensures a + (b + c) == (a + b) + c
  {
  }

  lemma SkipAtMore(e: Env, f: string, i: nat)
    requires e.files(f).Some?
    ensures SkipAt(e, f, i + 1) == if IsInclude(e, LineAt(e, f, i)) then i + 2 else SkipAt(e, f, i)
  {
    hide IsInclude, LineAt;
  }

  lemma {:induction false} BeforeEmpty(e: Env, rank: string -> nat, f: string, i: nat)
    requires Acyclic(e, rank) && e.files(f).Some?
    ensures Before(e, rank, f, i) == [] <==> forall k :: 0 <= k < i ==> LineActions(e, rank, f, LineAt(e, f, k)) == []
  {
    hide *;
    if i == 0 {
      NothingBefore(e, rank, f);
    } else {
      BeforeEmpty(e, rank, f, i - 1);
      BeforeMore(e, rank, f, i - 1);
    }
  }

  /** The last include that is looked at, if there is one, is line `n - 1`, and a second reading performs what
      comes after it.
    */
  ghost predicate DoneBefore(e: Env, rank: string -> nat, f: string, n: nat)
    requires Acyclic(e, rank) && e.files(f).Some?
  {
    && (n > 0 ==> Seen(e, f, n - 1) && IsInclude(e, LineAt(e, f, n - 1)))
    && (forall j :: n <= j && Seen(e, f, j) ==> !IsInclude(e, LineAt(e, f, j)))
    && FileActions(e, rank, f, 0, 0)
       == Before(e, rank, f, n) + FileActions(e, rank, f, 0, SkipAfter(e, f, 0, 0))
  }

  lemma LastLine(e: Env, rank: string -> nat, f: string)
    requires Acyclic(e, rank) && e.files(f).Some?
    ensures var n := LineCount(e, f);
            var skip := SkipAt(e, f, n);
            && (LosesTail(e, f) <==> skip == n + 1)
            && (skip <= n && IsInclude(e, LineAt(e, f, n)) ==>
                SkipAfter(e, f, n, skip) == n + 1 && FileActions(e, rank, f, n, n + 1) == []
                && FileActions(e, rank, f, n, skip) == LineActions(e, rank, f, LineAt(e, f, n)))
            && (skip == n + 1 || !IsInclude(e, LineAt(e, f, n)) ==> SkipAfter(e, f, n, skip) == skip)
  {
    hide *;
    var n := LineCount(e, f);
    var skip := SkipAt(e, f, n);
    SkipAtIs(e, f, n);
    TailLost(e, f);
    NumberOf(e, f, n);
    SkipAfterUnfolds(e, f, n, skip);
    FileStep(e, rank, f, n, skip);
    FileStep(e, rank, f, n, n + 1);
  }

  lemma SecondReading(e: Env, rank: string -> nat, f: string)
    requires Acyclic(e, rank) && e.files(f).Some?
    ensures exists n :: DoneBefore(e, rank, f, n)
  {
    hide FileActions, SkipAfter, IsInclude, LineAt, LineCount, Acyclic, LineActions, Before, SkipAt, LosesTail;
    var n := LineCount(e, f);
    var skip := SkipAt(e, f, n);
    LastLine(e, rank, f);
    SkipAtIs(e, f, n);
    FirstReading(e, rank, f, n);
    if skip <= n && IsInclude(e, LineAt(e, f, n)) {
      SkippedStart(e, rank, f, n, n + 1);
      BeforeMore(e, rank, f, n);
      assert DoneBefore(e, rank, f, n + 1);
    } else if skip == 0 {
      NothingBefore(e, rank, f);
      assert DoneBefore(e, rank, f, 0);
    } else {
      FirstReading(e, rank, f, skip - 1);
      SkippedStart(e, rank, f, skip - 1, skip);
      assert DoneBefore(e, rank, f, skip - 1);
    }
  }

  lemma BeforeMore(e: Env, rank: string -> nat, f: string, n: nat)
    requires Acyclic(e, rank) && e.files(f).Some?
    ensures Before(e, rank, f, n + 1) == Before(e, rank, f, n) + LineActions(e, rank, f, LineAt(e, f, n))
  {
  }

  lemma NothingBefore(e: Env, rank: string -> nat, f: string)
    requires Acyclic(e, rank) && e.files(f).Some?
    ensures Before(e, rank, f, 0) == [] && SkipAt(e, f, 0) == 0
  {
  }

  /** A second `read()`, with the `skip_lines` that the first one leaves, performs the same actions exactly if
      nothing up to and including the last include has any. (The header promises a re-read.)
    */
  lemma RereadIsWhole(e: Env, rank: string -> nat, f: string)
    requires Acyclic(e, rank) && e.files(f).Some?
    ensures FileActions(e, rank, f, 0, SkipAfter(e, f, 0, 0)) == FileActions(e, rank, f, 0, 0)
       <==> forall k, j :: 0 <= k <= j && Seen(e, f, j) && IsInclude(e, LineAt(e, f, j))
                           ==> LineActions(e, rank, f, LineAt(e, f, k)) == []
  {
    hide FileActions, SkipAfter, IsInclude, LineAt, Acyclic, LineActions, Before, Seen;
    SecondReading(e, rank, f);
    var n :| DoneBefore(e, rank, f, n);
    BeforeEmpty(e, rank, f, n);
    var again := FileActions(e, rank, f, 0, SkipAfter(e, f, 0, 0));
    assert again == Before(e, rank, f, n) + again <==> Before(e, rank, f, n) == [];
  }

  // ---------------------------------------------------------------------------
  // Two files for which these fail.

  const EMPTY := "empty"
  const MAIN := "main"
  const INCLUDE_LINE := INCLUDE + " " + EMPTY
  const SET_LINE := "x" + " " + "1"
  const SET := SetString("x", "1")

  /** A file that may include an empty one. */
  function TwoFiles(text: string): Env {
    Env(f => if f == MAIN then Some(text) else if f == EMPTY then Some("") else None, "", Names({"x"}, {}, {}))
  }

  function MainFirst(): string -> nat { f => if f == MAIN then 1 else 0 }

  lemma ExampleLines(text: string)
    ensures Without(INCLUDE_LINE, {CR, LF}) && Without(SET_LINE, {CR, LF})
    ensures Stripped(SET_LINE) != "" && Meaning(TwoFiles(text).names, Stripped(SET_LINE)) == SET
    ensures IsInclude(TwoFiles(text), INCLUDE_LINE) && IncludedFile(TwoFiles(text), INCLUDE_LINE) == EMPTY
    ensures !IsInclude(TwoFiles(text), SET_LINE) && !IsInclude(TwoFiles(text), "") && Stripped("") == ""
  {
    hide Stripped, Word, TrimLeft, CString, FieldLength;
    var e := TwoFiles(text);
    LineStripped(INCLUDE, EMPTY);
    LineKeepsKey(INCLUDE, EMPTY);
    LineStripped("x", "1");
    LineKeepsKey("x", "1");
    NoLines();
    IncludeMeans(e, INCLUDE_LINE);
    IncludeMeans(e, SET_LINE);
    IncludeMeans(e, "");
  }

  lemma EmptyFile(text: string)
    requires Acyclic(TwoFiles(text), MainFirst())
    ensures FileActions(TwoFiles(text), MainFirst(), EMPTY, 0, 0) == []
    ensures Expansion(TwoFiles(text), MainFirst(), All, EMPTY, 0) == []
  {
    hide *;
    var e, rank := TwoFiles(text), MainFirst();
    Example(text);
    ExampleLines(text);
    NoLines();
    NumberOf(e, EMPTY, 0);
    SilentStep(e, rank, EMPTY, 0, 0);
    ExpansionStep(e, rank, All, EMPTY, 0);
    LineExpansionCases(e, rank, All, EMPTY, LineAt(e, EMPTY, 0));
  }

  lemma Example(text: string)
    ensures TwoFiles(text).files(MAIN) == Some(text) && TwoFiles(text).files(EMPTY) == Some("")
    ensures MainFirst()(MAIN) == 1 && MainFirst()(EMPTY) == 0
  {
  }

  /** The first file: an include, and a last line without a line feed. */
  const LOSING := INCLUDE_LINE + [LF] + SET_LINE

  /** The second file: an include after a line that does something. */
  const REREAD := SET_LINE + [LF] + (INCLUDE_LINE + [LF] + "")

  lemma LosingLines()
    ensures var e := TwoFiles(LOSING);
            LineCount(e, MAIN) == 1 && LineAt(e, MAIN, 0) == INCLUDE_LINE && LineAt(e, MAIN, 1) == SET_LINE
    ensures Acyclic(TwoFiles(LOSING), MainFirst())
  {
    hide Stripped, Meaning, FirstLine, HasLine;
    ExampleLines(LOSING);
    LineFirst(INCLUDE_LINE, SET_LINE);
    OnlyTail(SET_LINE);
    ExampleAcyclic(LOSING);
  }

  lemma RereadLines()
    ensures var e := TwoFiles(REREAD);
            LineCount(e, MAIN) == 2 && LineAt(e, MAIN, 0) == SET_LINE && LineAt(e, MAIN, 1) == INCLUDE_LINE
            && LineAt(e, MAIN, 2) == ""
    ensures Acyclic(TwoFiles(REREAD), MainFirst())
  {
    hide Stripped, Meaning, FirstLine, HasLine;
    ExampleLines(REREAD);
    LineFirst(SET_LINE, INCLUDE_LINE + [LF] + "");
    LineFirst(INCLUDE_LINE, "");
    OnlyTail("");
    ExampleAcyclic(REREAD);
  }

  lemma OnlyTail(line: string)
    requires Without(line, {CR, LF})
    ensures Lines(line) == [] && Tail(line) == line
  {
    assert line[..|line|] == line;
    FieldLengthIs(line, |line|, {LF});
    NoCRNothing(line);
  }

  lemma ExampleAcyclic(text: string)
    requires forall line :: IsLineOf(text, line) ==> line == INCLUDE_LINE || line == SET_LINE || line == ""
    ensures Acyclic(TwoFiles(text), MainFirst())
  {
    hide Stripped, Meaning, Lines, Tail, IsInclude, IncludedFile;
    var e, rank := TwoFiles(text), MainFirst();
    ExampleLines(text);
    OnlyTail("");
    forall f, line | e.files(f).Some? && IsLineOf(e.files(f).value, line) && IsInclude(e, line)
      ensures rank(IncludedFile(e, line)) < rank(f)
    {
    }
  }

  /** Expanded in place the first file sets a variable; the program loses that line. */
  lemma TailIsLost()
    ensures var e, rank := TwoFiles(LOSING), MainFirst();
            && Acyclic(e, rank) && e.files(MAIN) == Some(LOSING)
            && Expansion(e, rank, All, MAIN, 0) == [SET] && FileActions(e, rank, MAIN, 0, 0) == []
  {
    hide *;
    var e, rank := TwoFiles(LOSING), MainFirst();
    Example(LOSING);
    ExampleLines(LOSING);
    LosingLines();
    EmptyFile(LOSING);
    TailLost(e, MAIN);
    LineExpansionCases(e, rank, All, MAIN, INCLUDE_LINE);
    LineExpansionCases(e, rank, All, MAIN, SET_LINE);
    LineActionsCases(e, rank, MAIN, INCLUDE_LINE);
    ExpansionStep(e, rank, All, MAIN, 0);
    ExpansionStep(e, rank, All, MAIN, 1);
    NumberOf(e, MAIN, 0);
    NumberOf(e, MAIN, 1);
    FileStep(e, rank, MAIN, 0, 0);
    FileStep(e, rank, MAIN, 1, 2);
  }

  /** The first reading of the second file sets a variable; the second one does not, as `skip_lines` stays
      behind.
    */
  lemma RereadSkips()
    ensures var e, rank := TwoFiles(REREAD), MainFirst();
            && Acyclic(e, rank) && e.files(MAIN) == Some(REREAD)
            && FileActions(e, rank, MAIN, 0, 0) == [SET] && SkipAfter(e, MAIN, 0, 0) == 3
            && FileActions(e, rank, MAIN, 0, 3) == []
  {
    hide *;
    var e, rank := TwoFiles(REREAD), MainFirst();
    Example(REREAD);
    ExampleLines(REREAD);
    RereadLines();
    EmptyFile(REREAD);
    LineActionsCases(e, rank, MAIN, SET_LINE);
    LineActionsCases(e, rank, MAIN, INCLUDE_LINE);
    NumberOf(e, MAIN, 0);
    NumberOf(e, MAIN, 1);
    NumberOf(e, MAIN, 2);
    FileStep(e, rank, MAIN, 0, 0);
    FileStep(e, rank, MAIN, 1, 0);
    FileStep(e, rank, MAIN, 2, 3);
    SkippedStart(e, rank, MAIN, 2, 3);
    SkipAfterUnfolds(e, MAIN, 0, 0);
    SkipAfterUnfolds(e, MAIN, 1, 0);
    SkipAfterUnfolds(e, MAIN, 2, 3);
  }
}
