/** One line of a configuration file, common/conf-parser.cpp: how lines are cut out of a file, stripped and
    understood.
  */
module ConfigText {
  import opened Common
  import opened Text

  const LF := '\n'
  const CR := '\r'
  const HASH := '#'
  const NUL := 0 as char
  const INCLUDE := "!include"

  // ---------------------------------------------------------------------------
  // Lines.

  function NoCR(s: string): (r: string)
    ensures |r| <= |s| && CR !in r
  {
    if s == "" then "" else (if s[0] == CR then "" else [s[0]]) + NoCR(s[1..])
  }

  lemma {:induction false} NoCRMore(s: string, c: char)
    ensures NoCR(s + [c]) == NoCR(s) + if c == CR then "" else [c]
  {
    if s == "" {
      assert ("" + [c])[1..] == "";
    } else {
      assert (s + [c])[1..] == s[1..] + [c];
      NoCRMore(s[1..], c);
    }
  }

  lemma {:induction false} NoCRNothing(s: string)
    requires CR !in s
    ensures NoCR(s) == s
  {
    if s != "" { NoCRNothing(s[1..]); }
  }

  function FirstLine(text: string): string { NoCR(text[..FieldLength(text, {LF})]) }

  predicate HasLine(text: string) { FieldLength(text, {LF}) < |text| }

  function AfterLine(text: string): (r: string)
    requires HasLine(text)
    ensures |r| < |text|
  {
    text[FieldLength(text, {LF}) + 1..]
  }

  /** The lines that end in a line feed. */
  function Lines(text: string): seq<string>
    decreases |text|
  {
    if HasLine(text) then [FirstLine(text)] + Lines(AfterLine(text)) else []
  }

  /** What follows the last line feed. */
  function Tail(text: string): string
    decreases |text|
  {
    if HasLine(text) then Tail(AfterLine(text)) else FirstLine(text)
  }

  // ---------------------------------------------------------------------------
  // `line_strip`.

  /** The line without leading blanks, without comment, and without one blank at its end: of a run of blanks
      before a comment or the end of the line only one is removed.
    */
  function Stripped(line: string): string {
    var l := TrimLeft(line);
    CutBlank(l[..FieldLength(l, {HASH})])
  }

  function CutBlank(s: string): (r: string)
    ensures r <= s
  {
    if s != "" && IsBlank(s[|s| - 1]) then s[..|s| - 1] else s
  }

  lemma TrimLeftStep(s: string)
    requires s != "" && IsBlank(s[0])
    ensures TrimLeft(s) == TrimLeft(s[1..])
  {
  }

  method LineStrip(s: string) returns (line: string)
    ensures line == Stripped(s)
  {
    hide Stripped, TrimLeft, FieldLength, CutBlank;
    line := s;
    var textStarted := false;
    var truncFrom := -1;
    var i := 0;
    var comment := false;
    while i < |line| && !comment
      invariant i <= |line| && TrimLeft(line) == TrimLeft(s)
      invariant !textStarted ==> i == 0 && (comment || truncFrom == -1)
      invariant textStarted ==> i > 0 && !IsBlank(line[0])
      invariant textStarted && !comment ==> truncFrom == if IsBlank(line[i - 1]) then i - 1 else -1
      invariant forall k :: 0 <= k < i ==> line[k] != HASH
      invariant comment ==> i < |line| && line[i] == HASH
      invariant comment ==> truncFrom == if i > 0 && IsBlank(line[i - 1]) then i - 1 else i
      decreases |line|, |line| - i, !comment
    {
      var delim := IsBlank(line[i]);
      if !textStarted && delim {
        TrimLeftStep(line);
        line := line[1..];
      } else if line[i] == HASH {
        if truncFrom == -1 { truncFrom := i; }
        comment := true;
      } else {
        if !delim {
          textStarted := true;
          truncFrom := -1;
        }
        if textStarted && delim { truncFrom := i; }
        i := i + 1;
      }
    }
    StrippedAt(s, line, i);
    if truncFrom == 0 {
      line := "";
    } else if truncFrom != -1 {
      line := line[..truncFrom];
    }
  }

  /** Where the loop of `line_strip` stops. */
  lemma StrippedAt(s: string, line: string, i: nat)
    requires i <= |line| && TrimLeft(line) == TrimLeft(s)
    requires line == "" || !IsBlank(line[0])
    requires forall k :: 0 <= k < i ==> line[k] != HASH
    requires i < |line| ==> line[i] == HASH
    ensures Stripped(s) == if i > 0 && IsBlank(line[i - 1]) then line[..i - 1] else line[..i]
  {
    hide FieldLength;
    assert Without(line[..i], {HASH});
    FieldLengthIs(line, i, {HASH});
    assert TrimLeft(line) == line;
    var body := line[..i];
    assert i > 0 ==> body[i - 1] == line[i - 1];
    assert i > 0 ==> body[..i - 1] == line[..i - 1];
  }

  // ---------------------------------------------------------------------------
  // What a line says.

  /** The names that are bound to variables, by type. */
  datatype Names = Names(strings: set<string>, ints: set<string>, bools: set<string>)

  datatype Action =
    | SetString(key: string, value: string)
    | SetInt(key: string, number: int)
    | SetBool(key: string, flag: Flag)
    | Leave
    | Include(name: string)
    | Fail

  function CString(s: string): string { s[..FieldLength(s, {NUL})] }

  function SkipSpace(s: string): (r: string)
    ensures |r| <= |s| && (r != "" ==> !IsSpace(r[0]))
  {
    if s != "" && IsSpace(s[0]) then SkipSpace(s[1..]) else s
  }

  function WordLength(s: string): (n: nat)
    ensures n <= |s| && (n < |s| ==> IsSpace(s[n])) && forall i :: 0 <= i < n ==> !IsSpace(s[i])
  {
    if s == "" || IsSpace(s[0]) then 0 else 1 + WordLength(s[1..])
  }

  /** What `sscanf` with `%s` reads; empty if it reads nothing. */
  function Word(s: string): (w: string)
    ensures |w| <= |s|
  {
    var t := SkipSpace(CString(s));
    t[..WordLength(t)]
  }

  /** The meaning of a stripped line that is not empty. A key that stands alone sets a string to nothing and
      a flag to true; a name that is bound twice is looked up as a string first, then as a number, then as
      the include command and last as a flag.
    */
  function Meaning(names: Names, line: string): Action {
    var key := Word(line);
    if key == "" then Fail
    else if |key| >= |line| then
      if key in names.strings then SetString(key, "") else if key in names.bools then SetBool(key, On) else Fail
    else
      var value := TrimLeft(CString(line[|key|..]));
      if key in names.strings then SetString(key, value)
      else if key in names.ints then SetInt(key, Atoi(value))
      else if key == INCLUDE then Include(value)
      else if key in names.bools then
        if value in ["0", "false", "off"] then SetBool(key, Off)
        else if value in ["1", "true", "on"] then SetBool(key, On)
        else Leave
      else Fail
  }

  /** The variables bound to a parser, by name. */
  datatype Settings = Settings(strings: map<string, string>, ints: map<string, int>, bools: map<string, Flag>)

  function Applied(s: Settings, a: Action): Settings {
    match a
    case SetString(key, value) => s.(strings := s.strings[key := value])
    case SetInt(key, number) => s.(ints := s.ints[key := number])
    case SetBool(key, flag) => s.(bools := s.bools[key := flag])
    case Leave => s
    case Include(_) => s
    case Fail => s
  }
}
