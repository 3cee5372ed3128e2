/** The text that `ConfigParser::write` of common/conf-parser.cpp prints, and its lines as `read` sees them. */
module ConfigWritten {
  import opened Common
  import opened Text
  import opened ConfigText

  function ValueOf(a: Action): string {
    match a
    case SetString(_, value) => CString(value)
    case SetInt(_, number) => Decimal(number)
    case SetBool(_, flag) => if flag.On? then "1" else "0"
    case _ => ""
  }

  predicate IsSetting(a: Action) { a.SetString? || a.SetInt? || a.SetBool? }

  /** The line that `write` prints for a variable. */
  function LineOf(a: Action): string
    requires IsSetting(a)
  {
    CString(a.key) + " " + ValueOf(a)
  }

  lemma LineOfIs(a: Action)
    requires IsSetting(a)
    ensures LineOf(a)
         == CString(a.key) + " "
          + match a {
              case SetString(_, value) => CString(value)
              case SetInt(_, number) => Decimal(number)
              case SetBool(_, flag) => if flag.On? then "1" else "0"
            }
  {
    hide CString, Decimal;
  }

  predicate AreSettings(actions: seq<Action>) { forall i :: 0 <= i < |actions| ==> IsSetting(actions[i]) }

  function Written(actions: seq<Action>): string
    requires AreSettings(actions)
  {
    if actions == [] then "" else LineOf(actions[0]) + [LF] + Written(actions[1..])
  }

  lemma {:induction false} WrittenMore(actions: seq<Action>, a: Action)
    requires AreSettings(actions) && IsSetting(a)
    ensures AreSettings(actions + [a]) && Written(actions + [a]) == Written(actions) + LineOf(a) + [LF]
    decreases |actions|
  {
    hide LineOf;
    if actions == [] {
      assert ([] + [a])[1..] == [];
    } else {
      assert (actions + [a])[1..] == actions[1..] + [a];
      WrittenMore(actions[1..], a);
    }
  }

  // ---------------------------------------------------------------------------
  // One line.

  predicate IsKey(key: string) { key != "" && forall i :: 0 <= i < |key| ==> !IsSpace(key[i]) && key[i] !in {HASH, NUL} }

  predicate IsValue(value: string) {
    && Without(value, {HASH, NUL, CR, LF})
    && (value != "" ==> !IsBlank(value[0]) && !IsBlank(value[|value| - 1]))
  }

  lemma CStringWhole(s: string)
    requires Without(s, {NUL})
    ensures CString(s) == s
  {
    assert s[..|s|] == s;
    FieldLengthIs(s, |s|, {NUL});
  }

  lemma {:induction false} WordLengthIs(s: string, n: nat)
    requires n <= |s| && (forall i :: 0 <= i < n ==> !IsSpace(s[i])) && (n < |s| ==> IsSpace(s[n]))
    ensures WordLength(s) == n
  {
    if n > 0 { WordLengthIs(s[1..], n - 1); }
  }

  lemma LineStripped(key: string, value: string)
    requires IsKey(key) && IsValue(value)
    ensures var line := key + " " + value;
            Without(line, {HASH, NUL, CR, LF}) && Stripped(line) == if value == "" then key else line
  {
    hide FieldLength;
    var line := key + " " + value;
    forall i | 0 <= i < |line| ensures line[i] !in {HASH, NUL, CR, LF} {
      if i > |key| { assert line[i] == value[i - |key| - 1]; }
    }
    assert line[..|line|] == line;
    FieldLengthIs(line, |line|, {HASH});
    assert TrimLeft(line) == line;
    assert value != "" ==> line[|line| - 1] == value[|value| - 1];
    assert value == "" ==> line[..|line| - 1] == key;
  }

  /** A key and a value come back from their line; the blank after a key without a value is stripped. */
  lemma LineKeepsKey(key: string, value: string)
    requires IsKey(key) && IsValue(value)
    ensures var line := key + " " + value;
            && Word(Stripped(line)) == key
            && (value != "" ==> TrimLeft(CString(line[|key|..])) == value)
  {
    hide Stripped, CString, FieldLength;
    var line := key + " " + value;
    LineStripped(key, value);
    var stripped := Stripped(line);
    CStringWhole(stripped);
    WordLengthIs(stripped, |key|);
    assert stripped[..|key|] == key;
    var rest := line[|key|..];
    assert rest == " " + value && rest[1..] == value;
    CStringWhole(rest);
  }

  /** Written so that reading can bring it back: names without white space or `#` that are looked up in the
      right place, and strings that a line can hold.
    */
  predicate Writable(a: Action, names: Names) {
    && IsSetting(a) && IsKey(a.key)
    && (a.SetString? ==> a.key in names.strings && IsValue(a.value))
    && (a.SetInt? ==> a.key in names.ints && a.key !in names.strings)
    && (a.SetBool? ==> a.key in names.bools && a.key !in names.strings && a.key !in names.ints && a.key != INCLUDE)
  }

  lemma ValueReadable(a: Action, names: Names)
    requires Writable(a, names)
    ensures CString(a.key) == a.key != "" && IsValue(ValueOf(a)) && (!a.SetString? ==> ValueOf(a) != "")
    ensures a.SetBool? ==> ValueOf(a) == if a.flag.On? then "1" else "0"
    ensures a.SetString? ==> ValueOf(a) == a.value
    ensures a.SetInt? ==> Atoi(ValueOf(a)) == a.number
  {
    hide CString, Decimal;
    CStringWhole(a.key);
    if a.SetString? { CStringWhole(a.value); }
    if a.SetInt? { AtoiRoundTrip(a.number); }
  }

  /** The line of a writable setting means that setting. */
  lemma LineMeans(a: Action, names: Names)
    requires Writable(a, names)
    ensures Without(LineOf(a), {CR, LF}) && Stripped(LineOf(a)) != "" && Meaning(names, Stripped(LineOf(a))) == a
  {
    hide Stripped, CString, IsValue, IsKey, ValueOf, Word, TrimLeft, Atoi, Decimal;
    ValueReadable(a, names);
    var value := ValueOf(a);
    LineStripped(a.key, value);
    LineKeepsKey(a.key, value);
  }

  /** What a line with a key and a value says, in the words of the file: which variable is set, and to what.  The
      words for the two values of a flag are three each, in small letters; any other word leaves it alone. */
  lemma WordsOfALine(names: Names, key: string, value: string)
    requires IsKey(key) && IsValue(value) && value != ""
    ensures var a := Meaning(names, Stripped(key + " " + value));
      && (key in names.strings ==> a == SetString(key, value))
      && (key !in names.strings && key in names.ints ==> a == SetInt(key, Atoi(value)))
      && (key !in names.strings && key !in names.ints && key == INCLUDE ==> a == Include(value))
    ensures key !in names.strings && key !in names.ints && key != INCLUDE ==>
      var a := Meaning(names, Stripped(key + " " + value));
      && (a == SetBool(key, On) <==> key in names.bools && (value == "1" || value == "true" || value == "on"))
      && (a == SetBool(key, Off) <==> key in names.bools && (value == "0" || value == "false" || value == "off"))
      && (a == Fail <==> key !in names.bools)
      && (a.SetBool? || a == Leave || a == Fail)
  {
    hide Stripped, CString, Word, TrimLeft, Atoi, Without;
    LineStripped(key, value);
    LineKeepsKey(key, value);
  }

  /** A key that stands alone. */
  lemma KeyAlone(names: Names, key: string)
    requires IsKey(key)
    ensures Meaning(names, Stripped(key + " "))
         == if key in names.strings then SetString(key, "") else if key in names.bools then SetBool(key, On) else Fail
  {
    hide Stripped, CString, Word;
    assert key + " " + "" == key + " ";
    LineStripped(key, "");
    LineKeepsKey(key, "");
  }

  lemma StrippedShape(line: string)
    requires line != "" && !IsBlank(line[0])
    ensures Stripped(line) <= line
    ensures Stripped(line) == line ==> Without(line, {HASH}) && !IsBlank(line[|line| - 1])
  {
    assert TrimLeft(line) == line;
    var n := FieldLength(line, {HASH});
    assert line[..n] <= line;
  }

  /** Blanks skipped and the C string ended, nothing of " " + `value` is missing only if it is clean. */
  lemma NothingSkipped(value: string)
    requires TrimLeft(CString(" " + value)) == value
    ensures Without(value, {NUL}) && (value != "" ==> !IsBlank(value[0]))
  {
    var s := " " + value;
    var n := FieldLength(s, {NUL});
    assert n > 0;
    assert TrimLeft(s[..n]) == TrimLeft(s[..n][1..]);
    assert n == |s|;
    assert forall i :: 0 <= i < |value| ==> s[i + 1] == value[i];
  }

  lemma TrimLeftShorter(s: string)
    requires s != "" && s[0] == ' '
    ensures |TrimLeft(CString(s))| < |s|
  {
    var t := CString(s);
    if t != "" { assert TrimLeft(t) == TrimLeft(t[1..]); }
  }

  lemma KeyStart(key: string)
    requires IsKey(key)
    ensures !IsBlank(key[0])
  {
    assert !IsSpace(key[0]);
  }

  lemma CStringShort(s: string)
    ensures CString(s) <= s
  {
    hide FieldLength;
  }

  lemma BackOnlyIfValue(key: string, value: string, names: Names)
    requires IsKey(key) && key in names.strings && Without(value, {CR, LF}) && value != ""
    requires Meaning(names, Stripped(LineOf(SetString(key, value)))) == SetString(key, value)
    ensures IsValue(value)
  {
    hide Stripped, CString, Word, TrimLeft, FieldLength, Atoi, IsBlank;
    var line := LineOf(SetString(key, value));
    CStringWhole(key);
    KeyStart(key);
    StrippedShape(line);
    var stripped := Stripped(line);
    var rest := stripped[|key|..];
    assert value == TrimLeft(CString(rest));
    assert rest[0] == ' ';
    TrimLeftShorter(rest);
    CStringShort(value);
    assert stripped == line && CString(value) == value;
    assert rest == " " + value;
    NothingSkipped(value);
    assert line[|line| - 1] == value[|value| - 1];
    forall i | 0 <= i < |value| ensures value[i] !in {HASH, NUL, CR, LF} { assert line[|key| + 1 + i] == value[i]; }
  }

  /** A string that fits in a line comes back exactly if it has no `#`, no NUL and no blank at either end. */
  lemma StringComesBack(key: string, value: string, names: Names)
    requires IsKey(key) && key in names.strings && Without(value, {CR, LF})
    ensures Meaning(names, Stripped(LineOf(SetString(key, value)))) == SetString(key, value) <==> IsValue(value)
  {
    hide LineOf, Stripped, Meaning;
    if IsValue(value) {
      LineMeans(SetString(key, value), names);
    } else if Meaning(names, Stripped(LineOf(SetString(key, value)))) == SetString(key, value) {
      BackOnlyIfValue(key, value, names);
      assert false;
    }
  }

  // ---------------------------------------------------------------------------
  // The lines of a written file.

  function LinesOf(actions: seq<Action>): (r: seq<string>)
    requires AreSettings(actions)
    ensures |r| == |actions| && forall i :: 0 <= i < |actions| ==> r[i] == LineOf(actions[i])
  {
    seq(|actions|, i requires 0 <= i < |actions| => LineOf(actions[i]))
  }

  lemma LineFirst(line: string, rest: string)
    requires Without(line, {CR, LF})
    ensures Lines(line + [LF] + rest) == [line] + Lines(rest) && Tail(line + [LF] + rest) == Tail(rest)
  {
    var text := line + [LF] + rest;
    assert text[..|line|] == line && text[|line| + 1..] == rest;
    FieldLengthIs(text, |line|, {LF});
    NoCRNothing(line);
  }

  lemma NoLines()
    ensures Lines("") == [] && Tail("") == "" && Stripped("") == ""
  {
  }

  lemma {:induction false} WrittenLines(actions: seq<Action>)
    requires AreSettings(actions) && forall i :: 0 <= i < |actions| ==> Without(LineOf(actions[i]), {CR, LF})
    ensures Lines(Written(actions)) == LinesOf(actions) && Tail(Written(actions)) == ""
    decreases |actions|
  {
    hide LineOf, Lines, Tail;
    if actions == [] {
      NoLines();
    } else {
      WrittenLines(actions[1..]);
      LineFirst(LineOf(actions[0]), Written(actions[1..]));
      assert [LineOf(actions[0])] + LinesOf(actions[1..]) == LinesOf(actions);
    }
  }

  // ---------------------------------------------------------------------------
  // The settings that a list of assignments describes.

  predicate AllBound(v: Settings, names: Names) {
    names.strings <= v.strings.Keys && names.ints <= v.ints.Keys && names.bools <= v.bools.Keys
  }

  /** `a` assigns a variable the value that it has in `v`. */
  predicate Holds(a: Action, v: Settings) {
    match a
    case SetString(key, value) => key in v.strings && v.strings[key] == value
    case SetInt(key, number) => key in v.ints && v.ints[key] == number
    case SetBool(key, flag) => key in v.bools && v.bools[key] == flag
    case _ => false
  }

  predicate IsAmong(a: Action, names: Names) {
    match a
    case SetString(key, _) => key in names.strings
    case SetInt(key, _) => key in names.ints
    case SetBool(key, _) => key in names.bools
    case _ => false
  }

  function With(names: Names, a: Action): Names {
    match a
    case SetString(key, _) => names.(strings := names.strings + {key})
    case SetInt(key, _) => names.(ints := names.ints + {key})
    case SetBool(key, _) => names.(bools := names.bools + {key})
    case _ => names
  }

  /** The assignments are just those of the variables in `names`, to their values in `v`. */
  ghost predicate Lists(actions: seq<Action>, v: Settings, names: Names) {
    && AreSettings(actions)
    && (forall i :: 0 <= i < |actions| ==> Holds(actions[i], v) && IsAmong(actions[i], names))
    && (forall a: Action :: Holds(a, v) && IsAmong(a, names) ==> a in actions)
  }

  /** `text` has a line for each variable in `names`, with its value in `v`, and no other line. */
  ghost predicate IsFileOf(text: string, v: Settings, names: Names) {
    exists actions :: AreSettings(actions) && Lists(actions, v, names) && text == Written(actions)
  }

  lemma NothingListed(v: Settings)
    ensures Lists([], v, Names({}, {}, {})) && Written([]) == ""
  {
  }

  lemma ListsMore(actions: seq<Action>, v: Settings, done: Names, a: Action)
    requires Lists(actions, v, done) && Holds(a, v)
    ensures AreSettings(actions + [a]) && Lists(actions + [a], v, With(done, a))
    ensures Written(actions + [a]) == Written(actions) + LineOf(a) + [LF]
  {
    hide LineOf, Written;
    WrittenMore(actions, a);
    var more, names := actions + [a], With(done, a);
    forall i | 0 <= i < |more| ensures Holds(more[i], v) && IsAmong(more[i], names) {
      if i < |actions| { assert more[i] == actions[i]; }
    }
    forall b: Action | Holds(b, v) && IsAmong(b, names) ensures b in more {
      if IsAmong(b, done) { assert b in actions; } else { assert b == a; }
    }
  }
}
