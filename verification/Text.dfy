/** The string operations shared by the parsers: trimming, splitting at runs of separators, upper case
    and decimal numbers, for ASCII text in the C locale.
  */
module Text {

  predicate IsBlank(c: char) { c == ' ' || c == '\t' }

  function TrimLeft(s: string): (r: string)
    ensures |r| <= |s| && (r != [] ==> !IsBlank(r[0]))
  {
    if s != [] && IsBlank(s[0]) then TrimLeft(s[1..]) else s
  }

  function TrimRight(s: string): (r: string)
    ensures r <= s && (r != [] ==> !IsBlank(r[|r| - 1]))
  {
    if s != [] && IsBlank(s[|s| - 1]) then TrimRight(s[..|s| - 1]) else s
  }

  function Trim(s: string): string { TrimRight(TrimLeft(s)) }

  lemma TrimNothing(s: string)
    requires s == [] || (!IsBlank(s[0]) && !IsBlank(s[|s| - 1]))
    ensures Trim(s) == s
  {
  }

  lemma TrimOneLeft(s: string)
    requires s != [] && !IsBlank(s[0]) && !IsBlank(s[|s| - 1])
    ensures Trim(" " + s) == s
  {
    assert (" " + s)[1..] == s && (" " + s)[0] == ' ';
    assert TrimLeft(s) == s && TrimRight(s) == s;
  }

  // ---------------------------------------------------------------------------

  /** How far `s` goes without a character of `seps`. */
  function FieldLength(s: string, seps: set<char>): (n: nat)
    ensures n <= |s| && (n < |s| ==> s[n] in seps) && forall i :: 0 <= i < n ==> s[i] !in seps
  {
    if s == [] || s[0] in seps then 0 else 1 + FieldLength(s[1..], seps)
  }

  function DropRun(s: string, seps: set<char>): (r: string)
    ensures |r| <= |s|
  {
    if s != [] && s[0] in seps then DropRun(s[1..], seps) else s
  }

  /** The pieces between maximal runs of separators; a run at an end leaves an empty piece there. */
  function SplitRuns(s: string, seps: set<char>): (r: seq<string>)
    ensures r != []
    decreases |s|
  {
    var n := FieldLength(s, seps);
    if n == |s| then [s] else [s[..n]] + SplitRuns(DropRun(s[n + 1..], seps), seps)
  }

  predicate Without(s: string, seps: set<char>) {
    forall i :: 0 <= i < |s| ==> s[i] !in seps
  }

  lemma {:induction false} FieldLengthIs(s: string, n: nat, seps: set<char>)
    requires n <= |s| && Without(s[..n], seps) && (n < |s| ==> s[n] in seps)
    ensures FieldLength(s, seps) == n
  {
    if n > 0 {
      assert s[0] == s[..n][0];
      var t := s[1..][..n - 1];
      forall i | 0 <= i < |t| ensures t[i] !in seps { assert t[i] == s[..n][i + 1]; }
      FieldLengthIs(s[1..], n - 1, seps);
    }
  }

  lemma SplitOne(s: string, seps: set<char>)
    requires Without(s, seps)
    ensures SplitRuns(s, seps) == [s]
  {
    assert s[..|s|] == s;
    FieldLengthIs(s, |s|, seps);
  }

  lemma SplitFirst(a: string, sep: char, rest: string, seps: set<char>)
    requires Without(a, seps) && sep in seps && (rest != [] ==> rest[0] !in seps)
    ensures SplitRuns(a + [sep] + rest, seps) == [a] + SplitRuns(rest, seps)
  {
    var s := a + [sep] + rest;
    assert s[..|a|] == a && s[|a| + 1..] == rest;
    FieldLengthIs(s, |a|, seps);
  }

  predicate AllIn(s: string, seps: set<char>) { forall i :: 0 <= i < |s| ==> s[i] in seps }

  lemma {:induction false} RunDropped(run: string, rest: string, seps: set<char>)
    requires AllIn(run, seps) && (rest != [] ==> rest[0] !in seps)
    ensures DropRun(run + rest, seps) == rest
  {
    if run == [] {
      assert run + rest == rest;
    } else {
      assert (run + rest)[1..] == run[1..] + rest;
      RunDropped(run[1..], rest, seps);
    }
  }

  /** However many separators there are between two pieces, they are cut out as one. */
  lemma SplitAtRun(a: string, run: string, rest: string, seps: set<char>)
    requires Without(a, seps) && run != [] && AllIn(run, seps) && (rest != [] ==> rest[0] !in seps)
    ensures SplitRuns(a + run + rest, seps) == [a] + SplitRuns(rest, seps)
  {
    var s := a + run + rest;
    assert s[..|a|] == a && s[|a|] == run[0] && s[|a| + 1..] == run[1..] + rest;
    FieldLengthIs(s, |a|, seps);
    RunDropped(run[1..], rest, seps);
  }

  predicate AllBlank(s: string) { forall i :: 0 <= i < |s| ==> IsBlank(s[i]) }

  lemma {:induction false} BlanksLeft(left: string, s: string)
    requires AllBlank(left) && (s != [] ==> !IsBlank(s[0]))
    ensures TrimLeft(left + s) == s
  {
    if left == [] {
      assert left + s == s;
    } else {
      assert (left + s)[1..] == left[1..] + s;
      BlanksLeft(left[1..], s);
    }
  }

  lemma {:induction false} BlanksRight(s: string, right: string)
    requires AllBlank(right) && (s != [] ==> !IsBlank(s[|s| - 1]))
    ensures TrimRight(s + right) == s
  {
    if right == [] {
      assert s + right == s;
    } else {
      var n := |right| - 1;
      assert (s + right)[..|s + right| - 1] == s + right[..n];
      BlanksRight(s, right[..n]);
    }
  }

  /** Trimming takes away the blanks at both ends, and nothing else. */
  lemma TrimBoth(left: string, s: string, right: string)
    requires AllBlank(left) && AllBlank(right) && s != [] && !IsBlank(s[0]) && !IsBlank(s[|s| - 1])
    ensures Trim(left + s + right) == s
  {
    assert left + s + right == left + (s + right);
    BlanksLeft(left, s + right);
    BlanksRight(s, right);
  }

  // ---------------------------------------------------------------------------

  function UpperChar(c: char): char {
    if 'a' <= c <= 'z' then c - 'a' + 'A' else c
  }

  function Upper(s: string): (r: string)
    ensures |r| == |s| && forall i :: 0 <= i < |s| ==> r[i] == UpperChar(s[i])
  {
    seq(|s|, i requires 0 <= i < |s| => UpperChar(s[i]))
  }

  predicate IsSmall(c: char) { 'a' <= c <= 'z' }

  /** `s` is the text `capitals`, each letter of it as it is or as the small letter 32 places behind it. */
  predicate AnyCase(s: string, capitals: string) {
    |s| == |capitals| && forall i :: 0 <= i < |s| ==> SameLetter(s[i], capitals[i])
  }

  predicate SameLetter(c: char, capital: char) {
    c == capital || ('A' <= capital <= 'Z' && c as int == capital as int + 32)
  }

  /** `u` is `s` with every small letter replaced by the capital 32 places before it. */
  predicate Capitalised(u: string, s: string) {
    |u| == |s| && forall i :: 0 <= i < |s| ==> if IsSmall(s[i]) then u[i] as int == s[i] as int - 32 else u[i] == s[i]
  }

  lemma UpperCapitalises(s: string)
    ensures Capitalised(Upper(s), s)
  {
    assert forall i :: 0 <= i < |s| ==> Upper(s)[i] == UpperChar(s[i]);
  }

  lemma UpperLetter(c: char, capital: char)
    requires !IsSmall(capital)
    ensures UpperChar(c) == capital <==> SameLetter(c, capital)
  {
  }

  /** Comparing in upper case is comparing without regard to letter case. */
  lemma UpperIsAnyCase(s: string, capitals: string)
    requires forall i :: 0 <= i < |capitals| ==> !IsSmall(capitals[i])
    ensures Upper(s) == capitals <==> AnyCase(s, capitals)
  {
    hide UpperChar, SameLetter;
    if |s| == |capitals| {
      forall i | 0 <= i < |s| ensures UpperChar(s[i]) == capitals[i] <==> SameLetter(s[i], capitals[i]) {
        UpperLetter(s[i], capitals[i]);
      }
    }
  }

  // ---------------------------------------------------------------------------
  // Decimal numbers: `atoi`/`atol` without a width, and `%d`.

  predicate IsSpace(c: char) {
    c == ' ' || c == '\t' || c == '\n' || c == '\r' || c == 11 as char || c == 12 as char
  }

  predicate IsDigit(c: char) { '0' <= c <= '9' }

  function DigitsValue(s: string, acc: int): int {
    if s != [] && IsDigit(s[0]) then DigitsValue(s[1..], 10 * acc + (s[0] - '0') as int) else acc
  }

  function Atoi(s: string): int {
    if s == [] then 0
    else if IsSpace(s[0]) then Atoi(s[1..])
    else if s[0] == '-' then -DigitsValue(s[1..], 0)
    else if s[0] == '+' then DigitsValue(s[1..], 0)
    else DigitsValue(s, 0)
  }

  function DigitChar(d: int): (c: char)
    requires 0 <= d < 10
    ensures IsDigit(c) && (c - '0') as int == d
  {
    '0' + d as char
  }

  function Digits(n: nat): (s: string)
    ensures s != [] && forall i :: 0 <= i < |s| ==> IsDigit(s[i])
  {
    if n < 10 then [DigitChar(n)] else Digits(n / 10) + [DigitChar(n % 10)]
  }

  function Decimal(n: int): (s: string)
    ensures s != [] && (s[0] == '-' || IsDigit(s[0])) && IsDigit(s[|s| - 1])
    ensures forall i :: 0 < i < |s| ==> IsDigit(s[i])
  {
    if n < 0 then "-" + Digits(-n) else Digits(n)
  }

  lemma {:induction false} DigitsValueAppend(s: string, acc: int, c: char)
    requires (forall i :: 0 <= i < |s| ==> IsDigit(s[i])) && IsDigit(c)
    ensures DigitsValue(s + [c], acc) == 10 * DigitsValue(s, acc) + (c - '0') as int
  {
    if s == [] {
      assert (s + [c])[1..] == [];
    } else {
      assert (s + [c])[1..] == s[1..] + [c];
      DigitsValueAppend(s[1..], 10 * acc + (s[0] - '0') as int, c);
    }
  }

  lemma {:induction false} DigitsRoundTrip(n: nat)
    ensures DigitsValue(Digits(n), 0) == n
  {
    if n < 10 {
      assert Digits(n)[1..] == [];
    } else {
      DigitsRoundTrip(n / 10);
      DigitsValueAppend(Digits(n / 10), 0, DigitChar(n % 10));
    }
  }

  /** Printing a number and reading it back. */
  lemma AtoiRoundTrip(n: int)
    ensures Atoi(Decimal(n)) == n
  {
    if n < 0 {
      DigitsRoundTrip(-n);
      assert Decimal(n)[1..] == Digits(-n);
    } else {
      DigitsRoundTrip(n);
    }
  }
  lemma {:induction false} SpacesSkipped(spaces: string, s: string)
    requires forall i :: 0 <= i < |spaces| ==> IsSpace(spaces[i])
    ensures Atoi(spaces + s) == Atoi(s)
  {
    if spaces == [] {
      assert spaces + s == s;
    } else {
      assert (spaces + s)[1..] == spaces[1..] + s;
      SpacesSkipped(spaces[1..], s);
    }
  }

  lemma {:induction false} DigitsEnd(s: string, rest: string, acc: int)
    requires (forall i :: 0 <= i < |s| ==> IsDigit(s[i])) && (rest != [] ==> !IsDigit(rest[0]))
    ensures DigitsValue(s + rest, acc) == DigitsValue(s, acc)
  {
    if s == [] {
      assert s + rest == rest;
    } else {
      assert (s + rest)[1..] == s[1..] + rest;
      DigitsEnd(s[1..], rest, 10 * acc + (s[0] - '0') as int);
    }
  }

  lemma DigitsRead(n: nat, rest: string)
    requires rest != [] ==> !IsDigit(rest[0])
    ensures DigitsValue(Digits(n) + rest, 0) == n
  {
    DigitsRoundTrip(n);
    DigitsEnd(Digits(n), rest, 0);
  }

  lemma AtoiSigned(s: string)
    ensures Atoi("-" + s) == -DigitsValue(s, 0) && Atoi("+" + s) == DigitsValue(s, 0)
    ensures s != [] && IsDigit(s[0]) ==> Atoi(s) == DigitsValue(s, 0)
  {
    hide DigitsValue;
    assert ("-" + s)[1..] == s && ("+" + s)[1..] == s;
  }

  lemma DecimalReads(n: int, rest: string)
    requires rest != [] ==> !IsDigit(rest[0])
    ensures Atoi(Decimal(n) + rest) == n
    ensures n >= 0 ==> Atoi("+" + (Decimal(n) + rest)) == n
  {
    hide Digits, DigitsValue, Atoi;
    if n < 0 {
      DigitsRead(-n, rest);
      AtoiSigned(Digits(-n) + rest);
      assert Decimal(n) + rest == "-" + (Digits(-n) + rest);
    } else {
      DigitsRead(n, rest);
      AtoiSigned(Digits(n) + rest);
      assert Decimal(n) == Digits(n);
    }
  }

  /** White space before a number, a plus sign and whatever follows its digits do not matter. */
  lemma AtoiReads(spaces: string, n: int, rest: string)
    requires (forall i :: 0 <= i < |spaces| ==> IsSpace(spaces[i])) && (rest != [] ==> !IsDigit(rest[0]))
    ensures Atoi(spaces + (Decimal(n) + rest)) == n
    ensures n >= 0 ==> Atoi(spaces + ("+" + (Decimal(n) + rest))) == n
  {
    hide Atoi, Decimal;
    DecimalReads(n, rest);
    SpacesSkipped(spaces, Decimal(n) + rest);
    SpacesSkipped(spaces, "+" + (Decimal(n) + rest));
  }

  /** A text that does not begin with a number is 0. */
  lemma AtoiNothing(spaces: string, rest: string)
    requires forall i :: 0 <= i < |spaces| ==> IsSpace(spaces[i])
    requires rest != [] ==> !IsSpace(rest[0]) && !IsDigit(rest[0]) && rest[0] != '-' && rest[0] != '+'
    ensures Atoi(spaces + rest) == 0
  {
    SpacesSkipped(spaces, rest);
  }
}
