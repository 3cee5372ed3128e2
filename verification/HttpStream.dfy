/** `HttpStreamSplitter` of network/http-common.cpp: one byte at a time in, whole requests out. */
module HttpStream {
  import opened Text

  const CONTENT_DISPOSITION := "CONTENT-DISPOSITION"
  const CONTENT_LENGTH := "CONTENT-LENGTH"

  const CR := '\r'
  const LF := '\n'

  datatype Phase = WaitHeader | ParseHeader | ReadContent

  datatype Splitter = Splitter(phase: Phase, line: string, content: string, counter: nat, length: nat,
                               verb: string, url: string, download: string)

  // ---------------------------------------------------------------------------
  // What one line and one byte do.

  function Blanks(): set<char> { {' ', '\t'} }

  function RequestLine(s: Splitter): Splitter {
    var tokens := SplitRuns(Trim(s.line), Blanks());
    if |tokens| < 3 || !(|tokens[2]| >= 4 && Upper(tokens[2])[..4] == "HTTP") then s
    else s.(phase := ParseHeader, verb := Upper(tokens[0]), url := tokens[1], length := 0, counter := 0, content := "")
  }

  /** The pieces of a header line between colons, trimmed. */
  function HeaderTokens(line: string): (r: seq<string>)
    ensures r != []
  {
    TrimAll(SplitRuns(Trim(line), {':'}))
  }

  function TrimAll(tokens: seq<string>): (r: seq<string>)
    ensures |r| == |tokens| && forall i :: 0 <= i < |tokens| ==> r[i] == Trim(tokens[i])
  {
    seq(|tokens|, i requires 0 <= i < |tokens| => Trim(tokens[i]))
  }

  /** The text between the first two quotes, if there are two. */
  function Quoted(s: string): (r: string)
  {
    var start := FieldLength(s, {'"'}) + 1;
    if start > |s| then ""
    else
      var n := FieldLength(s[start..], {'"'});
      if start + n < |s| then s[start..start + n] else ""
  }

  predicate HasQuoted(s: string) {
    var start := FieldLength(s, {'"'}) + 1;
    start <= |s| && start + FieldLength(s[start..], {'"'}) < |s|
  }

  /** The content length that a header line leaves, given the one before it. */
  function LengthAfter(length: nat, line: string): nat {
    var tokens := HeaderTokens(line);
    if |tokens| < 2 || Upper(tokens[0]) != CONTENT_LENGTH then length
    else if Atoi(tokens[1]) < 0 then 0 else Atoi(tokens[1])
  }

  function DownloadAfter(download: string, line: string): string {
    var tokens := HeaderTokens(line);
    if |tokens| < 2 || Upper(tokens[0]) != CONTENT_DISPOSITION || !HasQuoted(tokens[1]) then download
    else Quoted(tokens[1])
  }

  function HeaderLine(s: Splitter): Splitter {
    if s.line == "" then s.(phase := ReadContent)
    else s.(length := LengthAfter(s.length, s.line), download := DownloadAfter(s.download, s.line))
  }

  function ProcessLine(s: Splitter): Splitter {
    match s.phase
    case WaitHeader => RequestLine(s)
    case ParseHeader => HeaderLine(s)
    case ReadContent => s
  }

  function Consume(s: Splitter, ch: char): Splitter {
    if s.phase.ReadContent? then s.(content := s.content + [ch], counter := s.counter + 1)
    else if ch == CR then s
    else if ch == LF then ProcessLine(s).(line := "")
    else s.(line := s.line + [ch])
  }

  predicate Complete(s: Splitter) { s.phase.ReadContent? && s.counter >= s.length }

  /** `push_char`: the new state and whether a request has just been completed. */
  function Push(s: Splitter, ch: char): (Splitter, bool) {
    var t := Consume(s, ch);
    if Complete(t) then (t.(phase := WaitHeader), true) else (t, false)
  }

  const START := Splitter(WaitHeader, "", "", 0, 0, "", "", "")

  /** On any input whatever: reading content, the counter is the number of bytes read and is still short. */
  ghost predicate Reading(s: Splitter) {
    s.phase.ReadContent? ==> |s.content| == s.counter < s.length
  }

  /** And while parsing a header no content has been read. */
  ghost predicate Parsing(s: Splitter) {
    s.phase.ParseHeader? ==> s.content == "" && s.counter == 0
  }

  function After(s: Splitter, text: string): Splitter {
    if text == "" then s else Push(After(s, text[..|text| - 1]), text[|text| - 1]).0
  }

  lemma {:induction false} AlwaysReading(s: Splitter, text: string)
    requires Reading(s) && Parsing(s)
    ensures Reading(After(s, text)) && Parsing(After(s, text))
  {
    if text != "" { AlwaysReading(s, text[..|text| - 1]); }
  }

  // ---------------------------------------------------------------------------
  // Whole messages out of a text.

  datatype Message = Message(end: nat, verb: string, url: string, content: string)

  /** The requests completed while `text` is pushed, each with the place of its last byte. */
  function Received(s: Splitter, text: string, at: nat): seq<Message>
    decreases |text|
  {
    if text == "" then []
    else
      var (t, done) := Push(s, text[0]);
      (if done then [Message(at, t.verb, t.url, t.content)] else []) + Received(t, text[1..], at + 1)
  }

  /** `text` takes the splitter from `s` to `t` without completing a request. */
  ghost predicate Silently(s: Splitter, text: string, t: Splitter)
    decreases |text|
  {
    if text == "" then s == t else !Push(s, text[0]).1 && Silently(Push(s, text[0]).0, text[1..], t)
  }

  lemma NothingPushed(s: Splitter)
    ensures Silently(s, "", s)
  {
  }

  lemma {:induction false} SilentlyThen(s: Splitter, a: string, t: Splitter, b: string, u: Splitter)
    requires Silently(s, a, t) && Silently(t, b, u)
    ensures Silently(s, a + b, u)
    decreases |a|
  {
    if a == "" {
      assert a + b == b;
    } else {
      SilentlyThen(Push(s, a[0]).0, a[1..], t, b, u);
      assert (a + b)[1..] == a[1..] + b;
    }
  }

  lemma {:induction false} ReceivedAfter(s: Splitter, a: string, t: Splitter, rest: string, at: nat)
    requires Silently(s, a, t)
    ensures Received(s, a + rest, at) == Received(t, rest, at + |a|)
    decreases |a|
  {
    if a == "" {
      assert a + rest == rest;
    } else {
      ReceivedAfter(Push(s, a[0]).0, a[1..], t, rest, at + 1);
      assert (a + rest)[1..] == a[1..] + rest;
    }
  }

  // ---------------------------------------------------------------------------
  // Header lines.

  predicate IsLine(line: string) { Without(line, {CR, LF}) }

  lemma {:induction false} LineBuffered(s: Splitter, line: string)
    requires !s.phase.ReadContent? && IsLine(line)
    ensures Silently(s, line, s.(line := s.line + line))
    decreases |line|
  {
    hide RequestLine, HeaderLine, LengthAfter, DownloadAfter;
    if line == "" {
      assert s.line + line == s.line;
    } else {
      assert line[0] != CR && line[0] != LF;
      LineBuffered(s.(line := s.line + [line[0]]), line[1..]);
      assert s.line + [line[0]] + line[1..] == s.line + line;
    }
  }

  const CRLF: string := [CR, LF]

  /** The state after a whole line, before it is seen whether that completes a request. */
  function Lined(s: Splitter, line: string): Splitter { ProcessLine(s.(line := line)).(line := "") }

  /** Pushing the end of a line. */
  lemma LineEnded(s: Splitter)
    requires !s.phase.ReadContent?
    ensures Push(s, CR) == (s, false)
    ensures !Complete(Lined(s, s.line)) ==> Push(s, LF) == (Lined(s, s.line), false)
    ensures Complete(Lined(s, s.line)) ==> Push(s, LF) == (Lined(s, s.line).(phase := WaitHeader), true)
  {
    hide ProcessLine;
    assert s.(line := s.line) == s;
  }

  lemma TwoSilently(s: Splitter, a: char, b: char, t: Splitter)
    requires Push(s, a) == (s, false) && Push(s, b) == (t, false)
    ensures Silently(s, [a, b], t)
  {
    hide Push;
    assert [a, b][1..] == [b] && [b][1..] == "";
    assert Silently(t, "", t);
    assert Silently(s, [b], t);
  }

  /** A whole line and its end. */
  lemma LineProcessed(s: Splitter, line: string)
    requires !s.phase.ReadContent? && s.line == "" && IsLine(line) && !Complete(Lined(s, line))
    ensures Silently(s, line + CRLF, Lined(s, line))
  {
    hide Push, Complete, ProcessLine, Silently;
    LineBuffered(s, line);
    assert s.line + line == line;
    var t := s.(line := line);
    assert Lined(t, t.line) == Lined(s, line);
    LineEnded(t);
    TwoSilently(t, CR, LF, Lined(s, line));
    SilentlyThen(s, line, t, CRLF, Lined(s, line));
  }

  // ---------------------------------------------------------------------------
  // Requests as a client writes them.

  datatype Request = Request(verb: string, url: string, version: string, headers: seq<string>, body: string)

  predicate IsWord(s: string) { s != "" && Without(s, {' ', '\t', CR, LF}) }

  predicate IsVersion(s: string) { IsWord(s) && |s| >= 4 && AnyCase(s[..4], "HTTP") }

  predicate AreHeaders(headers: seq<string>) {
    forall i :: 0 <= i < |headers| ==> headers[i] != "" && IsLine(headers[i])
  }

  function LengthAfterAll(length: nat, headers: seq<string>): nat
    decreases |headers|
  {
    if headers == [] then length else LengthAfterAll(LengthAfter(length, headers[0]), headers[1..])
  }

  function DownloadAfterAll(download: string, headers: seq<string>): string
    decreases |headers|
  {
    if headers == [] then download else DownloadAfterAll(DownloadAfter(download, headers[0]), headers[1..])
  }

  /** The headers announce exactly the body that follows; the body may be any bytes. */
  predicate WellFormed(r: Request) {
    IsWord(r.verb) && IsWord(r.url) && IsVersion(r.version) && AreHeaders(r.headers)
    && LengthAfterAll(0, r.headers) == |r.body|
  }

  function FirstLine(r: Request): string { r.verb + [' '] + (r.url + [' '] + r.version) }

  function HeaderText(headers: seq<string>): string {
    if headers == [] then "" else headers[0] + CRLF + HeaderText(headers[1..])
  }

  function Head(r: Request): string { FirstLine(r) + CRLF + HeaderText(r.headers) }

  function Serialise(r: Request): string { Head(r) + CRLF + r.body }

  function Stream(rs: seq<Request>): string {
    if rs == [] then "" else Serialise(rs[0]) + Stream(rs[1..])
  }

  /** One message a request, at its last byte, with its method in upper case, its URL and its body. */
  function Expected(rs: seq<Request>, at: nat): seq<Message> {
    if rs == [] then []
    else
      var end := at + |Serialise(rs[0])|;
      [Message(end - 1, Upper(rs[0].verb), rs[0].url, rs[0].body)] + Expected(rs[1..], end)
  }

  predicate Waiting(s: Splitter) { s.phase.WaitHeader? && s.line == "" }

  lemma WordIn(s: string, seps: set<char>)
    requires IsWord(s) && seps <= {' ', '\t', CR, LF}
    ensures Without(s, seps) && !IsBlank(s[0]) && !IsBlank(s[|s| - 1])
  {
    assert s[0] !in {' ', '\t', CR, LF} && s[|s| - 1] !in {' ', '\t', CR, LF};
  }

  lemma FirstLineSplit(r: Request)
    requires IsWord(r.verb) && IsWord(r.url) && IsWord(r.version)
    ensures SplitRuns(Trim(FirstLine(r)), Blanks()) == [r.verb, r.url, r.version]
    ensures IsLine(FirstLine(r))
  {
    hide Trim, SplitRuns;
    var line := FirstLine(r);
    WordIn(r.verb, Blanks());
    WordIn(r.url, Blanks());
    WordIn(r.version, Blanks());
    assert line[0] == r.verb[0] && line[|line| - 1] == r.version[|r.version| - 1];
    TrimNothing(line);
    SplitOne(r.version, Blanks());
    SplitFirst(r.url, ' ', r.version, Blanks());
    SplitFirst(r.verb, ' ', r.url + [' '] + r.version, Blanks());
  }

  /** The state once the first line of a request has been read. */
  function Opened(s: Splitter, r: Request): Splitter { Begun(s, r.verb, r.url) }

  function Begun(s: Splitter, verb: string, url: string): Splitter {
    s.(phase := ParseHeader, line := "", verb := Upper(verb), url := url, length := 0, counter := 0, content := "")
  }

  /** Words with the given blanks between them. */
  function WordsText(words: seq<string>, gaps: seq<string>): string
    requires |words| == |gaps| + 1
  {
    if gaps == [] then words[0] else words[0] + gaps[0] + WordsText(words[1..], gaps[1..])
  }

  predicate AreWords(words: seq<string>, gaps: seq<string>) {
    && |words| == |gaps| + 1
    && (forall i :: 0 <= i < |words| ==> IsWord(words[i]))
    && (forall i :: 0 <= i < |gaps| ==> gaps[i] != "" && AllBlank(gaps[i]))
  }

  lemma BlanksAreIn(gap: string)
    requires AllBlank(gap)
    ensures AllIn(gap, Blanks()) && IsLine(gap)
  {
  }

  lemma JoinedLines(a: string, b: string)
    requires IsLine(a) && IsLine(b)
    ensures IsLine(a + b)
  {
  }

  lemma WordIsLine(word: string)
    requires IsWord(word)
    ensures IsLine(word)
  {
  }

  lemma {:induction false} WordsSplit(words: seq<string>, gaps: seq<string>)
    requires AreWords(words, gaps)
    ensures var text := WordsText(words, gaps);
      && text != "" && !IsBlank(text[0]) && !IsBlank(text[|text| - 1]) && IsLine(text)
      && SplitRuns(text, Blanks()) == words
    decreases |gaps|
  {
    hide SplitRuns, IsWord, IsLine, AllBlank, AllIn;
    WordIn(words[0], Blanks());
    WordIsLine(words[0]);
    if gaps == [] {
      SplitOne(words[0], Blanks());
      WordNotEmpty(words[0]);
    } else {
      var rest := WordsText(words[1..], gaps[1..]);
      WordsSplit(words[1..], gaps[1..]);
      WordNotEmpty(words[0]);
      BlanksAreIn(gaps[0]);
      WordIn(words[0], Blanks());
      WordsFirst(rest);
      SplitAtRun(words[0], gaps[0], rest, Blanks());
      JoinedLines(words[0], gaps[0]);
      JoinedLines(words[0] + gaps[0], rest);
      assert words[0] + gaps[0] + rest == WordsText(words, gaps);
    }
  }

  lemma WordNotEmpty(word: string)
    requires IsWord(word)
    ensures word != ""
  {
  }

  lemma WordsFirst(rest: string)
    requires rest != "" && !IsBlank(rest[0])
    ensures rest[0] !in Blanks()
  {
  }

  /** The first line of a request, with any blanks between and around its words: it opens a request exactly if there
      are three or more and the third begins with HTTP in any letter case; otherwise it is ignored. */
  lemma RequestLineRead(s: Splitter, left: string, words: seq<string>, gaps: seq<string>, right: string)
    requires Waiting(s) && AreWords(words, gaps) && AllBlank(left) && AllBlank(right)
    ensures Silently(s, left + WordsText(words, gaps) + right + CRLF,
                     if |words| >= 3 && |words[2]| >= 4 && AnyCase(words[2][..4], "HTTP") then Begun(s, words[0], words[1])
                     else s)
  {
    assert |words| == |gaps| + 1;
    hide Silently, Push, WordsText, Trim, SplitRuns, AnyCase, Upper, AreWords, AllBlank, IsLine;
    var text := WordsText(words, gaps);
    var line := left + text + right;
    WordsSplit(words, gaps);
    TrimBoth(left, text, right);
    BlanksAreIn(left);
    BlanksAreIn(right);
    JoinedLines(left, text);
    JoinedLines(left + text, right);
    if |words| >= 3 && |words[2]| >= 4 { VersionRead(words[2]); }
    LinedByWords(s, line, words);
    LineProcessed(s, line);
  }

  lemma LinedByWords(s: Splitter, line: string, words: seq<string>)
    requires Waiting(s) && SplitRuns(Trim(line), Blanks()) == words
    ensures Lined(s, line)
         == if |words| >= 3 && |words[2]| >= 4 && Upper(words[2])[..4] == "HTTP" then Begun(s, words[0], words[1]) else s
  {
    hide SplitRuns, Trim;
  }

  /** An empty line, or one of blanks, before a request is ignored. */
  lemma BlankLineIgnored(s: Splitter, blanks: string)
    requires Waiting(s) && AllBlank(blanks)
    ensures Silently(s, blanks + CRLF, s)
  {
    hide Silently, Push;
    BlanksLeft(blanks, "");
    assert blanks + "" == blanks;
    BlanksAreIn(blanks);
    LineProcessed(s, blanks);
  }

  lemma VersionRead(version: string)
    requires |version| >= 4
    ensures AnyCase(version[..4], "HTTP") <==> Upper(version)[..4] == "HTTP"
  {
    UpperIsAnyCase(version[..4], "HTTP");
    hide AnyCase;
    assert Upper(version)[..4] == Upper(version[..4]);
  }

  lemma FirstLineRead(s: Splitter, r: Request)
    requires Waiting(s) && IsWord(r.verb) && IsWord(r.url) && IsVersion(r.version)
    ensures Silently(s, FirstLine(r) + CRLF, Opened(s, r)) && Capitalised(Opened(s, r).verb, r.verb)
  {
    UpperCapitalises(r.verb);
    hide Silently, Push, FirstLine, Trim, SplitRuns, Capitalised;
    FirstLineSplit(r);
    VersionRead(r.version);
    assert Lined(s, FirstLine(r)) == Opened(s, r);
    LineProcessed(s, FirstLine(r));
  }

  function Headed(s: Splitter, headers: seq<string>): Splitter {
    s.(length := LengthAfterAll(s.length, headers), download := DownloadAfterAll(s.download, headers))
  }

  lemma HeaderLined(s: Splitter, line: string)
    requires s.phase.ParseHeader? && s.line == "" && line != ""
    ensures Lined(s, line) == s.(length := LengthAfter(s.length, line), download := DownloadAfter(s.download, line))
  {
    hide LengthAfter, DownloadAfter;
  }

  lemma {:induction false} HeadersRead(s: Splitter, headers: seq<string>)
    requires s.phase.ParseHeader? && s.line == "" && AreHeaders(headers)
    ensures Silently(s, HeaderText(headers), Headed(s, headers))
    decreases |headers|
  {
    hide Silently, Push, LengthAfter, DownloadAfter, Lined;
    if headers == [] {
      assert Headed(s, headers) == s;
      NothingPushed(s);
    } else {
      var t := Lined(s, headers[0]);
      HeaderLined(s, headers[0]);
      LineProcessed(s, headers[0]);
      HeadersRead(t, headers[1..]);
      assert Headed(t, headers[1..]) == Headed(s, headers);
      SilentlyThen(s, headers[0] + CRLF, t, HeaderText(headers[1..]), Headed(s, headers));
    }
  }

  // ---------------------------------------------------------------------------
  // The end of the head, and the body.

  lemma {:induction false} BodyRead(s: Splitter, body: string, rest: string, at: nat)
    requires s.phase.ReadContent? && body != "" && s.counter + |body| == s.length
    ensures Received(s, body + rest, at)
         == [Message(at + |body| - 1, s.verb, s.url, s.content + body)]
          + Received(s.(phase := WaitHeader, content := s.content + body, counter := s.length), rest, at + |body|)
    decreases |body|
  {
    hide ProcessLine;
    var t := s.(content := s.content + [body[0]], counter := s.counter + 1);
    assert (body + rest)[1..] == body[1..] + rest;
    assert s.content + [body[0]] + body[1..] == s.content + body;
    if |body| == 1 {
      assert body == [body[0]] && body[1..] + rest == rest;
    } else {
      BodyRead(t, body[1..], rest, at + 1);
    }
  }

  /** The state after a whole request. */
  function Served(s: Splitter, body: string): Splitter {
    s.(phase := WaitHeader, content := body, counter := |body|)
  }

  /** The empty line after the headers, and then the body. */
  lemma HeadEnded(s: Splitter, body: string, rest: string, at: nat)
    requires s.phase.ParseHeader? && s.line == "" && s.content == "" && s.counter == 0 && s.length == |body|
    ensures Received(s, CRLF + body + rest, at)
         == [Message(at + 1 + |body|, s.verb, s.url, body)] + Received(Served(s, body), rest, at + 2 + |body|)
  {
    hide Push;
    LineEnded(s);
    var text := CRLF + body + rest;
    var u := s.(phase := ReadContent);
    assert Lined(s, "") == u;
    assert text[1..][0] == LF && text[1..][1..] == body + rest;
    assert Received(s, text, at) == Received(s, text[1..], at + 1);
    if body == "" {
      assert text[1..][1..] == rest;
    } else {
      BodyRead(u, body, rest, at + 2);
      assert u.content + body == body;
    }
  }

  lemma OneReceived(s: Splitter, r: Request, rest: string, at: nat)
    requires Waiting(s) && WellFormed(r)
    ensures var t := Served(Headed(Opened(s, r), r.headers), r.body);
            Waiting(t) && Received(s, Serialise(r) + rest, at)
            == [Message(at + |Serialise(r)| - 1, Upper(r.verb), r.url, r.body)]
             + Received(t, rest, at + |Serialise(r)|)
  {
    hide Silently, Push, LengthAfter, DownloadAfter, FirstLine, Received, HeaderText, LengthAfterAll, DownloadAfterAll;
    var begun := Opened(s, r);
    var headed := Headed(begun, r.headers);
    FirstLineRead(s, r);
    HeadersRead(begun, r.headers);
    SilentlyThen(s, FirstLine(r) + CRLF, begun, HeaderText(r.headers), headed);
    var tail := CRLF + r.body + rest;
    assert Serialise(r) + rest == Head(r) + tail;
    ReceivedAfter(s, Head(r), headed, tail, at);
    HeadEnded(headed, r.body, rest, at + |Head(r)|);
  }

  /** Whatever the requests and their bodies, each is delivered exactly at its last byte, unmixed. */
  lemma {:induction false} StreamReceived(s: Splitter, rs: seq<Request>, at: nat)
    requires Waiting(s) && forall i :: 0 <= i < |rs| ==> WellFormed(rs[i])
    ensures Received(s, Stream(rs), at) == Expected(rs, at)
    decreases |rs|
  {
    hide Serialise, WellFormed, Served, Headed, Opened, Waiting;
    if rs != [] {
      OneReceived(s, rs[0], Stream(rs[1..]), at);
      StreamReceived(Served(Headed(Opened(s, rs[0]), rs[0].headers), rs[0].body), rs[1..], at + |Serialise(rs[0])|);
    }
  }

  /** Request `i` as it is delivered: at its last byte, with its URL and its body as they were sent and its method
      in capitals. */
  predicate Delivers(m: Message, rs: seq<Request>, i: nat, at: nat)
    requires i < |rs|
  {
    m.end == at + |Stream(rs[..i + 1])| - 1 && Capitalised(m.verb, rs[i].verb) && m.url == rs[i].url && m.content == rs[i].body
  }

  lemma {:induction false} ExpectedDelivers(rs: seq<Request>, at: nat, i: nat)
    requires i < |rs|
    ensures |Expected(rs, at)| == |rs| && Delivers(Expected(rs, at)[i], rs, i, at)
    decreases i
  {
    hide Serialise, Capitalised, Upper;
    var end := at + |Serialise(rs[0])|;
    assert rs[..i + 1][1..] == rs[1..][..i] && rs[..i + 1][0] == rs[0];
    ExpectedLength(rs, at);
    if i == 0 {
      UpperCapitalises(rs[0].verb);
      assert rs[1..][..0] == [];
    } else {
      ExpectedDelivers(rs[1..], end, i - 1);
      assert Stream(rs[..i + 1]) == Serialise(rs[0]) + Stream(rs[1..][..i]);
    }
  }

  lemma {:induction false} ExpectedLength(rs: seq<Request>, at: nat)
    ensures |Expected(rs, at)| == |rs|
    decreases |rs|
  {
    if rs != [] { ExpectedLength(rs[1..], at + |Serialise(rs[0])|); }
  }

  /** As many messages as requests, and each as it should be. */
  lemma RequestsDelivered(s: Splitter, rs: seq<Request>, at: nat)
    requires Waiting(s) && forall i :: 0 <= i < |rs| ==> WellFormed(rs[i])
    ensures |Received(s, Stream(rs), at)| == |rs|
    ensures forall i :: 0 <= i < |rs| ==> Delivers(Received(s, Stream(rs), at)[i], rs, i, at)
  {
    hide Received, Stream, Expected, WellFormed, Waiting, Delivers;
    StreamReceived(s, rs, at);
    ExpectedLength(rs, at);
    forall i | 0 <= i < |rs| ensures Delivers(Received(s, Stream(rs), at)[i], rs, i, at) { ExpectedDelivers(rs, at, i); }
  }

  // ---------------------------------------------------------------------------
  // The length header.

  predicate IsHeaderName(s: string) { IsWord(s) && ':' !in s }

  /** A header line as clients write it. */
  function LengthLine(name: string, n: int): string { name + [':'] + (" " + Decimal(n)) }

  predicate IsLengthLine(line: string) {
    var tokens := HeaderTokens(line);
    |tokens| >= 2 && AnyCase(tokens[0], CONTENT_LENGTH)
  }

  lemma LengthName(name: string)
    ensures Upper(name) == CONTENT_LENGTH <==> AnyCase(name, CONTENT_LENGTH)
    ensures AnyCase(name, CONTENT_LENGTH) ==> IsHeaderName(name)
  {
    UpperIsAnyCase(name, CONTENT_LENGTH);
  }

  /** A header line is split into its name and its value. */
  lemma HeaderSplit(name: string, value: string)
    requires IsHeaderName(name) && value != "" && !IsBlank(value[0]) && !IsBlank(value[|value| - 1]) && Without(value, {':'})
    ensures HeaderTokens(name + [':'] + (" " + value)) == [name, value]
  {
    hide Trim, SplitRuns;
    var line := name + [':'] + (" " + value);
    WordIn(name, {' ', '\t'});
    assert line[0] == name[0] && line[|line| - 1] == value[|value| - 1];
    TrimNothing(line);
    SplitOne(" " + value, {':'});
    SplitFirst(name, ':', " " + value, {':'});
    assert HeaderTokens(line) == [Trim(name), Trim(" " + value)];
    TrimNothing(name);
    TrimOneLeft(value);
  }

  /** A length header announces its number, 0 if that is negative. */
  lemma LengthLineRead(length: nat, name: string, n: int)
    requires AnyCase(name, CONTENT_LENGTH)
    ensures LengthAfter(length, LengthLine(name, n)) == (if n < 0 then 0 else n) && IsLengthLine(LengthLine(name, n))
  {
    hide Trim, SplitRuns, Decimal, Upper, AnyCase, HeaderTokens;
    LengthName(name);
    HeaderSplit(name, Decimal(n));
    AtoiRoundTrip(n);
  }

  lemma {:induction false} OtherHeaders(length: nat, headers: seq<string>)
    requires forall i :: 0 <= i < |headers| ==> !IsLengthLine(headers[i])
    ensures LengthAfterAll(length, headers) == length
    decreases |headers|
  {
    hide AnyCase, Upper, HeaderTokens;
    if headers != [] {
      LengthName(HeaderTokens(headers[0])[0]);
      OtherHeaders(length, headers[1..]);
    }
  }

  lemma {:induction false} LengthAfterBoth(length: nat, a: seq<string>, b: seq<string>)
    ensures LengthAfterAll(length, a + b) == LengthAfterAll(LengthAfterAll(length, a), b)
    decreases |a|
  {
    hide LengthAfter;
    if a == [] {
      assert a + b == b;
    } else {
      assert (a + b)[1..] == a[1..] + b;
      LengthAfterBoth(LengthAfter(length, a[0]), a[1..], b);
    }
  }

  /** One length header, in any letter case, among any others announces its number; the last one counts. */
  lemma AnnouncedLength(before: seq<string>, name: string, n: int, after: seq<string>)
    requires AnyCase(name, CONTENT_LENGTH)
    requires forall i :: 0 <= i < |after| ==> !IsLengthLine(after[i])
    ensures LengthAfterAll(0, before + [LengthLine(name, n)] + after) == if n < 0 then 0 else n
  {
    hide LengthAfter, IsLengthLine, LengthLine, AnyCase;
    var line := LengthLine(name, n);
    LengthAfterBoth(0, before + [line], after);
    LengthAfterBoth(0, before, [line]);
    var l := LengthAfterAll(0, before);
    LengthLineRead(l, name, n);
    assert LengthAfterAll(l, [line]) == LengthAfter(l, line);
    OtherHeaders(if n < 0 then 0 else n, after);
  }

  // ---------------------------------------------------------------------------
  // The file name of a download.

  /** The value of a disposition header: some text, and a file name in quotes. */
  function Disposition(kind: string, file: string): string { kind + ['"'] + (file + ['"']) }

  lemma QuotedFile(kind: string, file: string)
    requires Without(kind, {'"'}) && Without(file, {'"'})
    ensures HasQuoted(Disposition(kind, file)) && Quoted(Disposition(kind, file)) == file
  {
    var value := Disposition(kind, file);
    assert value[..|kind|] == kind && value[|kind| + 1..] == file + ['"'];
    assert (file + ['"'])[..|file|] == file;
    FieldLengthIs(value, |kind|, {'"'});
    FieldLengthIs(file + ['"'], |file|, {'"'});
    hide FieldLength;
  }

  lemma DispositionName(name: string)
    ensures Upper(name) == CONTENT_DISPOSITION <==> AnyCase(name, CONTENT_DISPOSITION)
    ensures AnyCase(name, CONTENT_DISPOSITION) ==> IsHeaderName(name)
  {
    UpperIsAnyCase(name, CONTENT_DISPOSITION);
  }

  /** A disposition header, in any letter case, sets the name of the download to the text between its quotes. */
  lemma DownloadRead(download: string, name: string, kind: string, file: string)
    requires AnyCase(name, CONTENT_DISPOSITION) && kind != "" && !IsBlank(kind[0])
    requires Without(kind, {'"', ':'}) && Without(file, {'"', ':'})
    ensures DownloadAfter(download, name + [':'] + (" " + Disposition(kind, file))) == file
  {
    DispositionName(name);
    hide HeaderTokens, Quoted, HasQuoted, Upper, AnyCase, IsHeaderName;
    var value := Disposition(kind, file);
    assert forall i :: 0 <= i < |value| ==> value[i] != ':';
    assert value[0] == kind[0] && value[|value| - 1] == '"';
    HeaderSplit(name, value);
    QuotedFile(kind, file);
  }

  // ---------------------------------------------------------------------------
  // Carriage returns outside bodies.

  /** `text` without the carriage returns that arrive while no body is being read. */
  function HeadCRsDropped(s: Splitter, text: string): string
    decreases |text|
  {
    if text == "" then ""
    else if text[0] == CR && !s.phase.ReadContent? then HeadCRsDropped(s, text[1..])
    else [text[0]] + HeadCRsDropped(Push(s, text[0]).0, text[1..])
  }

  predicate SameMessages(a: seq<Message>, b: seq<Message>) {
    |a| == |b| && forall i :: 0 <= i < |a| ==> a[i].(end := 0) == b[i].(end := 0)
  }

  lemma NoMessages()
    ensures SameMessages([], [])
  {
  }

  lemma SameMessagesBoth(a: seq<Message>, b: seq<Message>, m: Message, n: Message)
    requires SameMessages(a, b) && m.(end := 0) == n.(end := 0)
    ensures SameMessages([m] + a, [n] + b)
  {
  }

  /** They change nothing: the same requests are delivered with one, none or many of them. */
  lemma {:induction false} CRsIgnored(s: Splitter, text: string, at: nat, start: nat)
    ensures SameMessages(Received(s, text, at), Received(s, HeadCRsDropped(s, text), start))
    decreases |text|
  {
    hide Consume, Complete, SameMessages;
    if text == "" {
      NoMessages();
    } else if text[0] == CR && !s.phase.ReadContent? {
      LineEnded(s);
      assert Received(s, text, at) == Received(s, text[1..], at + 1);
      CRsIgnored(s, text[1..], at + 1, start);
    } else {
      var (t, done) := Push(s, text[0]);
      var kept := HeadCRsDropped(t, text[1..]);
      CRsIgnored(t, text[1..], at + 1, start + 1);
      assert HeadCRsDropped(s, text) == [text[0]] + kept && ([text[0]] + kept)[1..] == kept;
      var ms, ns := Received(t, text[1..], at + 1), Received(t, kept, start + 1);
      if done {
        assert Received(s, text, at) == [Message(at, t.verb, t.url, t.content)] + ms;
        assert Received(s, [text[0]] + kept, start) == [Message(start, t.verb, t.url, t.content)] + ns;
        SameMessagesBoth(ms, ns, Message(at, t.verb, t.url, t.content), Message(start, t.verb, t.url, t.content));
      } else {
        assert Received(s, text, at) == ms;
        assert Received(s, [text[0]] + kept, start) == ns;
      }
    }
  }

  // ---------------------------------------------------------------------------

  lemma QuotedFound(s: string, start: nat, n: nat)
    requires start == FieldLength(s, {'"'}) + 1 && start <= |s| && n == FieldLength(s[start..], {'"'})
    ensures HasQuoted(s) <==> start + n < |s|
    ensures HasQuoted(s) ==> Quoted(s) == s[start..start + n]
  {
    hide FieldLength;
    var first, second := FieldLength(s, {'"'}), FieldLength(s[start..], {'"'});
    assert start == first + 1 && n == second;
  }

  lemma NothingQuoted(s: string)
    requires FieldLength(s, {'"'}) == |s|
    ensures !HasQuoted(s)
  {
  }

  class HttpStreamSplitter {
    var state: Phase
    var lineBuffer: string
    var contentBuffer: string
    var contentOktetsCounter: nat
    var contentLength: nat
    var requestMethod: string
    var requestUrl: string
    var downloadName: string

    ghost function State(): Splitter
      reads this
    {
      Splitter(state, lineBuffer, contentBuffer, contentOktetsCounter, contentLength,
               requestMethod, requestUrl, downloadName)
    }

    constructor ()
      ensures State() == START
    {
      state, lineBuffer, contentBuffer := WaitHeader, "", "";
      contentOktetsCounter, contentLength := 0, 0;
      requestMethod, requestUrl, downloadName := "", "", "";
    }

    method ProcessRequestLine()
      requires state.WaitHeader?
      modifies this
      ensures State().(line := "") == RequestLine(old(State())).(line := "")
    {
      hide Trim, SplitRuns;
      lineBuffer := Trim(lineBuffer);
      var tokens := SplitRuns(lineBuffer, Blanks());
      if |tokens| < 3 { return; }
      var version := Upper(tokens[2]);
      var verb := Upper(tokens[0]);
      if !(|version| >= 4 && version[..4] == "HTTP") { return; }
      state := ParseHeader;
      requestMethod, requestUrl := verb, tokens[1];
      contentLength, contentOktetsCounter, contentBuffer := 0, 0, "";
    }

    method TrimTokens(pieces: seq<string>) returns (tokens: seq<string>)
      ensures tokens == TrimAll(pieces)
    {
      hide Trim;
      tokens := pieces;
      for i := 0 to |tokens|
        invariant |tokens| == |pieces|
        invariant forall k :: 0 <= k < i ==> tokens[k] == Trim(pieces[k])
        invariant forall k :: i <= k < |pieces| ==> tokens[k] == pieces[k]
      {
        tokens := tokens[i := Trim(tokens[i])];
      }
    }

    method ProcessHeaderLine()
      requires state.ParseHeader?
      modifies this
      ensures State().(line := "") == HeaderLine(old(State())).(line := "")
    {
      hide Trim, SplitRuns, FieldLength, Quoted, HasQuoted, Atoi;
      if lineBuffer == "" {
        state := ReadContent;
        return;
      }
      lineBuffer := Trim(lineBuffer);
      var tokens := TrimTokens(SplitRuns(lineBuffer, {':'}));
      if |tokens| < 2 { return; }
      var name := Upper(tokens[0]);
      if name == CONTENT_DISPOSITION {
        var start := FieldLength(tokens[1], {'"'});
        if start < |tokens[1]| {
          start := start + 1;
          var n := FieldLength(tokens[1][start..], {'"'});
          QuotedFound(tokens[1], start, n);
          if start + n < |tokens[1]| { downloadName := tokens[1][start..start + n]; }
        } else {
          NothingQuoted(tokens[1]);
        }
      }
      if name == CONTENT_LENGTH {
        var cl := Atoi(tokens[1]);
        if cl < 0 { cl := 0; }
        contentLength := cl;
      }
    }

    method ProcessLineBuffer()
      modifies this
      ensures State().(line := "") == ProcessLine(old(State())).(line := "")
    {
      hide RequestLine, HeaderLine;
      match state {
        case WaitHeader => ProcessRequestLine();
        case ParseHeader => ProcessHeaderLine();
        case ReadContent =>
      }
    }

    /** Feeds one byte; true when it completes a request. */
    method PushChar(ch: char) returns (ret: bool)
      modifies this
      ensures (State(), ret) == Push(old(State()), ch)
    {
      hide ProcessLine;
      ret := false;
      match state {
        case WaitHeader | ParseHeader =>
          if ch == CR {
          } else if ch == LF {
            ProcessLineBuffer();
            lineBuffer := "";
          } else {
            lineBuffer := lineBuffer + [ch];
          }
        case ReadContent =>
          contentBuffer := contentBuffer + [ch];
          contentOktetsCounter := contentOktetsCounter + 1;
      }
      if state.ReadContent? && contentOktetsCounter >= contentLength {
        state := WaitHeader;
        ret := true;
      }
    }
  }
}
